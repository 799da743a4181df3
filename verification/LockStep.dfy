/** Writer and reader stay in lock-step: decoding a log gives back what every recorded call asked of the
    driver, and the state both sides keep for the layout agrees after every record. */
module LockStep {
  import opened Wire
  import opened Wrappers
  import opened IoLib
  import opened Gles
  import opened R = Retrace

  /** The two bindings and the set of enabled attributes are the same on both sides, and so are size, type
      and normalization of every attribute when the commands are executed. */
  ghost predicate Agree(st: GlState, rs: RState) {
    && st.Valid() && rs.Valid() && rs.arrayBuffer == st.arrayBuffer && rs.elementBuffer == st.elementBuffer
    && forall i :: 0 <= i < MAX_VERTEX_ATTRIBS ==> SameAttrib(rs.exec, st.attribs[i], rs.attribs[i])
  }

  predicate SameAttrib(exec: bool, a: VertexAttrib, r: ReplayAttrib) {
    r.enabled == a.enabled && (exec ==> r == ReplayAttrib(a.enabled, a.size, a.typ, a.normalized))
  }

  // ---------------------------------------------------------------- what the application asked for

  /** A pointer with a size, as far as the log distinguishes: nothing when it is NULL or empty. */
  function Given(data: Option<bytes>, size: int32): Option<bytes>
    requires Readable(data, size)
  {
    if data.Some? && size > 0 then Some(data.value[..size]) else None
  }

  function GivenSource(source: Option<bytes>, len: int32): Source
    requires SourceOk(source, len)
  {
    if len > 0 then Counted(len, Given(source, len)) else Terminated(Some(StrOf(source)))
  }

  function GivenSources(sources: seq<Option<bytes>>, lengths: Option<seq<int32>>, i: nat): seq<Source>
    requires SourcesOk(sources, lengths) && i <= |sources|
    decreases |sources| - i
  {
    if i == |sources| then [] else [GivenSource(sources[i], LengthOf(lengths, i))] + GivenSources(sources, lengths, i + 1)
  }

  /** For each enabled attribute, in order, the vertices the driver would fetch from client memory. */
  function Fetched(attribs: seq<VertexAttrib>, mem: Memory, vertices: int, i: nat): seq<(nat, Option<bytes>)>
    requires AttribsOk(attribs, vertices) && i <= |attribs|
    decreases |attribs| - i
  {
    if i == |attribs| then []
    else if attribs[i].enabled then
      var p := Packed(attribs[i], mem, Max(vertices, 0));
      [(i, if p == [] then None else Some(p))] + Fetched(attribs, mem, vertices, i + 1)
    else Fetched(attribs, mem, vertices, i + 1)
  }

  function GivenIndices(wsize: nat, st: GlState, mem: Memory, count: int32, typ: int32, p: nat): Indices
    requires TypesKnown(st, typ) && SizesFit(st, count, typ)
  {
    if st.elementBuffer != 0 then Offset(Widen(wsize, p))
    else
      var size := count * GlSizeof(typ).value;
      Client(if p == 0 || size <= 0 then None else Some(Slice(mem, p, size)))
  }

  /** What a call asks of the driver. */
  function Asked(wsize: nat, st: GlState, c: Call, mem: Memory): Command
    requires Traceable(wsize, st, c)
  {
    match c
    case Words(op, args) => Command.Words(op, args)
    case Names(op, n, names) => Command.Names(op, n, names)
    case BindBuffer(target, buffer) => Command.BindBuffer(target, buffer)
    case BufferData(target, size, data, usage) => Command.BufferData(target, size, Given(data, size), usage)
    case BufferSubData(target, offset, size, data) => Command.BufferSubData(target, offset, size, Given(data, size))
    case BindAttribLocation(program, location, name) =>
      Command.BindAttribLocation(program, location, Some(StrOf(name)))
    case EnableAttrib(i) => Command.EnableAttrib(i)
    case DisableAttrib(i) => Command.DisableAttrib(i)
    case AttribPointer(i, size, typ, normalized, stride, p) =>
      Command.AttribPointer(i, size, typ, normalized, stride, Widen(wsize, p))
    case DrawElements(mode, count, typ, p) =>
      Command.DrawElements(mode, count, typ, GivenIndices(wsize, st, mem, count, typ, p),
        if st.arrayBuffer == 0 then Fetched(st.attribs, mem, VertexCount(count), 0) else [])
    case ShaderSource(shader, n, sources, lengths) =>
      Command.ShaderSource(shader, n, GivenSources(sources, lengths, 0))
    case GetIntegerv(pname, params) => Command.GetIntegerv(pname, params)
    case SwapBuffers(dpy, surface, res) => Command.SwapBuffers(Widen(wsize, dpy), Widen(wsize, surface), res)
    case Mark(text) => Command.Mark(Some(StrOf(text)))
  }

  // ---------------------------------------------------------------- one record

  lemma {:induction false} IntsComeBack(wsize: nat, s: bytes, pos: nat, args: seq<int32>, fs: seq<Field>, k: nat)
    requires k + |args| <= |fs| && forall i :: 0 <= i < |args| ==> fs[k + i] == Int(args[i])
    requires FieldsAt(wsize, s, pos, fs[k..])
    ensures var (v, p) := GetInts(s, pos, |args|); v == args && FieldsAt(wsize, s, p, fs[k + |args|..])
    decreases |args|
  {
    hide FieldsAt, GetInt;
    if args != [] {
      assert fs[k + 0] == Int(args[0]);
      TakeInt(wsize, s, pos, fs, k);
      IntsComeBack(wsize, s, pos + 4, args[1..], fs, k + 1);
    }
  }

  lemma SourceComesBack(wsize: nat, s: bytes, pos: nat, source: Option<bytes>, len: int32, fs: seq<Field>, k: nat)
    requires SourceOk(source, len)
    requires k + 2 <= |fs| && fs[k..k + 2] == SourcePair(source, len) && FieldsAt(wsize, s, pos, fs[k..])
    ensures var (v, p) := GetSource(s, pos); v == GivenSource(source, len) && FieldsAt(wsize, s, p, fs[k + 2..])
  {
    hide FieldsAt, GetInt, GetBytes, GetString;
    assert fs[k] == fs[k..k + 2][0] && fs[k + 1] == fs[k..k + 2][1];
    TakeInt(wsize, s, pos, fs, k);
    if len > 0 {
      TakeBytes(wsize, s, pos + 4, fs, k + 1);
    } else {
      TakeString(wsize, s, pos + 4, fs, k + 1);
    }
  }

  lemma {:induction false} SourcesComeBack(wsize: nat, s: bytes, pos: nat,
      sources: seq<Option<bytes>>, lengths: Option<seq<int32>>, i: nat, fs: seq<Field>, k: nat)
    requires SourcesOk(sources, lengths) && i <= |sources|
    requires var n := |SourceFields(sources, lengths, i)|;
      k + n <= |fs| && fs[k..k + n] == SourceFields(sources, lengths, i)
    requires FieldsAt(wsize, s, pos, fs[k..])
    ensures var (v, p) := GetSources(s, pos, |sources| - i);
      v == GivenSources(sources, lengths, i) && FieldsAt(wsize, s, p, fs[k + |SourceFields(sources, lengths, i)|..])
    decreases |sources| - i
  {
    hide FieldsAt, SourceOk, SourcePair, GetSource, GivenSource;
    if i < |sources| {
      var len := LengthOf(lengths, i);
      var here, rest := SourcePair(sources[i], len), SourceFields(sources, lengths, i + 1);
      assert |here| == 2 by { PairLength(sources[i], len); }
      assert fs[k..k + 2] == (here + rest)[..2] == here;
      assert fs[k + 2..k + 2 + |rest|] == (here + rest)[2..] == rest;
      SourceComesBack(wsize, s, pos, sources[i], len, fs, k);
      SourcesComeBack(wsize, s, GetSource(s, pos).1, sources, lengths, i + 1, fs, k + 2);
    }
  }

  lemma PairLength(source: Option<bytes>, len: int32)
    requires SourceOk(source, len)
    ensures |SourcePair(source, len)| == 2
  {
  }

  lemma {:induction false} AttribsComeBack(wsize: nat, s: bytes, pos: nat, attribs: seq<VertexAttrib>,
      replayed: seq<ReplayAttrib>, mem: Memory, vertices: int, i: nat, fs: seq<Field>, k: nat)
    requires ValidWordSize(wsize) && AttribsOk(attribs, vertices) && i <= |attribs| == |replayed|
    requires forall j :: 0 <= j < |attribs| ==> replayed[j].enabled == attribs[j].enabled
    requires var n := |AttribFields(attribs, mem, vertices, i)|;
      k + n <= |fs| && fs[k..k + n] == AttribFields(attribs, mem, vertices, i)
    requires FieldsAt(wsize, s, pos, fs[k..])
    ensures var (v, p) := GetAttribs(s, pos, replayed, i);
      v == Fetched(attribs, mem, vertices, i) &&
      FieldsAt(wsize, s, p, fs[k + |AttribFields(attribs, mem, vertices, i)|..])
    decreases |attribs| - i
  {
    hide FieldsAt, GetBytes, Packed, FieldOk, EncField;
    if i < |attribs| {
      if attribs[i].enabled {
        var block, rest := AttribBlock(attribs[i], mem, vertices), AttribFields(attribs, mem, vertices, i + 1);
        assert fs[k] == fs[k..k + 1 + |rest|][0] == block;
        assert fs[k + 1..k + 1 + |rest|] == fs[k..k + 1 + |rest|][1..] == rest;
        TakeBytes(wsize, s, pos, fs, k);
        AttribsComeBack(wsize, s, GetBytes(s, pos).1, attribs, replayed, mem, vertices, i + 1, fs, k + 1);
      } else {
        AttribsComeBack(wsize, s, pos, attribs, replayed, mem, vertices, i + 1, fs, k);
      }
    }
  }

  /** The fields of a call are at pos, and after them the tail. */
  ghost predicate CallAt(wsize: nat, s: bytes, pos: nat, st: GlState, c: Call, mem: Memory, tail: seq<Field>) {
    ValidWordSize(wsize) && Traceable(wsize, st, c) && FieldsAt(wsize, s, pos, Payload(wsize, st, c, mem) + tail)
  }

  /** The decoder, given the opcode, returns what the call asked for and stops at the tail. */
  ghost predicate Decodes(wsize: nat, s: bytes, pos: nat, st: GlState, rs: RState, c: Call, mem: Memory, tail: seq<Field>)
    requires Traceable(wsize, st, c)
  {
    var r := GetCommand(wsize, rs, Opcode(c), s, pos);
    r.Some? && r.value.0 == Asked(wsize, st, c, mem) && FieldsAt(wsize, s, r.value.1, tail)
  }

  /** Which reader handles a call's opcode: no opcode is claimed twice. */
  ghost function Reader(wsize: nat, rs: RState, c: Call, s: bytes, pos: nat): Option<(Command, nat)>
  {
    match c
    case Words(op, args) => Some(GetWords(op, |args|, s, pos))
    case Names(op, _, _) => Some(GetNames(op, s, pos))
    case BindBuffer(_, _) => Some(GetBindBuffer(s, pos))
    case BufferData(_, _, _, _) => Some(GetBufferData(s, pos))
    case BufferSubData(_, _, _, _) => Some(GetBufferSubData(s, pos))
    case BindAttribLocation(_, _, _) => Some(GetAttribLocation(s, pos))
    case EnableAttrib(_) =>
      var (i, p) := GetInt(s, pos); Some((Command.EnableAttrib(i), p))
    case DisableAttrib(_) =>
      var (i, p) := GetInt(s, pos); Some((Command.DisableAttrib(i), p))
    case AttribPointer(_, _, _, _, _, _) => Some(GetAttribPointer(wsize, s, pos))
    case DrawElements(_, _, _, _) => Some(GetDraw(wsize, rs, s, pos))
    case ShaderSource(_, _, _, _) => Some(GetShaderSource(s, pos))
    case GetIntegerv(_, _) => Some(GetIntegerQuery(s, pos))
    case SwapBuffers(_, _, _) => Some(GetSwap(wsize, s, pos))
    case Mark(_) => var (text, p) := GetString(s, pos); Some((Command.Mark(text), p))
  }

  lemma Dispatch(wsize: nat, rs: RState, c: Call, s: bytes, pos: nat)
    requires CallOk(wsize, c)
    ensures GetCommand(wsize, rs, Opcode(c), s, pos) == Reader(wsize, rs, c, s, pos)
  {
    hide GetWords, GetNames, GetBindBuffer, GetBufferData, GetBufferSubData, GetAttribLocation, GetAttribPointer;
    hide GetDraw, GetShaderSource, GetIntegerQuery, GetSwap, GetInt, GetString, Readable, SourcesOk, CString, Pow256;
  }

  lemma DrawDecodes(wsize: nat, s: bytes, pos: nat, st: GlState, rs: RState, c: Call, mem: Memory, tail: seq<Field>)
    requires c.DrawElements? && Agree(st, rs) && CallAt(wsize, s, pos, st, c, mem, tail)
    ensures Decodes(wsize, s, pos, st, rs, c, mem, tail)
  {
    hide FieldsAt, GetInt, GetBytes, GetPtr, GlSizeof, AttribFields, Fetched, VertexCount, FieldOk, EncField;
    hide GetCommand, GetAttribs, IndexField, GivenIndices;
    Dispatch(wsize, rs, c, s, pos);
    var fs := Payload(wsize, st, c, mem) + tail;
    assert fs[0..] == fs;
    TakeInt(wsize, s, pos, fs, 0);
    TakeInt(wsize, s, pos + 4, fs, 1);
    TakeInt(wsize, s, pos + 8, fs, 2);
    var index := IndexField(st, mem, c.count, c.typ, c.indices);
    assert fs[3] == index;
    var p := if st.elementBuffer != 0 then GetPtr(wsize, s, pos + 12).1 else GetBytes(s, pos + 12).1;
    IndexDecodes(wsize, s, pos + 12, st, mem, c.count, c.typ, c.indices, fs, 3);
    if st.arrayBuffer == 0 {
      var blocks := AttribFields(st.attribs, mem, VertexCount(c.count), 0);
      assert fs[4..4 + |blocks|] == blocks;
      AttribsComeBack(wsize, s, p, st.attribs, rs.attribs, mem, VertexCount(c.count), 0, fs, 4);
      assert fs[4 + |blocks|..] == tail;
    } else {
      assert fs[4..] == tail;
    }
  }

  lemma IndexDecodes(wsize: nat, s: bytes, pos: nat, st: GlState, mem: Memory,
      count: int32, typ: int32, ptr: nat, fs: seq<Field>, k: nat)
    requires ValidWordSize(wsize) && ptr < Pow256(wsize) && TypesKnown(st, typ) && SizesFit(st, count, typ)
    requires k < |fs| && fs[k] == IndexField(st, mem, count, typ, ptr) && FieldsAt(wsize, s, pos, fs[k..])
    ensures st.elementBuffer != 0 ==> var (v, p) := GetPtr(wsize, s, pos);
      Offset(v) == GivenIndices(wsize, st, mem, count, typ, ptr) && FieldsAt(wsize, s, p, fs[k + 1..])
    ensures st.elementBuffer == 0 ==> var (v, p) := GetBytes(s, pos);
      Client(v) == GivenIndices(wsize, st, mem, count, typ, ptr) && FieldsAt(wsize, s, p, fs[k + 1..])
  {
    hide FieldsAt, GetBytes, GetPtr, GlSizeof, EncField, Pow256;
    if st.elementBuffer != 0 {
      TakePtr(wsize, s, pos, fs, k);
    } else {
      TakeBytes(wsize, s, pos, fs, k);
      var size := count * GlSizeof(typ).value;
      assert size > 0 ==> Slice(mem, ptr, Max(size, 0))[..size] == Slice(mem, ptr, size);
    }
  }

  lemma AttribPointerDecodes(wsize: nat, s: bytes, pos: nat, st: GlState, rs: RState, c: Call, mem: Memory, tail: seq<Field>)
    requires c.AttribPointer? && CallAt(wsize, s, pos, st, c, mem, tail)
    ensures Decodes(wsize, s, pos, st, rs, c, mem, tail)
  {
    hide FieldsAt, GetInt, GetPtr, Pow256, GetCommand;
    Dispatch(wsize, rs, c, s, pos);
    var fs := Payload(wsize, st, c, mem) + tail;
    assert fs[0..] == fs && fs[6..] == tail;
    TakeInt(wsize, s, pos, fs, 0);
    TakeInt(wsize, s, pos + 4, fs, 1);
    TakeInt(wsize, s, pos + 8, fs, 2);
    TakeInt(wsize, s, pos + 12, fs, 3);
    TakeInt(wsize, s, pos + 16, fs, 4);
    TakePtr(wsize, s, pos + 20, fs, 5);
  }

  /** A negative count reads nothing. */
  lemma NegativeCount(s: bytes, pos: nat, n: int32)
    ensures GetSources(s, pos, n) == GetSources(s, pos, Max(n, 0))
    ensures GetInts(s, pos, n) == GetInts(s, pos, Max(n, 0))
  {
  }

  lemma ShaderSourceDecodes(wsize: nat, s: bytes, pos: nat, st: GlState, rs: RState, c: Call, mem: Memory, tail: seq<Field>)
    requires c.ShaderSource? && CallAt(wsize, s, pos, st, c, mem, tail)
    ensures Decodes(wsize, s, pos, st, rs, c, mem, tail)
  {
    hide FieldsAt, GetInt, SourceFields, GetSources, GivenSources, SourceOk, GetCommand;
    Dispatch(wsize, rs, c, s, pos);
    var fs := Payload(wsize, st, c, mem) + tail;
    var body := SourceFields(c.sources, c.lengths, 0);
    assert fs[0..] == fs && fs[2..2 + |body|] == body && fs[2 + |body|..] == tail;
    TakeInt(wsize, s, pos, fs, 0);
    TakeInt(wsize, s, pos + 4, fs, 1);
    SourcesComeBack(wsize, s, pos + 8, c.sources, c.lengths, 0, fs, 2);
    NegativeCount(s, pos + 8, c.nsources);
  }

  lemma WordsParts(wsize: nat, s: bytes, pos: nat, st: GlState, rs: RState, c: Call, mem: Memory)
    requires c.Words? && Traceable(wsize, st, c)
    ensures CallOk(wsize, c) && Payload(wsize, st, c, mem) == Ints(c.args)
    ensures Asked(wsize, st, c, mem) == Command.Words(c.op, c.args)
    ensures Reader(wsize, rs, c, s, pos) == Some(GetWords(c.op, |c.args|, s, pos))
  {
    hide GetWords, WordCount;
  }

  lemma WordsDecode(wsize: nat, s: bytes, pos: nat, st: GlState, rs: RState, c: Call, mem: Memory, tail: seq<Field>)
    requires c.Words? && CallAt(wsize, s, pos, st, c, mem, tail)
    ensures Decodes(wsize, s, pos, st, rs, c, mem, tail)
  {
    hide FieldsAt, GetInt, GetInts, GetCommand, WordCount, IsNameCall, Payload, Asked, Reader, Traceable, CallOk, Opcode;
    WordsParts(wsize, s, pos, st, rs, c, mem);
    Dispatch(wsize, rs, c, s, pos);
    var fs := Ints(c.args) + tail;
    assert fs[0..] == fs && fs[|c.args|..] == tail;
    IntsComeBack(wsize, s, pos, c.args, fs, 0);
  }

  lemma NamesParts(wsize: nat, s: bytes, pos: nat, st: GlState, rs: RState, c: Call, mem: Memory)
    requires c.Names? && Traceable(wsize, st, c)
    ensures CallOk(wsize, c) && |c.names| == Max(c.n, 0)
    ensures Payload(wsize, st, c, mem) == [Int(c.n)] + Ints(c.names)
    ensures Asked(wsize, st, c, mem) == Command.Names(c.nop, c.n, c.names)
    ensures Reader(wsize, rs, c, s, pos) == Some(GetNames(c.nop, s, pos))
  {
    hide GetNames, IsNameCall;
  }

  lemma NamesDecode(wsize: nat, s: bytes, pos: nat, st: GlState, rs: RState, c: Call, mem: Memory, tail: seq<Field>)
    requires c.Names? && CallAt(wsize, s, pos, st, c, mem, tail)
    ensures Decodes(wsize, s, pos, st, rs, c, mem, tail)
  {
    hide FieldsAt, GetInt, GetInts, GetCommand, WordCount, IsNameCall, Payload, Asked, Reader, Traceable, CallOk, Opcode;
    NamesParts(wsize, s, pos, st, rs, c, mem);
    Dispatch(wsize, rs, c, s, pos);
    var fs := [Int(c.n)] + Ints(c.names) + tail;
    assert fs[0..] == fs && fs[1 + |c.names|..] == tail;
    TakeInt(wsize, s, pos, fs, 0);
    IntsComeBack(wsize, s, pos + 4, c.names, fs, 1);
    NegativeCount(s, pos + 4, c.n);
  }

  lemma BufferCallsDecode(wsize: nat, s: bytes, pos: nat, st: GlState, rs: RState, c: Call, mem: Memory, tail: seq<Field>)
    requires (c.BindBuffer? || c.BufferData? || c.BufferSubData?) && CallAt(wsize, s, pos, st, c, mem, tail)
    ensures Decodes(wsize, s, pos, st, rs, c, mem, tail)
  {
    hide FieldsAt, GetInt, GetBytes, EncField, GetCommand;
    Dispatch(wsize, rs, c, s, pos);
    var fs := Payload(wsize, st, c, mem) + tail;
    assert fs[0..] == fs && fs[|fs| - |tail|..] == tail;
    TakeInt(wsize, s, pos, fs, 0);
    TakeInt(wsize, s, pos + 4, fs, 1);
    if c.BufferData? {
      TakeBytes(wsize, s, pos + 8, fs, 2);
      TakeInt(wsize, s, GetBytes(s, pos + 8).1, fs, 3);
    } else if c.BufferSubData? {
      TakeInt(wsize, s, pos + 8, fs, 2);
      TakeBytes(wsize, s, pos + 12, fs, 3);
    }
  }

  lemma OtherCallsDecode(wsize: nat, s: bytes, pos: nat, st: GlState, rs: RState, c: Call, mem: Memory, tail: seq<Field>)
    requires c.BindAttribLocation? || c.EnableAttrib? || c.DisableAttrib? || c.GetIntegerv? || c.SwapBuffers? || c.Mark?
    requires CallAt(wsize, s, pos, st, c, mem, tail)
    ensures Decodes(wsize, s, pos, st, rs, c, mem, tail)
  {
    hide FieldsAt, GetInt, GetIntPtr, GetPtr, GetString, EncField, Pow256, GetCommand;
    Dispatch(wsize, rs, c, s, pos);
    var fs := Payload(wsize, st, c, mem) + tail;
    assert fs[0..] == fs && fs[|fs| - |tail|..] == tail;
    match c {
      case BindAttribLocation(_, _, _) =>
        TakeInt(wsize, s, pos, fs, 0);
        TakeInt(wsize, s, pos + 4, fs, 1);
        TakeString(wsize, s, pos + 8, fs, 2);
      case EnableAttrib(_) => TakeInt(wsize, s, pos, fs, 0);
      case DisableAttrib(_) => TakeInt(wsize, s, pos, fs, 0);
      case GetIntegerv(_, _) =>
        TakeInt(wsize, s, pos, fs, 0);
        TakeIntPtr(wsize, s, pos + 4, fs, 1);
      case SwapBuffers(_, _, _) =>
        TakePtr(wsize, s, pos, fs, 0);
        TakePtr(wsize, s, pos + wsize, fs, 1);
        TakeInt(wsize, s, pos + 2 * wsize, fs, 2);
      case Mark(_) => TakeString(wsize, s, pos, fs, 0);
      case _ =>
    }
  }

  /** Every call comes back as what it asked for, whatever follows it in the log. */
  lemma CallDecodes(wsize: nat, s: bytes, pos: nat, st: GlState, rs: RState, c: Call, mem: Memory, tail: seq<Field>)
    requires Agree(st, rs) && CallAt(wsize, s, pos, st, c, mem, tail)
    ensures Decodes(wsize, s, pos, st, rs, c, mem, tail)
  {
    hide Decodes, CallAt;
    if c.DrawElements? { DrawDecodes(wsize, s, pos, st, rs, c, mem, tail); }
    else if c.AttribPointer? { AttribPointerDecodes(wsize, s, pos, st, rs, c, mem, tail); }
    else if c.ShaderSource? { ShaderSourceDecodes(wsize, s, pos, st, rs, c, mem, tail); }
    else if c.Words? { WordsDecode(wsize, s, pos, st, rs, c, mem, tail); }
    else if c.Names? { NamesDecode(wsize, s, pos, st, rs, c, mem, tail); }
    else if c.BindBuffer? || c.BufferData? || c.BufferSubData? { BufferCallsDecode(wsize, s, pos, st, rs, c, mem, tail); }
    else { OtherCallsDecode(wsize, s, pos, st, rs, c, mem, tail); }
  }

  /** No call uses the opcode of the thread prefix. */
  lemma OpcodeIsNotPrefix(wsize: nat, c: Call)
    requires CallOk(wsize, c)
    ensures Opcode(c) != OPC_THREAD
  {
  }

  lemma OpeningDecodes(wsize: nat, s: bytes, pos: nat, cur: nat, thr: nat, op: int32, tail: seq<Field>)
    requires ValidWordSize(wsize) && thr < Pow256(wsize) && op != OPC_THREAD
    requires FieldsAt(wsize, s, pos, Opening(cur, thr, op) + tail)
    ensures var (t, o, p) := GetOpening(wsize, s, pos, Widen(wsize, cur));
      t == Widen(wsize, thr) && o == op && FieldsAt(wsize, s, p, tail)
  {
    hide FieldsAt, EncFields, Pow256;
    var fs := Opening(cur, thr, op) + tail;
    assert fs[0..] == fs && fs[|fs| - |tail|..] == tail;
    CmdIsInt(s, pos);
    if thr != cur {
      TakeInt(wsize, s, pos, fs, 0);
      InFile(wsize, s, pos, fs, 0);
      TakePtr(wsize, s, pos + 4, fs, 1);
      TakeInt(wsize, s, pos + 4 + wsize, fs, 2);
      InFile(wsize, s, pos + 4 + wsize, fs, 2);
    } else {
      TakeInt(wsize, s, pos, fs, 0);
      InFile(wsize, s, pos, fs, 0);
    }
  }

  lemma CmdIsInt(s: bytes, pos: nat)
    ensures pos + 4 <= |s| ==> GetCmd(s, pos) == GetInt(s, pos)
  {
  }

  /** A field that lies at pos lies inside the file. */
  lemma InFile(wsize: nat, s: bytes, pos: nat, fs: seq<Field>, k: nat)
    requires k < |fs| && fs[k].Int? && FieldsAt(wsize, s, pos, fs[k..])
    ensures pos + 4 <= |s|
  {
    NextField(wsize, s, pos, fs, k);
  }

  /** Applying a decoded command to the reader's state is what making the call does to the writer's. */
  lemma StateFollows(wsize: nat, st: GlState, rs: RState, c: Call, mem: Memory)
    requires Agree(st, rs) && Traceable(wsize, st, c)
    ensures InTable(rs.exec, Asked(wsize, st, c, mem)) && Agree(NextState(st, c), Apply(rs, Asked(wsize, st, c, mem)))
  {
  }

  lemma RecordDecodes(wsize: nat, s: bytes, pos: nat, cur: nat, st: GlState, rs: RState, t: Traced, tail: seq<Field>)
    requires ValidWordSize(wsize) && Agree(st, rs) && rs.thread == Widen(wsize, cur) && TracedOk(wsize, st, t)
    requires FieldsAt(wsize, s, pos, Record(wsize, cur, st, t) + tail)
    ensures var r := GetRecord(wsize, rs, s, pos);
      && r.Next? && r.event == AskedEvent(wsize, st, t) && FieldsAt(wsize, s, r.pos, tail)
      && Agree(NextState(st, t.call), r.rs) && r.rs.thread == Widen(wsize, t.thr)
  {
    hide FieldsAt, GetOpening, Payload, GetCommand, GetLong, Apply, NextState, Opcode, Asked, Traceable, Opening;
    var op := Opcode(t.call);
    var payload := Payload(wsize, st, t.call, t.mem);
    var times := [Long(t.bgn), Long(t.end)] + tail;
    assert Record(wsize, cur, st, t) + tail == Opening(cur, t.thr, op) + (payload + times);
    assert op != OPC_THREAD by { OpcodeOk(wsize, st, t.call); }
    OpeningDecodes(wsize, s, pos, cur, t.thr, op, payload + times);
    var (thread, o, p) := GetOpening(wsize, s, pos, rs.thread);
    var rs1 := rs.(thread := thread);
    CallDecodes(wsize, s, p, st, rs1, t.call, t.mem, times);
    var q := GetCommand(wsize, rs1, op, s, p).value.1;
    assert times[0..] == times && times[2..] == tail;
    TakeLong(wsize, s, q, times, 0);
    TakeLong(wsize, s, q + 8, times, 1);
    StateFollows(wsize, st, rs1, t.call, t.mem);
  }

  lemma OpcodeOk(wsize: nat, st: GlState, c: Call)
    requires Traceable(wsize, st, c)
    ensures Opcode(c) != OPC_THREAD
  {
    OpcodeIsNotPrefix(wsize, c);
  }

  // ---------------------------------------------------------------- whole logs

  predicate TracedOk(wsize: nat, st: GlState, t: Traced) {
    Traceable(wsize, st, t.call) && t.thr < Pow256(wsize) && t.bgn < TWO_64 && t.end < TWO_64
  }

  function AskedEvent(wsize: nat, st: GlState, t: Traced): Event
    requires TracedOk(wsize, st, t)
  {
    Event(Widen(wsize, t.thr), Asked(wsize, st, t.call, t.mem), t.bgn, t.end)
  }

  predicate AllTraceable(wsize: nat, st: GlState, ts: seq<Traced>)
    requires st.Valid()
    decreases |ts|
  {
    ts == [] || (TracedOk(wsize, st, ts[0]) && AllTraceable(wsize, NextState(st, ts[0].call), ts[1..]))
  }

  /** The fields a sequence of outermost calls leaves in the log. */
  function LogOf(wsize: nat, cur: nat, st: GlState, ts: seq<Traced>): seq<Field>
    requires st.Valid() && AllTraceable(wsize, st, ts)
    decreases |ts|
  {
    if ts == [] then [] else
      Record(wsize, cur, st, ts[0]) + LogOf(wsize, ts[0].thr, NextState(st, ts[0].call), ts[1..])
  }

  /** The commands it asks of the driver. */
  function AskedEvents(wsize: nat, st: GlState, ts: seq<Traced>): seq<Event>
    requires st.Valid() && AllTraceable(wsize, st, ts)
    decreases |ts|
  {
    if ts == [] then [] else
      [AskedEvent(wsize, st, ts[0])] + AskedEvents(wsize, NextState(st, ts[0].call), ts[1..])
  }

  /** The state after the calls. */
  function StateAfter(st: GlState, ts: seq<Traced>, wsize: nat): (st': GlState)
    requires st.Valid() && AllTraceable(wsize, st, ts)
    ensures st'.Valid()
    decreases |ts|
  {
    if ts == [] then st else StateAfter(NextState(st, ts[0].call), ts[1..], wsize)
  }

  /** Lock-step over a whole log: the decoder hands on exactly what the calls asked for, ends in a state
      that agrees with the tracer's, and stops at the end of the file, having consumed every byte. */
  lemma {:induction false} LockStep(wsize: nat, s: bytes, pos: nat, cur: nat, st: GlState, rs: RState,
      ts: seq<Traced>, frames: int)
    requires ValidWordSize(wsize) && Agree(st, rs) && rs.thread == Widen(wsize, cur) && frames < 0
    requires st.Valid() && AllTraceable(wsize, st, ts)
    requires FieldsAt(wsize, s, pos, LogOf(wsize, cur, st, ts))
    ensures var (es, rs', p) := Process(wsize, rs, s, pos, frames);
      es == AskedEvents(wsize, st, ts) && p == |s| && Agree(StateAfter(st, ts, wsize), rs')
    decreases |ts|
  {
    hide FieldsAt, EncFields, Record, GetRecord, AskedEvent, NextState, SizesFit, TypesKnown;
    if ts == [] {
      AtEnd(wsize, rs, s, pos);
    } else {
      var t := ts[0];
      RecordDecodes(wsize, s, pos, cur, st, rs, t, LogOf(wsize, t.thr, NextState(st, t.call), ts[1..]));
      var r := GetRecord(wsize, rs, s, pos);
      LockStep(wsize, s, r.pos, t.thr, NextState(st, t.call), r.rs, ts[1..],
        if r.event.cmd.SwapBuffers? then frames - 1 else frames);
    }
  }

  lemma AtEnd(wsize: nat, rs: RState, s: bytes, pos: nat)
    requires rs.Valid() && FieldsAt(wsize, s, pos, [])
    ensures pos == |s| && GetRecord(wsize, rs, s, pos) == Stop(rs, pos)
  {
    assert |s[pos..]| == 0;
    NoEofCommand(wsize, rs, s, pos);
  }

  /** The whole path: a log written from an empty one is recognised, and replaying it to the end hands on
      what the calls asked for. */
  lemma LogReplays(wsize: nat, s: bytes, ts: seq<Traced>, exec: bool)
    requires ValidWordSize(wsize) && AllTraceable(wsize, INITIAL, ts)
    requires s == EncFields(wsize, Header(wsize) + LogOf(wsize, 0, INITIAL, ts))
    ensures var r := OpenLog(s);
      r.Some? && r.value.0 == wsize &&
      var (es, rs, p) := Process(wsize, Start(exec), s, r.value.1, -1);
      es == AskedEvents(wsize, INITIAL, ts) && p == |s| && Agree(StateAfter(INITIAL, ts, wsize), rs)
  {
    hide FieldsAt, EncFields, GetInt, Process, LogOf, AskedEvents, StateAfter;
    var log := LogOf(wsize, 0, INITIAL, ts);
    var fs := Header(wsize) + log;
    WholeFile(wsize, s, fs);
    TakeInt(wsize, s, 0, fs, 0);
    TakeInt(wsize, s, 4, fs, 1);
    TakeInt(wsize, s, 8, fs, 2);
    TakeInt(wsize, s, 12, fs, 3);
    TakeInt(wsize, s, 16, fs, 4);
    assert fs[5..] == log;
    LockStep(wsize, s, 20, 0, INITIAL, Start(exec), ts, -1);
  }

  lemma WholeFile(wsize: nat, s: bytes, fs: seq<Field>)
    requires s == EncFields(wsize, fs)
    ensures FieldsAt(wsize, s, 0, fs[0..])
  {
    assert fs[0..] == fs && s[0..] == s;
  }

  // ---------------------------------------------------------------- what replay's driver fetches

  /** The attribute as replay describes it to its driver: its own copies, stride 0, and a block at p. */
  function AsReplayed(r: ReplayAttrib, p: nat): VertexAttrib {
    VertexAttrib(r.enabled, r.size, r.typ, r.normalized, 0, p)
  }

  lemma {:induction false} FetchedIsPacked(attribs: seq<VertexAttrib>, mem: Memory, vertices: int, i: nat, k: nat)
    requires AttribsOk(attribs, vertices) && i <= |attribs| && k < |Fetched(attribs, mem, vertices, i)|
    ensures var (n, block) := Fetched(attribs, mem, vertices, i)[k];
      && i <= n < |attribs| && attribs[n].enabled
      && (block.Some? ==> block.value == Packed(attribs[n], mem, Max(vertices, 0)))
    decreases |attribs| - i
  {
    if attribs[i].enabled {
      if k > 0 { FetchedIsPacked(attribs, mem, vertices, i + 1, k - 1); }
    } else {
      FetchedIsPacked(attribs, mem, vertices, i + 1, k);
    }
  }

  lemma SliceOfBlock(mem: Memory, p: nat, block: bytes, k: nat, n: nat)
    requires k + n <= |block| && forall i :: 0 <= i < |block| ==> mem(p + i) == block[i]
    ensures Slice(mem, p + k, n) == block[k..k + n]
  {
    var slice, part := Slice(mem, p + k, n), block[k..k + n];
    forall i | 0 <= i < n ensures slice[i] == part[i] {
      assert mem(p + (k + i)) == block[k + i];
    }
  }

  /** For every block a replayed draw call hands its driver, and every vertex the block has, the driver
      fetches, through replay's own element size and stride 0, the bytes the traced driver fetched through
      the application's stride, and normalizes them alike. */
  lemma ReplayFetchesTheSame(wsize: nat, st: GlState, rs: RState, c: Call, mem: Memory, k: nat, j: nat,
      replay: Memory, p: nat)
    requires Agree(st, rs) && rs.exec && c.DrawElements? && st.arrayBuffer == 0 && Traceable(wsize, st, c)
    requires k < |Asked(wsize, st, c, mem).attribs| && Asked(wsize, st, c, mem).attribs[k].1.Some?
    requires var block := Asked(wsize, st, c, mem).attribs[k].1.value;
      forall i :: 0 <= i < |block| ==> replay(p + i) == block[i]
    requires j < VertexCount(c.count)
    ensures var n := Asked(wsize, st, c, mem).attribs[k].0;
      && n < MAX_VERTEX_ATTRIBS && rs.attribs[n].normalized == st.attribs[n].normalized
      && GlSizeof(rs.attribs[n].typ).Some? && GlSizeof(st.attribs[n].typ).Some?
      && Fetch(AsReplayed(rs.attribs[n], p), replay, j) == Fetch(st.attribs[n], mem, j)
  {
    hide Packed, GivenIndices, VertexCount;
    var vertices := VertexCount(c.count);
    var blocks := Asked(wsize, st, c, mem).attribs;
    assert blocks == Fetched(st.attribs, mem, vertices, 0);
    FetchedIsPacked(st.attribs, mem, vertices, 0, k);
    var n, block := blocks[k].0, blocks[k].1.value;
    var a, size := st.attribs[n], Max(ElemSize(st.attribs[n]), 0);
    assert SameAttrib(rs.exec, a, rs.attribs[n]);
    PackedKeepsFetches(a, mem, vertices, j);
    SliceOfBlock(replay, p, block, j * size, size);
  }

  // ---------------------------------------------------------------- shader text

  /** The text the driver takes for one source: up to its NUL when no length is given or it is negative,
      and exactly that many bytes otherwise. */
  function DriverText(source: bytes, length: Option<int32>): bytes
    requires length.Some? && length.value > 0 ==> length.value <= |source|
  {
    if length.Some? && length.value >= 0 then source[..length.value] else source
  }

  function ReplayedText(source: Source): bytes {
    match source
    case Counted(_, b) => StrOf(b)
    case Terminated(b) => StrOf(b)
  }

  /** Replay compiles the text the application compiled, except where the application passed a nonempty
      string with an explicit length of zero: the zero is logged like an absent length, and replay hands
      over the whole string. */
  lemma ShaderTextSurvives(source: bytes, length: Option<int32>)
    requires var len := if length.Some? then length.value else 0; SourceOk(Some(source), len)
    ensures var len := if length.Some? then length.value else 0;
      ReplayedText(GivenSource(Some(source), len)) == DriverText(source, length)
      <==> !(length == Some(0) && source != [])
  {
  }

  /** A text of one byte with an explicit length of zero: the application compiled nothing, replay the byte. */
  lemma ZeroLengthIsReplayed(b: byte)
    requires b != 0
    ensures DriverText([b], Some(0)) == [] && ReplayedText(GivenSource(Some([b]), 0)) == [b]
  {
  }
}
