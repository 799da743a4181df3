/** The state of tracer and reader, told by the calls alone: each binding is that of the last bind of its own
    target, each attribute is as the last calls that name it left it; and so the form of every draw record. */
module LastCalls {
  import opened Wire
  import opened Wrappers
  import opened IoLib
  import opened Gles
  import opened LockStep
  import R = Retrace

  // ---------------------------------------------------------------- the last call of a kind

  /** The calls that bind a target, that enable or disable an attribute, and that describe one. */
  datatype Kind = BindsTo(target: int32) | Toggles(attrib: nat) | Points(attrib: nat)

  predicate IsCall(c: Call, kind: Kind) {
    match kind
    case BindsTo(target) => c.BindBuffer? && c.target == target
    case Toggles(i) => (c.EnableAttrib? || c.DisableAttrib?) && c.index == i
    case Points(i) => c.AttribPointer? && c.index == i
  }

  /** k is the last call of the kind; -1 if there is none. */
  ghost predicate LastCall(ts: seq<Traced>, kind: Kind, k: int) {
    -1 <= k < |ts| && (k >= 0 ==> IsCall(ts[k].call, kind)) && forall j :: k < j < |ts| ==> !IsCall(ts[j].call, kind)
  }

  /** The same of the commands that a replay hands on. */
  predicate IsCommand(c: R.Command, kind: Kind) {
    match kind
    case BindsTo(target) => c.BindBuffer? && c.target == target
    case Toggles(i) => (c.EnableAttrib? || c.DisableAttrib?) && c.index == i
    case Points(i) => c.AttribPointer? && c.aindex == i
  }

  ghost predicate LastEvent(es: seq<R.Event>, kind: Kind, k: int) {
    -1 <= k < |es| && (k >= 0 ==> IsCommand(es[k].cmd, kind)) && forall j :: k < j < |es| ==> !IsCommand(es[j].cmd, kind)
  }

  // ---------------------------------------------------------------- the tracer

  lemma {:induction false} ArrayBindingFrom(wsize: nat, st: GlState, ts: seq<Traced>, k: int)
    requires st.Valid() && AllTraceable(wsize, st, ts) && LastCall(ts, BindsTo(GL_ARRAY_BUFFER), k)
    ensures StateAfter(st, ts, wsize).arrayBuffer == if k < 0 then st.arrayBuffer else ts[k].call.buffer
    decreases |ts|
  {
    hide SizesFit, TypesKnown, WordCount, IsNameCall, Readable, CString, SourcesOk, Pow256;
    if ts != [] {
      ArrayBindingFrom(wsize, NextState(st, ts[0].call), ts[1..], if k < 0 then k else k - 1);
    }
  }

  lemma {:induction false} ElementBindingFrom(wsize: nat, st: GlState, ts: seq<Traced>, k: int)
    requires st.Valid() && AllTraceable(wsize, st, ts) && LastCall(ts, BindsTo(GL_ELEMENT_ARRAY_BUFFER), k)
    ensures StateAfter(st, ts, wsize).elementBuffer == if k < 0 then st.elementBuffer else ts[k].call.buffer
    decreases |ts|
  {
    hide SizesFit, TypesKnown, WordCount, IsNameCall, Readable, CString, SourcesOk, Pow256;
    if ts != [] {
      ElementBindingFrom(wsize, NextState(st, ts[0].call), ts[1..], if k < 0 then k else k - 1);
    }
  }

  lemma {:induction false} EnabledFrom(wsize: nat, st: GlState, ts: seq<Traced>, i: nat, k: int)
    requires st.Valid() && AllTraceable(wsize, st, ts) && LastCall(ts, Toggles(i), k) && i < MAX_VERTEX_ATTRIBS
    ensures StateAfter(st, ts, wsize).attribs[i].enabled == if k < 0 then st.attribs[i].enabled else ts[k].call.EnableAttrib?
    decreases |ts|
  {
    hide SizesFit, TypesKnown, WordCount, IsNameCall, Readable, CString, SourcesOk, Pow256;
    if ts != [] {
      EnabledFrom(wsize, NextState(st, ts[0].call), ts[1..], i, if k < 0 then k else k - 1);
    }
  }

  /** The attribute as the pointer call describes it. */
  ghost predicate PointedBy(a: VertexAttrib, c: Call)
    requires c.AttribPointer?
  {
    a.size == c.asize && a.typ == c.typ && a.normalized == c.normalized && a.stride == c.stride && a.pointer == c.pointer
  }

  lemma {:induction false} PointedFrom(wsize: nat, st: GlState, ts: seq<Traced>, i: nat, k: int)
    requires st.Valid() && AllTraceable(wsize, st, ts) && LastCall(ts, Points(i), k) && i < MAX_VERTEX_ATTRIBS
    ensures k >= 0 ==> PointedBy(StateAfter(st, ts, wsize).attribs[i], ts[k].call)
    ensures k < 0 ==> var a := StateAfter(st, ts, wsize).attribs[i];
      a.(enabled := false) == st.attribs[i].(enabled := false)
    decreases |ts|
  {
    hide SizesFit, TypesKnown, WordCount, IsNameCall, Readable, CString, SourcesOk, Pow256;
    if ts != [] {
      PointedFrom(wsize, NextState(st, ts[0].call), ts[1..], i, if k < 0 then k else k - 1);
    }
  }

  /** After any calls each binding is the buffer of the last bind of its own target, or 0. */
  lemma BindingsAreLastBound(wsize: nat, ts: seq<Traced>, a: int, e: int)
    requires AllTraceable(wsize, INITIAL, ts)
    requires LastCall(ts, BindsTo(GL_ARRAY_BUFFER), a) && LastCall(ts, BindsTo(GL_ELEMENT_ARRAY_BUFFER), e)
    ensures var st := StateAfter(INITIAL, ts, wsize);
      && st.arrayBuffer == (if a < 0 then 0 else ts[a].call.buffer)
      && st.elementBuffer == (if e < 0 then 0 else ts[e].call.buffer)
  {
    hide AllTraceable, StateAfter;
    ArrayBindingFrom(wsize, INITIAL, ts, a);
    ElementBindingFrom(wsize, INITIAL, ts, e);
  }

  /** An attribute is enabled exactly if the last call that enables or disables it enables it; its size, type,
      normalization, stride and pointer are those of the last pointer call for it, or 0. */
  lemma AttribsAreLastSet(wsize: nat, ts: seq<Traced>, i: nat, t: int, p: int)
    requires AllTraceable(wsize, INITIAL, ts) && i < MAX_VERTEX_ATTRIBS
    requires LastCall(ts, Toggles(i), t) && LastCall(ts, Points(i), p)
    ensures var a := StateAfter(INITIAL, ts, wsize).attribs[i];
      && (a.enabled <==> t >= 0 && ts[t].call.EnableAttrib?)
      && (p >= 0 ==> PointedBy(a, ts[p].call))
      && (p < 0 ==> a.size == 0 && a.typ == 0 && a.normalized == 0 && a.stride == 0 && a.pointer == 0)
  {
    hide AllTraceable, StateAfter;
    EnabledFrom(wsize, INITIAL, ts, i, t);
    PointedFrom(wsize, INITIAL, ts, i, p);
  }

  // ---------------------------------------------------------------- the reader, on any file

  lemma TurnSets(wsize: nat, rs: R.RState, s: bytes, pos: nat)
    requires rs.Valid()
    ensures var r := R.GetRecord(wsize, rs, s, pos);
      r.Stop? ==> r.srs == rs.(thread := r.srs.thread)
    ensures var r := R.GetRecord(wsize, rs, s, pos);
      r.Next? ==> r.rs == R.Apply(rs.(thread := r.rs.thread), r.event.cmd) && R.InTable(rs.exec, r.event.cmd)
  {
    hide R.GetCommand, R.GetOpening, R.Apply, R.InTable;
  }

  /** The copy as the pointer command describes it. */
  ghost predicate CopiedFrom(a: R.ReplayAttrib, c: R.Command)
    requires c.AttribPointer?
  {
    a.size == c.asize && a.typ == c.typ && a.normalized == c.normalized
  }

  /** What one turn of the reader's loop does to the state, field by field. */
  lemma Turn(wsize: nat, rs: R.RState, s: bytes, pos: nat, i: nat)
    requires rs.Valid() && i < MAX_VERTEX_ATTRIBS && R.GetRecord(wsize, rs, s, pos).Next?
    ensures var r := R.GetRecord(wsize, rs, s, pos); var c := r.event.cmd;
      && r.rs.exec == rs.exec
      && r.rs.arrayBuffer == (if IsCommand(c, BindsTo(GL_ARRAY_BUFFER)) then c.buffer else rs.arrayBuffer)
      && r.rs.elementBuffer == (if IsCommand(c, BindsTo(GL_ELEMENT_ARRAY_BUFFER)) then c.buffer else rs.elementBuffer)
      && r.rs.attribs[i].enabled == (if IsCommand(c, Toggles(i)) then c.EnableAttrib? else rs.attribs[i].enabled)
      && (if rs.exec && IsCommand(c, Points(i)) then CopiedFrom(r.rs.attribs[i], c)
          else r.rs.attribs[i].(enabled := false) == rs.attribs[i].(enabled := false))
  {
    hide R.GetRecord;
    TurnSets(wsize, rs, s, pos);
  }

  lemma LaterEvents(e: R.Event, rest: seq<R.Event>, kind: Kind, k: int)
    requires LastEvent([e] + rest, kind, k)
    ensures LastEvent(rest, kind, if k < 0 then k else k - 1) && -1 <= k <= |rest|
    ensures k <= 0 ==> (IsCommand(e.cmd, kind) <==> k == 0)
    ensures k > 0 ==> ([e] + rest)[k] == rest[k - 1]
  {
    hide IsCommand;
    var es := [e] + rest;
    assert es[0] == e;
    forall j | 0 <= j < |rest| ensures rest[j] == es[j + 1] { }
    var l := if k < 0 then k else k - 1;
    forall j | l < j < |rest| ensures !IsCommand(rest[j].cmd, kind) { assert rest[j] == es[j + 1]; }
  }

  /** A replay that stops at once hands nothing on. */
  lemma Stopped(wsize: nat, rs: R.RState, s: bytes, pos: nat, kind: Kind, k: int)
    requires rs.Valid()
    ensures R.GetRecord(wsize, rs, s, pos).Stop? ==>
      R.GetRecord(wsize, rs, s, pos).srs == rs.(thread := R.GetRecord(wsize, rs, s, pos).srs.thread)
    ensures LastEvent([], kind, k) ==> k == -1
  {
    hide R.GetRecord;
    TurnSets(wsize, rs, s, pos);
  }

  lemma {:induction false} ReaderArrayBindingFrom(wsize: nat, rs: R.RState, s: bytes, pos: nat, frames: int, k: int)
    requires rs.Valid() && LastEvent(R.Process(wsize, rs, s, pos, frames).0, BindsTo(GL_ARRAY_BUFFER), k)
    ensures var (es, rs', _) := R.Process(wsize, rs, s, pos, frames);
      rs'.arrayBuffer == if k < 0 then rs.arrayBuffer else es[k].cmd.buffer
    decreases |s| - pos
  {
    hide R.GetRecord, R.Apply, R.InTable, LastEvent, IsCommand;
    var r := R.GetRecord(wsize, rs, s, pos);
    if frames != 0 && r.Next? {
      var left := if r.event.cmd.SwapBuffers? then frames - 1 else frames;
      Turn(wsize, rs, s, pos, 0);
      LaterEvents(r.event, R.Process(wsize, r.rs, s, r.pos, left).0, BindsTo(GL_ARRAY_BUFFER), k);
      ReaderArrayBindingFrom(wsize, r.rs, s, r.pos, left, if k < 0 then k else k - 1);
    } else {
      Stopped(wsize, rs, s, pos, BindsTo(GL_ARRAY_BUFFER), k);
    }
  }

  lemma {:induction false} ReaderElementBindingFrom(wsize: nat, rs: R.RState, s: bytes, pos: nat, frames: int, k: int)
    requires rs.Valid() && LastEvent(R.Process(wsize, rs, s, pos, frames).0, BindsTo(GL_ELEMENT_ARRAY_BUFFER), k)
    ensures var (es, rs', _) := R.Process(wsize, rs, s, pos, frames);
      rs'.elementBuffer == if k < 0 then rs.elementBuffer else es[k].cmd.buffer
    decreases |s| - pos
  {
    hide R.GetRecord, R.Apply, R.InTable, LastEvent, IsCommand;
    var r := R.GetRecord(wsize, rs, s, pos);
    if frames != 0 && r.Next? {
      var left := if r.event.cmd.SwapBuffers? then frames - 1 else frames;
      Turn(wsize, rs, s, pos, 0);
      LaterEvents(r.event, R.Process(wsize, r.rs, s, r.pos, left).0, BindsTo(GL_ELEMENT_ARRAY_BUFFER), k);
      ReaderElementBindingFrom(wsize, r.rs, s, r.pos, left, if k < 0 then k else k - 1);
    } else {
      Stopped(wsize, rs, s, pos, BindsTo(GL_ELEMENT_ARRAY_BUFFER), k);
    }
  }

  lemma {:induction false} ReaderEnabledFrom(wsize: nat, rs: R.RState, s: bytes, pos: nat, frames: int, i: nat, k: int)
    requires rs.Valid() && i < MAX_VERTEX_ATTRIBS && LastEvent(R.Process(wsize, rs, s, pos, frames).0, Toggles(i), k)
    ensures var (es, rs', _) := R.Process(wsize, rs, s, pos, frames);
      rs'.attribs[i].enabled == if k < 0 then rs.attribs[i].enabled else es[k].cmd.EnableAttrib?
    decreases |s| - pos
  {
    hide R.GetRecord, R.Apply, R.InTable, LastEvent, IsCommand;
    var r := R.GetRecord(wsize, rs, s, pos);
    if frames != 0 && r.Next? {
      var left := if r.event.cmd.SwapBuffers? then frames - 1 else frames;
      Turn(wsize, rs, s, pos, i);
      LaterEvents(r.event, R.Process(wsize, r.rs, s, r.pos, left).0, Toggles(i), k);
      ReaderEnabledFrom(wsize, r.rs, s, r.pos, left, i, if k < 0 then k else k - 1);
    } else {
      Stopped(wsize, rs, s, pos, Toggles(i), k);
    }
  }

  lemma {:induction false} ReaderPointedFrom(wsize: nat, rs: R.RState, s: bytes, pos: nat, frames: int, i: nat, k: int)
    requires rs.Valid() && i < MAX_VERTEX_ATTRIBS && LastEvent(R.Process(wsize, rs, s, pos, frames).0, Points(i), k)
    ensures var (es, rs', _) := R.Process(wsize, rs, s, pos, frames);
      rs.exec && k >= 0 ==> CopiedFrom(rs'.attribs[i], es[k].cmd)
    ensures var (es, rs', _) := R.Process(wsize, rs, s, pos, frames);
      !rs.exec || k < 0 ==> rs'.attribs[i].(enabled := false) == rs.attribs[i].(enabled := false)
    decreases |s| - pos
  {
    hide R.GetRecord, R.Apply, R.InTable, LastEvent, IsCommand;
    var r := R.GetRecord(wsize, rs, s, pos);
    if frames != 0 && r.Next? {
      var left := if r.event.cmd.SwapBuffers? then frames - 1 else frames;
      Turn(wsize, rs, s, pos, i);
      LaterEvents(r.event, R.Process(wsize, r.rs, s, r.pos, left).0, Points(i), k);
      ReaderPointedFrom(wsize, r.rs, s, r.pos, left, i, if k < 0 then k else k - 1);
    } else {
      Stopped(wsize, rs, s, pos, Points(i), k);
    }
  }

  /** Whatever bytes are replayed, for however many frames: each of the reader's bindings is the buffer of the
      last bind of its own target that it handed on, or 0. */
  lemma ReaderBindingsAreLastBound(wsize: nat, exec: bool, s: bytes, pos: nat, frames: int, a: int, e: int)
    requires var es := R.Process(wsize, R.Start(exec), s, pos, frames).0;
      LastEvent(es, BindsTo(GL_ARRAY_BUFFER), a) && LastEvent(es, BindsTo(GL_ELEMENT_ARRAY_BUFFER), e)
    ensures var (es, rs, _) := R.Process(wsize, R.Start(exec), s, pos, frames);
      && rs.arrayBuffer == (if a < 0 then 0 else es[a].cmd.buffer)
      && rs.elementBuffer == (if e < 0 then 0 else es[e].cmd.buffer)
  {
    hide R.Process;
    ReaderArrayBindingFrom(wsize, R.Start(exec), s, pos, frames, a);
    ReaderElementBindingFrom(wsize, R.Start(exec), s, pos, frames, e);
  }

  /** And an attribute is enabled exactly if the last enable or disable of it handed on was an enable; when
      executing, its size, type and normalization are those of the last pointer command for it, or 0. */
  lemma ReaderAttribsAreLastSet(wsize: nat, exec: bool, s: bytes, pos: nat, frames: int, i: nat, t: int, p: int)
    requires i < MAX_VERTEX_ATTRIBS
    requires var es := R.Process(wsize, R.Start(exec), s, pos, frames).0;
      LastEvent(es, Toggles(i), t) && LastEvent(es, Points(i), p)
    ensures var (es, rs, _) := R.Process(wsize, R.Start(exec), s, pos, frames);
      && (rs.attribs[i].enabled <==> t >= 0 && es[t].cmd.EnableAttrib?)
      && (exec && p >= 0 ==> CopiedFrom(rs.attribs[i], es[p].cmd))
      && (!exec || p < 0 ==> rs.attribs[i].size == 0 && rs.attribs[i].typ == 0 && rs.attribs[i].normalized == 0)
  {
    hide R.Process;
    ReaderEnabledFrom(wsize, R.Start(exec), s, pos, frames, i, t);
    ReaderPointedFrom(wsize, R.Start(exec), s, pos, frames, i, p);
  }

  // ---------------------------------------------------------------- draw calls

  lemma {:induction false} PrefixTraceable(wsize: nat, st: GlState, ts: seq<Traced>, k: nat)
    requires st.Valid() && AllTraceable(wsize, st, ts) && k < |ts|
    ensures AllTraceable(wsize, st, ts[..k])
    ensures var at := StateAfter(st, ts[..k], wsize);
      && TracedOk(wsize, at, ts[k]) && k < |AskedEvents(wsize, st, ts)|
      && AskedEvents(wsize, st, ts)[k] == AskedEvent(wsize, at, ts[k])
    decreases k
  {
    hide AskedEvent, NextState, SizesFit, TypesKnown, WordCount, IsNameCall, Readable, CString, SourcesOk, Pow256;
    if k > 0 {
      assert ts[1..][..k - 1] == ts[..k][1..];
      PrefixTraceable(wsize, NextState(st, ts[0].call), ts[1..], k - 1);
    }
  }

  ghost predicate HasBlock(blocks: seq<(nat, Option<bytes>)>, n: nat) {
    exists j :: 0 <= j < |blocks| && blocks[j].0 == n
  }

  lemma HasBlockCons(b: (nat, Option<bytes>), rest: seq<(nat, Option<bytes>)>, n: nat)
    ensures HasBlock([b] + rest, n) <==> b.0 == n || HasBlock(rest, n)
  {
    var all := [b] + rest;
    assert all[0] == b;
    if HasBlock(rest, n) {
      var j :| 0 <= j < |rest| && rest[j].0 == n;
      assert all[j + 1].0 == n;
    }
    if HasBlock(all, n) && b.0 != n {
      var l :| 0 <= l < |all| && all[l].0 == n;
      assert rest[l - 1].0 == n;
    }
  }

  lemma {:induction false} FetchedNames(attribs: seq<VertexAttrib>, mem: Memory, vertices: int, i: nat, n: nat)
    requires AttribsOk(attribs, vertices) && i <= |attribs| && n < |attribs|
    ensures HasBlock(Fetched(attribs, mem, vertices, i), n) <==> i <= n && attribs[n].enabled
    decreases |attribs| - i
  {
    hide Packed;
    if i < |attribs| {
      FetchedNames(attribs, mem, vertices, i + 1, n);
      if attribs[i].enabled {
        var rest := Fetched(attribs, mem, vertices, i + 1);
        HasBlockCons(Fetched(attribs, mem, vertices, i)[0], rest, n);
      }
    }
  }

  /** The bytes an argument points at, as the command hands them on: all of them, or nothing when there are none. */
  predicate SameBytes(given: Option<bytes>, data: Option<bytes>, size: int32) {
    if data.Some? && size > 0 then
      && size <= |data.value| && given.Some? && |given.value| == size
      && forall i :: 0 <= i < size ==> given.value[i] == data.value[i]
    else given == None
  }

  /** Argument by argument, what a call passes and what the command replayed for it passes; pointers of four bytes
      come back with their sign extended. */
  ghost predicate Carries(wsize: nat, c: Call, cmd: R.Command) {
    match c
    case Words(op, args) => cmd == R.Command.Words(op, args)
    case Names(op, n, names) => cmd == R.Command.Names(op, n, names)
    case BindBuffer(target, buffer) => cmd == R.Command.BindBuffer(target, buffer)
    case BufferData(target, size, data, usage) =>
      cmd.BufferData? && (cmd.target, cmd.size, cmd.usage) == (target, size, usage) && SameBytes(cmd.data, data, size)
    case BufferSubData(target, offset, size, data) =>
      && cmd.BufferSubData? && (cmd.target, cmd.offset, cmd.size) == (target, offset, size)
      && SameBytes(cmd.data, data, size)
    case BindAttribLocation(program, location, name) =>
      cmd == R.Command.BindAttribLocation(program, location, Some(if name.Some? then name.value else []))
    case EnableAttrib(i) => cmd.EnableAttrib? && cmd.index == i
    case DisableAttrib(i) => cmd.DisableAttrib? && cmd.index == i
    case AttribPointer(i, size, typ, normalized, stride, p) =>
      && cmd.AttribPointer? && (cmd.aindex, cmd.asize, cmd.typ) == (i as int, size, typ)
      && (cmd.normalized, cmd.stride, cmd.pointer) == (normalized, stride, Widen(wsize, p))
    case DrawElements(mode, count, typ, _) =>
      cmd.DrawElements? && (cmd.mode, cmd.count, cmd.typ) == (mode, count, typ)
    case ShaderSource(shader, n, _, _) => cmd.ShaderSource? && (cmd.shader, cmd.nsources) == (shader, n)
    case GetIntegerv(pname, params) => cmd == R.Command.GetIntegerv(pname, params)
    case SwapBuffers(dpy, surface, res) => cmd == R.Command.SwapBuffers(Widen(wsize, dpy), Widen(wsize, surface), res)
    case Mark(text) => cmd == R.Command.Mark(Some(if text.Some? then text.value else []))
  }

  /** The k-th event replayed is the k-th call: its thread, its times and its arguments. */
  lemma EventsCarryTheCalls(wsize: nat, ts: seq<Traced>, k: nat)
    requires AllTraceable(wsize, INITIAL, ts) && k < |ts|
    ensures k < |AskedEvents(wsize, INITIAL, ts)|
    ensures var e := AskedEvents(wsize, INITIAL, ts)[k];
      && e.thread == Widen(wsize, ts[k].thr) && e.bgn == ts[k].bgn && e.end == ts[k].end
      && Carries(wsize, ts[k].call, e.cmd)
  {
    hide AllTraceable, StateAfter, AskedEvents, Fetched, GivenIndices, GivenSources, GlSizeof, Widen, SourcesOk, WordCount;
    PrefixTraceable(wsize, INITIAL, ts, k);
  }

  /** The indices of a replayed draw call are the bytes the application pointed at, or its offset. */
  lemma IndicesComeBack(wsize: nat, ts: seq<Traced>, k: nat)
    requires AllTraceable(wsize, INITIAL, ts) && k < |ts| && ts[k].call.DrawElements?
    ensures k < |AskedEvents(wsize, INITIAL, ts)| && AskedEvents(wsize, INITIAL, ts)[k].cmd.DrawElements?
    ensures var (c, given) := (ts[k].call, AskedEvents(wsize, INITIAL, ts)[k].cmd.indices);
      match given
      case Offset(p) => p == Widen(wsize, c.indices)
      case Client(data) =>
        && GlSizeof(c.typ).Some?
        && (data.Some? <==> c.indices != 0 && c.count > 0)
        && (data.Some? ==> |data.value| == c.count * GlSizeof(c.typ).value)
        && (data.Some? ==> forall i :: 0 <= i < |data.value| ==> data.value[i] == ts[k].mem(c.indices + i))
  {
    hide AllTraceable, StateAfter, AskedEvents, Fetched, Widen;
    PrefixTraceable(wsize, INITIAL, ts, k);
  }

  /** The k-th call of a traced run, a draw call, is replayed with an offset exactly if the last bind of
      GL_ELEMENT_ARRAY_BUFFER before it was to a buffer; it has blocks of vertices only if none was bound to
      GL_ARRAY_BUFFER, and then for exactly the attributes last enabled. */
  lemma DrawFollowsTheBindings(wsize: nat, ts: seq<Traced>, k: nat, a: int, e: int, i: nat, t: int)
    requires AllTraceable(wsize, INITIAL, ts) && k < |ts| && ts[k].call.DrawElements? && i < MAX_VERTEX_ATTRIBS
    requires LastCall(ts[..k], BindsTo(GL_ARRAY_BUFFER), a) && LastCall(ts[..k], BindsTo(GL_ELEMENT_ARRAY_BUFFER), e)
    requires LastCall(ts[..k], Toggles(i), t)
    ensures k < |AskedEvents(wsize, INITIAL, ts)| && AskedEvents(wsize, INITIAL, ts)[k].cmd.DrawElements?
    ensures var cmd := AskedEvents(wsize, INITIAL, ts)[k].cmd;
      && (cmd.indices.Offset? <==> e >= 0 && ts[e].call.buffer != 0)
      && (a >= 0 && ts[a].call.buffer != 0 ==> cmd.attribs == [])
      && (a < 0 || ts[a].call.buffer == 0 ==>
           (HasBlock(cmd.attribs, i) <==> t >= 0 && ts[t].call.EnableAttrib?))
  {
    hide AllTraceable, StateAfter, AskedEvents, Fetched, VertexCount, HasBlock, GlSizeof;
    PrefixTraceable(wsize, INITIAL, ts, k);
    var at, c := StateAfter(INITIAL, ts[..k], wsize), ts[k].call;
    BindingsAreLastBound(wsize, ts[..k], a, e);
    EnabledFrom(wsize, INITIAL, ts[..k], i, t);
    if at.arrayBuffer == 0 {
      FetchedNames(at.attribs, ts[k].mem, VertexCount(c.count), 0, i);
    }
  }
}
