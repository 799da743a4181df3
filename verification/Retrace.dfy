/** The replaying half: how `retrace.c` decodes the log with its own copies of the state that shapes it, as
    functions of the file, the state and the position. */
module Retrace {
  import opened Wire
  import opened Wrappers
  import opened IoLib
  import opened Gles

  const OPC_EOF: int32 := -1

  datatype Indices = Offset(p: nat) | Client(data: Option<bytes>)

  /** How a shader source is handed to the driver: with its length, or up to its NUL. */
  datatype Source = Counted(len: int32, counted: Option<bytes>) | Terminated(text: Option<bytes>)

  /** A decoded command, as it is passed to the driver or printed. */
  datatype Command =
    | Words(op: int32, args: seq<int32>)
    | Names(nop: int32, n: int32, names: seq<int32>)
    | BindBuffer(target: int32, buffer: int32)
    | BufferData(target: int32, size: int32, data: Option<bytes>, usage: int32)
    | BufferSubData(target: int32, offset: int32, size: int32, data: Option<bytes>)
    | BindAttribLocation(program: int32, location: int32, name: Option<bytes>)
    | EnableAttrib(index: int32)
    | DisableAttrib(index: int32)
    | AttribPointer(aindex: int32, asize: int32, typ: int32, normalized: byte, stride: int32, pointer: nat)
    | DrawElements(mode: int32, count: int32, typ: int32, indices: Indices, attribs: seq<(nat, Option<bytes>)>)
    | ShaderSource(shader: int32, nsources: int32, sources: seq<Source>)
    | GetIntegerv(pname: int32, params: Option<int32>)
    | SwapBuffers(dpy: nat, surface: nat, res: int32)
    | Mark(text: Option<bytes>)

  datatype Event = Event(thread: nat, cmd: Command, bgn: nat, end: nat)

  /** What the decoder keeps of an attribute, to point the driver at the repacked vertices. */
  datatype ReplayAttrib = ReplayAttrib(enabled: bool, size: int32, typ: int32, normalized: byte)

  /** The decoder's copies of the state, and the thread it last read; `exec` is execFlag, without which
      commands are only printed. */
  datatype RState = RState(
    exec: bool, arrayBuffer: int32, elementBuffer: int32, attribs: seq<ReplayAttrib>, thread: nat)
  {
    ghost predicate Valid() { |attribs| == MAX_VERTEX_ATTRIBS }
  }

  const NO_REPLAY_ATTRIB := ReplayAttrib(false, 0, 0, 0)

  function Start(exec: bool): RState {
    RState(exec, 0, 0, seq(MAX_VERTEX_ATTRIBS, _ => NO_REPLAY_ATTRIB), 0)
  }

  // ---------------------------------------------------------------- decoding, as functions

  function GetInts(s: bytes, pos: nat, n: int): (r: (seq<int32>, nat))
    ensures pos <= r.1 && |r.0| == Max(n, 0)
    decreases Max(n, 0)
  {
    if n <= 0 then ([], pos) else
      var (v, p) := GetInt(s, pos);
      var (vs, q) := GetInts(s, p, n - 1);
      ([v] + vs, q)
  }

  function GetSource(s: bytes, pos: nat): (r: (Source, nat))
    ensures pos <= r.1
  {
    var (len, p) := GetInt(s, pos);
    if len > 0 then var (b, q) := GetBytes(s, p); (Counted(len, b), q)
    else var (b, q) := GetString(s, p); (Terminated(b), q)
  }

  function GetSources(s: bytes, pos: nat, n: int): (r: (seq<Source>, nat))
    ensures pos <= r.1
    decreases Max(n, 0)
  {
    if n <= 0 then ([], pos) else
      var (v, p) := GetSource(s, pos);
      var (vs, q) := GetSources(s, p, n - 1);
      ([v] + vs, q)
  }

  function GetAttribs(s: bytes, pos: nat, attribs: seq<ReplayAttrib>, i: nat): (r: (seq<(nat, Option<bytes>)>, nat))
    requires i <= |attribs|
    ensures pos <= r.1
    decreases |attribs| - i
  {
    if i == |attribs| then ([], pos)
    else if !attribs[i].enabled then GetAttribs(s, pos, attribs, i + 1)
    else
      var (b, p) := GetBytes(s, pos);
      var (bs, q) := GetAttribs(s, p, attribs, i + 1);
      ([(i, b)] + bs, q)
  }

  function GetDraw(wsize: nat, rs: RState, s: bytes, pos: nat): (r: (Command, nat))
    ensures pos <= r.1
  {
    var (mode, p1) := GetInt(s, pos);
    var (count, p2) := GetInt(s, p1);
    var (typ, p3) := GetInt(s, p2);
    var (indices, p4) :=
      if rs.elementBuffer != 0 then var (p, q) := GetPtr(wsize, s, p3); (Offset(p), q)
      else var (b, q) := GetBytes(s, p3); (Client(b), q);
    var (attribs, p5) := if rs.arrayBuffer == 0 then GetAttribs(s, p4, rs.attribs, 0) else ([], p4);
    (Command.DrawElements(mode, count, typ, indices, attribs), p5)
  }

  function GetAttribPointer(wsize: nat, s: bytes, pos: nat): (r: (Command, nat))
    ensures pos <= r.1
  {
    var (index, p1) := GetInt(s, pos);
    var (size, p2) := GetInt(s, p1);
    var (typ, p3) := GetInt(s, p2);
    var (normalized, p4) := GetInt(s, p3);
    var (stride, p5) := GetInt(s, p4);
    var (pointer, p6) := GetPtr(wsize, s, p5);
    (Command.AttribPointer(index, size, typ, normalized % 256, stride, pointer), p6)
  }

  function GetWords(op: int32, n: nat, s: bytes, pos: nat): (r: (Command, nat))
    ensures pos <= r.1
  {
    var (args, p) := GetInts(s, pos, n);
    (Command.Words(op, args), p)
  }

  function GetNames(op: int32, s: bytes, pos: nat): (r: (Command, nat))
    ensures pos <= r.1
  {
    var (n, p1) := GetInt(s, pos);
    var (names, p2) := GetInts(s, p1, n);
    (Command.Names(op, n, names), p2)
  }

  function GetBindBuffer(s: bytes, pos: nat): (r: (Command, nat))
    ensures pos <= r.1
  {
    var (target, p1) := GetInt(s, pos);
    var (buffer, p2) := GetInt(s, p1);
    (Command.BindBuffer(target, buffer), p2)
  }

  function GetBufferData(s: bytes, pos: nat): (r: (Command, nat))
    ensures pos <= r.1
  {
    var (target, p1) := GetInt(s, pos);
    var (size, p2) := GetInt(s, p1);
    var (data, p3) := GetBytes(s, p2);
    var (usage, p4) := GetInt(s, p3);
    (Command.BufferData(target, size, data, usage), p4)
  }

  function GetBufferSubData(s: bytes, pos: nat): (r: (Command, nat))
    ensures pos <= r.1
  {
    var (target, p1) := GetInt(s, pos);
    var (offset, p2) := GetInt(s, p1);
    var (size, p3) := GetInt(s, p2);
    var (data, p4) := GetBytes(s, p3);
    (Command.BufferSubData(target, offset, size, data), p4)
  }

  function GetAttribLocation(s: bytes, pos: nat): (r: (Command, nat))
    ensures pos <= r.1
  {
    var (program, p1) := GetInt(s, pos);
    var (location, p2) := GetInt(s, p1);
    var (name, p3) := GetString(s, p2);
    (Command.BindAttribLocation(program, location, name), p3)
  }

  function GetShaderSource(s: bytes, pos: nat): (r: (Command, nat))
    ensures pos <= r.1
  {
    var (shader, p1) := GetInt(s, pos);
    var (n, p2) := GetInt(s, p1);
    var (sources, p3) := GetSources(s, p2, n);
    (Command.ShaderSource(shader, n, sources), p3)
  }

  function GetIntegerQuery(s: bytes, pos: nat): (r: (Command, nat))
    ensures pos <= r.1
  {
    var (pname, p1) := GetInt(s, pos);
    var (params, p2) := GetIntPtr(s, p1);
    (Command.GetIntegerv(pname, params), p2)
  }

  function GetSwap(wsize: nat, s: bytes, pos: nat): (r: (Command, nat))
    ensures pos <= r.1
  {
    var (dpy, p1) := GetPtr(wsize, s, pos);
    var (surface, p2) := GetPtr(wsize, s, p1);
    var (res, p3) := GetInt(s, p2);
    (Command.SwapBuffers(dpy, surface, res), p3)
  }

  /** None where `process` returns: at the end of the file and on an opcode it does not know. */
  function GetCommand(wsize: nat, rs: RState, op: int32, s: bytes, pos: nat): (r: Option<(Command, nat)>)
    ensures r.Some? ==> pos <= r.value.1
  {
    if WordCount(op).Some? then Some(GetWords(op, WordCount(op).value, s, pos))
    else if IsNameCall(op) then Some(GetNames(op, s, pos))
    else if op == OPC_glBindBuffer then Some(GetBindBuffer(s, pos))
    else if op == OPC_glBufferData then Some(GetBufferData(s, pos))
    else if op == OPC_glBufferSubData then Some(GetBufferSubData(s, pos))
    else if op == OPC_glBindAttribLocation then Some(GetAttribLocation(s, pos))
    else if op == OPC_glEnableVertexAttribArray then
      var (i, p) := GetInt(s, pos); Some((Command.EnableAttrib(i), p))
    else if op == OPC_glDisableVertexAttribArray then
      var (i, p) := GetInt(s, pos); Some((Command.DisableAttrib(i), p))
    else if op == OPC_glVertexAttribPointer then Some(GetAttribPointer(wsize, s, pos))
    else if op == OPC_glDrawElements then Some(GetDraw(wsize, rs, s, pos))
    else if op == OPC_glShaderSource then Some(GetShaderSource(s, pos))
    else if op == OPC_glGetIntegerv then Some(GetIntegerQuery(s, pos))
    else if op == OPC_eglSwapBuffers then Some(GetSwap(wsize, s, pos))
    else if op == OPC_MARK then
      var (text, p) := GetString(s, pos);
      Some((Command.Mark(text), p))
    else None
  }

  /** An index outside the attribute table is a stray write in the original; the model stops there. */
  predicate InTable(exec: bool, c: Command) {
    && (c.EnableAttrib? || c.DisableAttrib? ==> 0 <= c.index < MAX_VERTEX_ATTRIBS)
    && (exec && c.AttribPointer? ==> 0 <= c.aindex < MAX_VERTEX_ATTRIBS)
  }

  function Apply(rs: RState, c: Command): (rs': RState)
    requires rs.Valid() && InTable(rs.exec, c)
    ensures rs'.Valid() && rs'.thread == rs.thread && rs'.exec == rs.exec
  {
    match c
    case BindBuffer(target, buffer) =>
      if target == GL_ARRAY_BUFFER then rs.(arrayBuffer := buffer)
      else if target == GL_ELEMENT_ARRAY_BUFFER then rs.(elementBuffer := buffer)
      else rs
    case EnableAttrib(i) => rs.(attribs := rs.attribs[i := rs.attribs[i].(enabled := true)])
    case DisableAttrib(i) => rs.(attribs := rs.attribs[i := rs.attribs[i].(enabled := false)])
    case AttribPointer(i, size, typ, normalized, _, _) =>
      if rs.exec
      then rs.(attribs := rs.attribs[i := ReplayAttrib(rs.attribs[i].enabled, size, typ, normalized)])
      else rs
    case _ => rs
  }

  /** `getCmd`: like `getInt`, but the end of the file reads as OPC_EOF. */
  function GetCmd(s: bytes, pos: nat): (r: (int32, nat))
    ensures pos <= r.1 && (r.0 != OPC_EOF ==> pos + 4 <= |s| && r.1 == pos + 4)
  {
    if pos + 4 > |s| then (OPC_EOF, pos) else (DecInt(s, pos), pos + 4)
  }

  /** The opcode of the next record, after the thread prefix if there is one. */
  function GetOpening(wsize: nat, s: bytes, pos: nat, thread: nat): (r: (nat, int32, nat))
    ensures pos <= r.2 && (r.1 != OPC_EOF ==> pos + 4 <= |s| && pos + 4 <= r.2)
  {
    var (first, p) := GetCmd(s, pos);
    if first == OPC_THREAD then
      var (t, q) := GetPtr(wsize, s, p);
      var (op, z) := GetCmd(s, q);
      (t, op, z)
    else (thread, first, p)
  }

  datatype Outcome = Stop(srs: RState, spos: nat) | Next(rs: RState, event: Event, pos: nat)

  lemma NoEofCommand(wsize: nat, rs: RState, s: bytes, pos: nat)
    ensures GetCommand(wsize, rs, OPC_EOF, s, pos) == None
  {
  }

  /** One turn of the loop of `process`. */
  function GetRecord(wsize: nat, rs: RState, s: bytes, pos: nat): (r: Outcome)
    requires rs.Valid()
    ensures r.Next? ==> r.rs.Valid() && pos + 4 <= |s| && pos < r.pos
    ensures r.Stop? ==> r.srs.Valid()
  {
    var (thread, op, p) := GetOpening(wsize, s, pos, rs.thread);
    NoEofCommand(wsize, rs.(thread := thread), s, p);
    match GetCommand(wsize, rs.(thread := thread), op, s, p)
    case None => Stop(rs.(thread := thread), p)
    case Some((c, q)) =>
      if !InTable(rs.exec, c) then Stop(rs.(thread := thread), q) else
      var (bgn, q1) := GetLong(s, q);
      var (end, q2) := GetLong(s, q1);
      Next(Apply(rs.(thread := thread), c), Event(thread, c, bgn, end), q2)
  }

  /** `process(frames)`: decodes until the given number of frames has been swapped, or, when it is
      negative, until the log ends. */
  function Process(wsize: nat, rs: RState, s: bytes, pos: nat, frames: int): (r: (seq<Event>, RState, nat))
    requires rs.Valid()
    ensures r.1.Valid()
    decreases |s| - pos
  {
    if frames == 0 then ([], rs, pos) else
    match GetRecord(wsize, rs, s, pos)
    case Stop(rs', p) => ([], rs', p)
    case Next(rs', e, p) =>
      var (es, rs'', q) := Process(wsize, rs', s, p, if e.cmd.SwapBuffers? then frames - 1 else frames);
      ([e] + es, rs'', q)
  }

  function Frames(es: seq<Event>): nat {
    if es == [] then 0 else (if es[0].cmd.SwapBuffers? then 1 else 0) + Frames(es[1..])
  }

  /** Replaying m frames and then the rest is the same as replaying in one go: interactive stepping shows
      what continuous replay shows. */
  lemma {:induction false} ProcessInSteps(wsize: nat, rs: RState, s: bytes, pos: nat, m: nat, f: int)
    requires rs.Valid() && (f >= m || f < 0)
    ensures var (es1, rs1, p1) := Process(wsize, rs, s, pos, m);
      Frames(es1) == m ==>
        var (es2, rs2, p2) := Process(wsize, rs1, s, p1, f - m);
        Process(wsize, rs, s, pos, f) == (es1 + es2, rs2, p2)
    decreases |s| - pos
  {
    hide GetRecord;
    if m > 0 {
      var r := GetRecord(wsize, rs, s, pos);
      if r.Next? {
        var d := if r.event.cmd.SwapBuffers? then 1 else 0;
        var (es1, rs1, p1) := Process(wsize, r.rs, s, r.pos, m - d);
        assert ([r.event] + es1)[1..] == es1;
        ProcessInSteps(wsize, r.rs, s, r.pos, m - d, f - d);
        var es2 := Process(wsize, rs1, s, p1, f - m).0;
        assert ([r.event] + es1) + es2 == [r.event] + (es1 + es2);
      }
    } else {
      var es2 := Process(wsize, rs, s, pos, f).0;
      assert [] + es2 == es2;
    }
  }

  /** The reader's half of `iolib_init`: None when the file is not a trace, and for a word size no writer
      produces; otherwise the word size and the position of the first record. */
  function OpenLog(s: bytes): (r: Option<(nat, nat)>)
    ensures r.Some? ==> ValidWordSize(r.value.0)
  {
    var (version, p1) := GetInt(s, 0);
    var (_, p2) := GetInt(s, p1);
    var (_, p3) := GetInt(s, p2);
    var (_, p4) := GetInt(s, p3);
    var (wsize, p5) := GetInt(s, p4);
    if version == OPC_VERSION && (wsize == 4 || wsize == 8) then Some((wsize, p5)) else None
  }
}
