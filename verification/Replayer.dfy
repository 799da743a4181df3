/** The decoder as `retrace.c` runs it: a cursor into the mapped log and the static copies of the state,
    changed field by field.  Each method does what the function of the same name in Retrace says. */
module Replayer {
  import opened Wire
  import opened Wrappers
  import opened Gles
  import opened IoLib
  import R = Retrace
  import Interposer
  import LockStep

  class Replayer {
    const file: bytes
    const wsize: nat
    var curPtr: nat
    var arrayBufferBinding: int32
    var elementArrayBufferBinding: int32
    const execFlag: bool
    const vertexAttrib: array<R.ReplayAttrib>
    var curThread: nat

    ghost predicate Valid() {
      ValidWordSize(wsize) && vertexAttrib.Length == MAX_VERTEX_ATTRIBS
    }

    ghost function State(): R.RState
      reads this, vertexAttrib
    {
      R.RState(execFlag, arrayBufferBinding, elementArrayBufferBinding, vertexAttrib[..], curThread)
    }

    constructor (file: bytes, wsize: nat, pos: nat, execFlag: bool)
      requires ValidWordSize(wsize)
      ensures Valid() && fresh(vertexAttrib) && State() == R.Start(execFlag)
      ensures this.file == file && this.wsize == wsize && curPtr == pos
    {
      this.file, this.wsize, curPtr, this.execFlag := file, wsize, pos, execFlag;
      arrayBufferBinding, elementArrayBufferBinding, curThread := 0, 0, 0;
      vertexAttrib := new R.ReplayAttrib[MAX_VERTEX_ATTRIBS](_ => R.NO_REPLAY_ATTRIB);
      new;
      assert vertexAttrib[..] == R.Start(execFlag).attribs;
    }

    method GetInt() returns (v: int32)
      modifies this`curPtr
      ensures (v, curPtr) == Wire.GetInt(file, old(curPtr))
    {
      if curPtr + 4 > |file| { return 0; }
      v := DecInt(file, curPtr);
      curPtr := curPtr + 4;
    }

    method GetCmd() returns (v: int32)
      modifies this`curPtr
      ensures (v, curPtr) == R.GetCmd(file, old(curPtr))
    {
      if curPtr + 4 > |file| { return R.OPC_EOF; }
      v := DecInt(file, curPtr);
      curPtr := curPtr + 4;
    }

    method GetIntPtr() returns (v: Option<int32>)
      modifies this`curPtr
      ensures (v, curPtr) == Wire.GetIntPtr(file, old(curPtr))
    {
      if curPtr + 4 > |file| { return None; }
      var first := DecInt(file, curPtr);
      curPtr := curPtr + 4;
      if first != MARKER { return Some(first); }
      if curPtr + 4 > |file| { return None; }
      var second := DecInt(file, curPtr);
      curPtr := curPtr + 4;
      v := if second == 0 then None else Some(second);
    }

    method GetLong() returns (v: nat)
      modifies this`curPtr
      ensures (v, curPtr) == Wire.GetLong(file, old(curPtr))
    {
      if curPtr + 8 > |file| { return 0; }
      v := FromLittleEndian(file[curPtr..curPtr + 8]);
      curPtr := curPtr + 8;
    }

    method GetPtr() returns (v: nat)
      modifies this`curPtr
      ensures (v, curPtr) == Wire.GetPtr(wsize, file, old(curPtr))
    {
      if curPtr + wsize > |file| { return 0; }
      v := Widen(wsize, FromLittleEndian(file[curPtr..curPtr + wsize]));
      curPtr := curPtr + wsize;
    }

    method GetString() returns (v: Option<bytes>)
      modifies this`curPtr
      ensures (v, curPtr) == Wire.GetString(file, old(curPtr))
    {
      if curPtr > |file| { return None; }
      var len := Strlen(file, curPtr) + 1;
      if curPtr + len > |file| { return None; }
      v := Some(file[curPtr..curPtr + len - 1]);
      len := len + 3;
      len := len - len % 4;
      curPtr := curPtr + len;
    }

    method GetBytes() returns (v: Option<bytes>)
      modifies this`curPtr
      ensures (v, curPtr) == Wire.GetBytes(file, old(curPtr))
    {
      if curPtr + 4 > |file| { return None; }
      var size: int := DecInt(file, curPtr);
      curPtr := curPtr + 4;
      if size <= 0 || curPtr + size > |file| { return None; }
      v := Some(file[curPtr..curPtr + size]);
      size := size + 3;
      size := size - size % 4;
      curPtr := curPtr + size;
    }

    method GetInts(n: int) returns (vs: seq<int32>)
      modifies this`curPtr
      ensures (vs, curPtr) == R.GetInts(file, old(curPtr), n)
    {
      hide Wire.GetInt;
      vs := [];
      Units(R.GetInts(file, curPtr, n).0);
      var i := 0;
      while i < n
        invariant 0 <= i <= Max(n, 0)
        invariant var (rest, p) := R.GetInts(file, curPtr, n - i);
          (vs + rest, p) == R.GetInts(file, old(curPtr), n)
      {
        ghost var before := vs;
        var v := GetInt();
        vs := vs + [v];
        Assoc(before, [v], R.GetInts(file, curPtr, n - i - 1).0);
        i := i + 1;
      }
      Units(vs);
    }

    method GetSources(n: int) returns (vs: seq<R.Source>)
      modifies this`curPtr
      ensures (vs, curPtr) == R.GetSources(file, old(curPtr), n)
    {
      hide Wire.GetInt, Wire.GetBytes, Wire.GetString;
      vs := [];
      Units(R.GetSources(file, curPtr, n).0);
      var i := 0;
      while i < n
        invariant 0 <= i <= Max(n, 0)
        invariant var (rest, p) := R.GetSources(file, curPtr, n - i);
          (vs + rest, p) == R.GetSources(file, old(curPtr), n)
      {
        ghost var before, from := vs, curPtr;
        var len := GetInt();
        var source: R.Source;
        if len > 0 {
          var b := GetBytes();
          source := R.Counted(len, b);
        } else {
          var b := GetString();
          source := R.Terminated(b);
        }
        assert (source, curPtr) == R.GetSource(file, from);
        vs := vs + [source];
        Assoc(before, [source], R.GetSources(file, curPtr, n - i - 1).0);
        i := i + 1;
      }
      Units(vs);
    }

    method GetAttribs() returns (vs: seq<(nat, Option<bytes>)>)
      requires Valid()
      modifies this`curPtr
      ensures (vs, curPtr) == R.GetAttribs(file, old(curPtr), vertexAttrib[..], 0)
    {
      hide Wire.GetBytes;
      vs := [];
      Units(R.GetAttribs(file, curPtr, vertexAttrib[..], 0).0);
      for i := 0 to MAX_VERTEX_ATTRIBS
        invariant var (rest, p) := R.GetAttribs(file, curPtr, vertexAttrib[..], i);
          (vs + rest, p) == R.GetAttribs(file, old(curPtr), vertexAttrib[..], 0)
      {
        if vertexAttrib[i].enabled {
          ghost var before := vs;
          var b := GetBytes();
          vs := vs + [(i, b)];
          Assoc(before, [(i, b)], R.GetAttribs(file, curPtr, vertexAttrib[..], i + 1).0);
        }
      }
      Units(vs);
    }

    method GetDraw() returns (c: R.Command)
      requires Valid()
      modifies this`curPtr
      ensures (c, curPtr) == R.GetDraw(wsize, State(), file, old(curPtr))
    {
      hide Wire.GetInt, Wire.GetBytes, Wire.GetPtr, R.GetAttribs;
      var mode := GetInt();
      var count := GetInt();
      var typ := GetInt();
      var indices: R.Indices;
      if elementArrayBufferBinding != 0 {
        var p := GetPtr();
        indices := R.Offset(p);
      } else {
        var b := GetBytes();
        indices := R.Client(b);
      }
      var attribs: seq<(nat, Option<bytes>)> := [];
      if arrayBufferBinding == 0 {
        attribs := GetAttribs();
      }
      c := R.Command.DrawElements(mode, count, typ, indices, attribs);
    }

    method GetAttribPointer() returns (c: R.Command)
      modifies this`curPtr
      ensures (c, curPtr) == R.GetAttribPointer(wsize, file, old(curPtr))
    {
      hide Wire.GetInt, Wire.GetPtr;
      var index := GetInt();
      var size := GetInt();
      var typ := GetInt();
      var normalized := GetInt();
      var stride := GetInt();
      var pointer := GetPtr();
      c := R.Command.AttribPointer(index, size, typ, normalized % 256, stride, pointer);
    }

    method GetBufferCommand(op: int32) returns (c: R.Command)
      requires op == OPC_glBufferData || op == OPC_glBufferSubData
      modifies this`curPtr
      ensures (c, curPtr) ==
        if op == OPC_glBufferData then R.GetBufferData(file, old(curPtr)) else R.GetBufferSubData(file, old(curPtr))
    {
      hide Wire.GetInt, Wire.GetBytes;
      if op == OPC_glBufferData {
        var target := GetInt();
        var size := GetInt();
        var data := GetBytes();
        var usage := GetInt();
        c := R.Command.BufferData(target, size, data, usage);
      } else {
        var target := GetInt();
        var offset := GetInt();
        var size := GetInt();
        var data := GetBytes();
        c := R.Command.BufferSubData(target, offset, size, data);
      }
    }

    method GetOther(op: int32) returns (c: R.Command)
      requires op in {OPC_glBindBuffer, OPC_glBindAttribLocation, OPC_glShaderSource, OPC_glGetIntegerv, OPC_eglSwapBuffers}
      modifies this`curPtr
      ensures (c, curPtr) ==
        if op == OPC_glBindBuffer then R.GetBindBuffer(file, old(curPtr))
        else if op == OPC_glBindAttribLocation then R.GetAttribLocation(file, old(curPtr))
        else if op == OPC_glShaderSource then R.GetShaderSource(file, old(curPtr))
        else if op == OPC_glGetIntegerv then R.GetIntegerQuery(file, old(curPtr))
        else R.GetSwap(wsize, file, old(curPtr))
    {
      hide Wire.GetInt, Wire.GetString, Wire.GetPtr, Wire.GetIntPtr, R.GetSources;
      if op == OPC_glBindBuffer {
        var target := GetInt();
        var buffer := GetInt();
        c := R.Command.BindBuffer(target, buffer);
      } else if op == OPC_glBindAttribLocation {
        var program := GetInt();
        var location := GetInt();
        var name := GetString();
        c := R.Command.BindAttribLocation(program, location, name);
      } else if op == OPC_glShaderSource {
        var shader := GetInt();
        var n := GetInt();
        var sources := GetSources(n);
        c := R.Command.ShaderSource(shader, n, sources);
      } else if op == OPC_glGetIntegerv {
        var pname := GetInt();
        var params := GetIntPtr();
        c := R.Command.GetIntegerv(pname, params);
      } else {
        var dpy := GetPtr();
        var surface := GetPtr();
        var res := GetInt();
        c := R.Command.SwapBuffers(dpy, surface, res);
      }
    }

    /** The switch of `process`. */
    method GetCommand(op: int32) returns (c: Option<R.Command>)
      requires Valid()
      modifies this`curPtr
      ensures match R.GetCommand(wsize, State(), op, file, old(curPtr))
        case None => c == None && curPtr == old(curPtr)
        case Some((d, p)) => c == Some(d) && curPtr == p
    {
      hide Wire.GetInt, Wire.GetString, R.GetInts, R.GetDraw, R.GetAttribPointer, R.GetBufferData, R.GetBufferSubData;
      hide R.GetBindBuffer, R.GetAttribLocation, R.GetShaderSource, R.GetIntegerQuery, R.GetSwap;
      var words := WordCount(op);
      if words.Some? {
        hide WordCount;
        var args := GetInts(words.value);
        c := Some(R.Command.Words(op, args));
      } else if IsNameCall(op) {
        var n := GetInt();
        var names := GetInts(n);
        c := Some(R.Command.Names(op, n, names));
      } else if op == OPC_glBufferData || op == OPC_glBufferSubData {
        var d := GetBufferCommand(op);
        c := Some(d);
      } else if op == OPC_glEnableVertexAttribArray {
        var i := GetInt();
        c := Some(R.Command.EnableAttrib(i));
      } else if op == OPC_glDisableVertexAttribArray {
        var i := GetInt();
        c := Some(R.Command.DisableAttrib(i));
      } else if op == OPC_glVertexAttribPointer {
        var d := GetAttribPointer();
        c := Some(d);
      } else if op == OPC_glDrawElements {
        var d := GetDraw();
        c := Some(d);
      } else if op in {OPC_glBindBuffer, OPC_glBindAttribLocation, OPC_glShaderSource, OPC_glGetIntegerv, OPC_eglSwapBuffers} {
        var d := GetOther(op);
        c := Some(d);
      } else if op == OPC_MARK {
        var text := GetString();
        c := Some(R.Command.Mark(text));
      } else {
        c := None;
      }
    }

    method Apply(c: R.Command)
      requires Valid() && R.InTable(execFlag, c)
      modifies this`arrayBufferBinding, this`elementArrayBufferBinding, vertexAttrib
      ensures State() == R.Apply(old(State()), c)
      ensures arrayBufferBinding ==
        if c.BindBuffer? && c.target == GL_ARRAY_BUFFER then c.buffer else old(arrayBufferBinding)
      ensures elementArrayBufferBinding ==
        if c.BindBuffer? && c.target == GL_ELEMENT_ARRAY_BUFFER then c.buffer else old(elementArrayBufferBinding)
      ensures c.EnableAttrib? || c.DisableAttrib? ==>
        vertexAttrib[c.index] == old(vertexAttrib[c.index]).(enabled := c.EnableAttrib?)
      ensures execFlag && c.AttribPointer? ==> var a := vertexAttrib[c.aindex];
        && a.enabled == old(vertexAttrib[c.aindex].enabled)
        && a.size == c.asize && a.typ == c.typ && a.normalized == c.normalized
      ensures forall i | 0 <= i < MAX_VERTEX_ATTRIBS ::
        || ((c.EnableAttrib? || c.DisableAttrib?) && i == c.index)
        || (execFlag && c.AttribPointer? && i == c.aindex)
        || vertexAttrib[i] == old(vertexAttrib[i])
    {
      match c {
        case BindBuffer(target, buffer) =>
          if target == GL_ARRAY_BUFFER {
            arrayBufferBinding := buffer;
          } else if target == GL_ELEMENT_ARRAY_BUFFER {
            elementArrayBufferBinding := buffer;
          }
        case EnableAttrib(i) => vertexAttrib[i] := vertexAttrib[i].(enabled := true);
        case DisableAttrib(i) => vertexAttrib[i] := vertexAttrib[i].(enabled := false);
        case AttribPointer(i, size, typ, normalized, _, _) =>
          if execFlag {
            vertexAttrib[i] := R.ReplayAttrib(vertexAttrib[i].enabled, size, typ, normalized);
          }
        case _ =>
      }
    }

    /** `process`. */
    method Process(frames: int) returns (events: seq<R.Event>)
      requires Valid()
      modifies this, vertexAttrib
      ensures (events, State(), curPtr) == R.Process(wsize, old(State()), file, old(curPtr), frames)
    {
      hide R.GetRecord, R.Apply;
      var left := frames;
      events := [];
      Units(R.Process(wsize, State(), file, curPtr, frames).0);
      while left != 0
        invariant var (rest, rs, p) := R.Process(wsize, State(), file, curPtr, left);
          (events + rest, rs, p) == R.Process(wsize, old(State()), file, old(curPtr), frames)
        decreases |file| - curPtr
      {
        ghost var rs0, pos0, before := State(), curPtr, events;
        var e := Turn();
        if e == None {
          Units(events);
          return;
        }
        events := events + [e.value];
        if e.value.cmd.SwapBuffers? { left := left - 1; }
        Assoc(before, [e.value], R.Process(wsize, State(), file, curPtr, left).0);
      }
      Units(events);
    }

    /** One turn of the loop. */
    method Turn() returns (e: Option<R.Event>)
      requires Valid()
      modifies this, vertexAttrib
      ensures match R.GetRecord(wsize, old(State()), file, old(curPtr))
        case Stop(rs, p) => e == None && State() == rs && curPtr == p
        case Next(rs, ev, p) => e == Some(ev) && State() == rs && curPtr == p
    {
      hide R.GetCommand, R.Apply, Wire.GetLong, Wire.GetPtr, R.GetCmd;
      var cmd := GetCmd();
      if cmd == OPC_THREAD {
        curThread := GetPtr();
        cmd := GetCmd();
      }
      var c := GetCommand(cmd);
      if c == None || !R.InTable(execFlag, c.value) { return None; }
      Apply(c.value);
      var bgn := GetLong();
      var end := GetLong();
      e := Some(R.Event(curThread, c.value, bgn, end));
    }
  }

  /** Both programs end to end: trace a sequence of calls, then replay the log it leaves. */
  method RecordAndReplay(wsize: nat, ts: seq<Traced>, execFlag: bool) returns (events: seq<R.Event>)
    requires ValidWordSize(wsize) && LockStep.AllTraceable(wsize, INITIAL, ts)
    ensures events == LockStep.AskedEvents(wsize, INITIAL, ts)
  {
    var log := RecordAll(wsize, ts);
    LockStep.LogReplays(wsize, log, ts, execFlag);
    var start := R.OpenLog(log);
    var player := new Replayer(log, start.value.0, start.value.1, execFlag);
    events := player.Process(-1);
  }

  method RecordAll(wsize: nat, ts: seq<Traced>) returns (log: bytes)
    requires ValidWordSize(wsize) && LockStep.AllTraceable(wsize, INITIAL, ts)
    ensures log == EncFields(wsize, Header(wsize) + LockStep.LogOf(wsize, 0, INITIAL, ts))
  {
    hide TraceWriter.Valid, EncFields, Record, NextState, TypesKnown, SizesFit;
    var tracer := new Interposer.Interposer(wsize);
    ghost var full := Header(wsize) + LockStep.LogOf(wsize, 0, INITIAL, ts);
    for i := 0 to |ts|
      invariant tracer.Valid() && tracer.w.wsize == wsize && tracer.w.reentrance == 0
      invariant fresh(tracer) && fresh(tracer.w) && fresh(tracer.w.window) && fresh(tracer.vertexAttrib)
      invariant LockStep.AllTraceable(wsize, tracer.State(), ts[i..])
      invariant tracer.w.fields + LockStep.LogOf(wsize, tracer.w.curThread, tracer.State(), ts[i..]) == full
    {
      assert ts[i..][0] == ts[i] && ts[i..][1..] == ts[i + 1..];
      ghost var before, cur, st := tracer.w.fields, tracer.w.curThread, tracer.State();
      var ok := tracer.Intercept(ts[i]);
      Assoc(before, Record(wsize, cur, st, ts[i]), LockStep.LogOf(wsize, ts[i].thr, NextState(st, ts[i].call), ts[i + 1..]));
    }
    assert ts[|ts|..] == [];
    Units(tracer.w.fields);
    log := tracer.w.Fini();
  }
}
