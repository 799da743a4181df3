/** The interposer's entry points: each logs a record through `iolib` around the driver call and keeps the
    state that later records depend on. */
module Interposer {
  import opened Wire
  import opened Wrappers
  import opened IoLib
  import opened Gles

  class Interposer {
    const w: TraceWriter
    var arrayBufferBinding: int32
    var elementArrayBufferBinding: int32
    const vertexAttrib: array<VertexAttrib>

    ghost predicate Valid()
      reads this, w, w.window, vertexAttrib
    {
      w.Valid() && vertexAttrib.Length == MAX_VERTEX_ATTRIBS && vertexAttrib as object != w.window as object
    }

    ghost function State(): GlState
      reads this, vertexAttrib
    {
      GlState(arrayBufferBinding, elementArrayBufferBinding, vertexAttrib[..])
    }

    /** What reaches the log of some fields put inside a call. */
    ghost function Out(fs: seq<Field>): seq<Field>
      reads w`reentrance
    {
      if w.reentrance > 1 then [] else fs
    }

    constructor (wsize: nat)
      requires ValidWordSize(wsize)
      ensures Valid() && fresh(w) && fresh(w.window) && fresh(vertexAttrib)
      ensures State() == INITIAL && w.wsize == wsize && w.reentrance == 0 && w.curThread == 0
      ensures w.fields == Header(wsize)
    {
      w := new TraceWriter(wsize);
      arrayBufferBinding, elementArrayBufferBinding := 0, 0;
      vertexAttrib := new VertexAttrib[MAX_VERTEX_ATTRIBS](_ => NO_ATTRIB);
      new;
      assert vertexAttrib[..] == INITIAL.attribs;
    }

    method PutInts(args: seq<int32>)
      requires Valid()
      modifies w`file, w`window, w`curPtr, w`fileOffset, w`fields, w.window
      ensures Valid() && (w.window == old(w.window) || fresh(w.window))
      ensures w.fields == old(w.fields) + Out(Ints(args)) && State() == old(State())
    {
      hide TraceWriter.Valid, EncFields, FieldsOk;
      for i := 0 to |args|
        invariant Valid() && (w.window == old(w.window) || fresh(w.window))
        invariant w.fields == old(w.fields) + Out(Ints(args)[..i]) && State() == old(State())
      {
        w.PutInt(args[i]);
        assert Ints(args)[..i + 1] == Ints(args)[..i] + [Int(args[i])];
      }
    }

    method PutSource(source: Option<bytes>, len: int32)
      requires Valid() && SourceOk(source, len)
      modifies w`file, w`window, w`curPtr, w`fileOffset, w`fields, w.window
      ensures Valid() && (w.window == old(w.window) || fresh(w.window))
      ensures w.fields == old(w.fields) + Out(SourcePair(source, len)) && State() == old(State())
    {
      hide TraceWriter.Valid;
      w.PutInt(len);
      if len > 0 {
        w.PutBytes(source, len);
      } else {
        w.PutString(source);
      }
    }

    method PutSources(sources: seq<Option<bytes>>, lengths: Option<seq<int32>>)
      requires Valid() && SourcesOk(sources, lengths)
      modifies w`file, w`window, w`curPtr, w`fileOffset, w`fields, w.window
      ensures Valid() && (w.window == old(w.window) || fresh(w.window))
      ensures w.fields == old(w.fields) + Out(SourceFields(sources, lengths, 0)) && State() == old(State())
    {
      hide TraceWriter.Valid, SourceOk, SourcePair, LengthOf;
      Units(SourceFields(sources, lengths, 0));
      ghost var done: seq<Field> := [];
      for i := 0 to |sources|
        invariant Valid() && (w.window == old(w.window) || fresh(w.window))
        invariant w.fields == old(w.fields) + Out(done) && State() == old(State())
        invariant done + SourceFields(sources, lengths, i) == SourceFields(sources, lengths, 0)
      {
        var len: int32 := if lengths == None then 0 else lengths.value[i];
        LengthGiven(lengths, i);
        PutSource(sources[i], len);
        ghost var pair := SourcePair(sources[i], len);
        Assoc(done, pair, SourceFields(sources, lengths, i + 1));
        Assoc(old(w.fields), Out(done), Out(pair));
        done := done + pair;
      }
    }

    /** The inner loop of the repacking: n bytes of client memory from src on go to buf from dst on. */
    method CopyVertex(mem: Memory, src: nat, n: nat, buf: array<byte>, dst: nat)
      requires dst + n <= buf.Length
      modifies buf
      ensures buf[..dst + n] == old(buf[..dst]) + Slice(mem, src, n)
    {
      for k := 0 to n
        invariant buf[..dst] == old(buf[..dst]) && buf[dst..dst + k] == Slice(mem, src, n)[..k]
      {
        buf[dst + k] := mem(src + k);
      }
      assert buf[..dst + n] == buf[..dst] + buf[dst..dst + n];
    }

    /** Copies `count` vertices of one attribute into buf, leaving the gaps between them out. */
    method Repack(a: VertexAttrib, count: int, mem: Memory, buf: array<byte>) returns (dst: nat)
      requires GlSizeof(a.typ).Some? && ElemSize(a) * count <= buf.Length
      modifies buf
      ensures dst <= buf.Length && buf[..dst] == Packed(a, mem, Max(count, 0))
    {
      hide ElemSize;
      var src: int := a.pointer;
      var elemsz := ElemSize(a);
      dst := 0;
      var j := 0;
      while j < count
        invariant 0 <= j <= Max(count, 0) && dst <= buf.Length && dst == j * Max(elemsz, 0)
        invariant elemsz > 0 ==> src == a.pointer + j * (if a.stride > 0 then a.stride else elemsz)
        invariant buf[..dst] == Packed(a, mem, j)
      {
        if elemsz > 0 {
          RoomForOneMore(j, count, elemsz);
          CopyVertex(mem, src, elemsz, buf, dst);
          dst, src := dst + elemsz, src + elemsz;
        }
        if a.stride > 0 {
          src := src + a.stride - elemsz;
        }
        NextVertex(j, elemsz, a.stride);
        j := j + 1;
      }
    }

    /** The blocks of all enabled attributes, each repacked in a scratch buffer of the largest size needed. */
    method PutVertexAttribs(count: int32, mem: Memory)
      requires Valid() && AttribsOk(vertexAttrib[..], VertexCount(count))
      modifies w`file, w`window, w`curPtr, w`fileOffset, w`fields, w.window
      ensures Valid() && (w.window == old(w.window) || fresh(w.window)) && State() == old(State())
      ensures w.fields == old(w.fields) + Out(AttribFields(vertexAttrib[..], mem, VertexCount(count), 0))
    {
      hide TraceWriter.Valid, AttribBlock, Packed;
      var vertices := VertexCount(count);
      ghost var attribs := vertexAttrib[..];
      var maxsz := 0;
      for i := 0 to MAX_VERTEX_ATTRIBS
        invariant maxsz >= 0
        invariant forall k :: 0 <= k < i && attribs[k].enabled ==> ElemSize(attribs[k]) * vertices <= maxsz
      {
        if vertexAttrib[i].enabled {
          var sz := ElemSize(vertexAttrib[i]) * vertices;
          if maxsz < sz { maxsz := sz; }
        }
      }
      var buf := new byte[maxsz];
      ghost var done: seq<Field> := [];
      for i := 0 to MAX_VERTEX_ATTRIBS
        invariant Valid() && (w.window == old(w.window) || fresh(w.window))
        invariant vertexAttrib[..] == attribs && State() == old(State()) && fresh(buf) && w.window != buf
        invariant w.fields == old(w.fields) + Out(done)
        invariant done + AttribFields(attribs, mem, vertices, i) == AttribFields(attribs, mem, vertices, 0)
      {
        if vertexAttrib[i].enabled {
          ghost var block := AttribBlock(attribs[i], mem, vertices);
          var size := Repack(vertexAttrib[i], vertices, mem, buf);
          PutBlock(buf, size, attribs[i], mem, vertices);
          done := done + [block];
        }
      }
    }

    method PutBlock(buf: array<byte>, size: nat, ghost a: VertexAttrib, ghost mem: Memory, ghost vertices: int)
      requires Valid() && size <= buf.Length && GlSizeof(a.typ).Some? && IsInt32(ElemSize(a) * vertices)
      requires buf[..size] == Packed(a, mem, Max(vertices, 0))
      modifies w`file, w`window, w`curPtr, w`fileOffset, w`fields, w.window
      ensures Valid() && (w.window == old(w.window) || fresh(w.window))
      ensures w.fields == old(w.fields) + Out([AttribBlock(a, mem, vertices)]) && State() == old(State())
    {
      hide TraceWriter.Valid;
      var data := buf[..];
      assert data[..size] == buf[..size];
      assert size == AttribBlock(a, mem, vertices).size;
      assert BlobOf(Some(data), size) == AttribBlock(a, mem, vertices);
      w.PutBytes(Some(data), size);
    }

    /** `putPtr` or `putBytes` of the indices; false when the original exits on the index type. */
    method PutIndices(count: int32, typ: int32, indices: nat, mem: Memory) returns (ok: bool)
      requires Valid() && indices < Pow256(w.wsize) && SizesFit(State(), count, typ)
      modifies w`file, w`window, w`curPtr, w`fileOffset, w`fields, w.window
      ensures Valid() && (w.window == old(w.window) || fresh(w.window)) && State() == old(State())
      ensures ok <==> State().elementBuffer != 0 || GlSizeof(typ).Some?
      ensures w.fields == old(w.fields) + if ok then Out([IndexField(State(), mem, count, typ, indices)]) else []
    {
      hide TraceWriter.Valid;
      ok := true;
      if elementArrayBufferBinding != 0 {
        w.PutPtr(indices);
      } else if GlSizeof(typ) == None {
        ok := false;
      } else {
        var size: int32 := count * GlSizeof(typ).value;
        w.PutBytes(if indices == 0 then None else Some(Slice(mem, indices, Max(size, 0))), size);
      }
    }

    /** The first loop of `putVertexAttrib` calls `glSizeof` for each enabled attribute and may exit there. */
    method AttribTypesKnown() returns (ok: bool)
      requires Valid()
      ensures ok <==> forall a :: a in State().attribs && a.enabled ==> GlSizeof(a.typ).Some?
    {
      ok := true;
      for i := 0 to MAX_VERTEX_ATTRIBS
        invariant ok <==> forall k :: 0 <= k < i && vertexAttrib[k].enabled ==> GlSizeof(vertexAttrib[k].typ).Some?
      {
        if vertexAttrib[i].enabled && GlSizeof(vertexAttrib[i].typ) == None { ok := false; }
      }
    }

    method PutTriple(a: int32, b: int32, c: int32)
      requires Valid()
      modifies w`file, w`window, w`curPtr, w`fileOffset, w`fields, w.window
      ensures Valid() && (w.window == old(w.window) || fresh(w.window)) && State() == old(State())
      ensures w.fields == old(w.fields) + Out([Int(a), Int(b), Int(c)])
    {
      hide TraceWriter.Valid;
      w.PutInt(a);
      w.PutInt(b);
      w.PutInt(c);
    }

    method PutDraw(mode: int32, count: int32, typ: int32, indices: nat, mem: Memory) returns (ok: bool)
      requires Valid() && indices < Pow256(w.wsize) && SizesFit(State(), count, typ)
      modifies w`file, w`window, w`curPtr, w`fileOffset, w`fields, w.window
      ensures Valid() && (w.window == old(w.window) || fresh(w.window)) && State() == old(State())
      ensures ok <==> TypesKnown(State(), typ)
      ensures ok ==> var c := DrawElements(mode, count, typ, indices);
        Traceable(w.wsize, State(), c) && w.fields == old(w.fields) + Out(Payload(w.wsize, State(), c, mem))
      ensures !ok ==> old(w.fields) <= w.fields
    {
      hide TraceWriter.Valid, IndexField, AttribFields, GlSizeof;
      ghost var was, st := w.fields, State();
      ghost var c := DrawElements(mode, count, typ, indices);
      PutTriple(mode, count, typ);
      ok := PutIndices(count, typ, indices, mem);
      if !ok { return; }
      ghost var head, index := [Int(mode), Int(count), Int(typ)], [IndexField(st, mem, count, typ, indices)];
      Assoc(was, Out(head), Out(index));
      if arrayBufferBinding == 0 {
        ok := AttribTypesKnown();
        if !ok { return; }
        PutVertexAttribs(count, mem);
        ghost var blocks := AttribFields(st.attribs, mem, VertexCount(count), 0);
        Assoc(was, Out(head) + Out(index), Out(blocks));
        assert Payload(w.wsize, st, c, mem) == head + index + blocks;
      } else {
        assert Payload(w.wsize, st, c, mem) == head + index;
      }
    }

    method PutBufferData(target: int32, size: int32, data: Option<bytes>, usage: int32)
      requires Valid() && Readable(data, size)
      modifies w`file, w`window, w`curPtr, w`fileOffset, w`fields, w.window
      ensures Valid() && (w.window == old(w.window) || fresh(w.window)) && State() == old(State())
      ensures w.fields == old(w.fields) + Out([Int(target), Int(size), BlobOf(data, size), Int(usage)])
    {
      hide TraceWriter.Valid;
      w.PutInt(target);
      w.PutInt(size);
      w.PutBytes(data, size);
      w.PutInt(usage);
    }

    method PutBufferSubData(target: int32, offset: int32, size: int32, data: Option<bytes>)
      requires Valid() && Readable(data, size)
      modifies w`file, w`window, w`curPtr, w`fileOffset, w`fields, w.window
      ensures Valid() && (w.window == old(w.window) || fresh(w.window)) && State() == old(State())
      ensures w.fields == old(w.fields) + Out([Int(target), Int(offset), Int(size), BlobOf(data, size)])
    {
      hide TraceWriter.Valid;
      w.PutInt(target);
      w.PutInt(offset);
      w.PutInt(size);
      w.PutBytes(data, size);
    }

    method PutAttribPointer(i: int32, size: int32, typ: int32, normalized: int32, stride: int32, p: nat)
      requires Valid() && p < Pow256(w.wsize)
      modifies w`file, w`window, w`curPtr, w`fileOffset, w`fields, w.window
      ensures Valid() && (w.window == old(w.window) || fresh(w.window)) && State() == old(State())
      ensures w.fields == old(w.fields) + Out([Int(i), Int(size), Int(typ), Int(normalized), Int(stride), Ptr(p)])
    {
      hide TraceWriter.Valid;
      w.PutInt(i);
      w.PutInt(size);
      w.PutInt(typ);
      w.PutInt(normalized);
      w.PutInt(stride);
      w.PutPtr(p);
    }

    method PutShaderSource(shader: int32, n: int32, sources: seq<Option<bytes>>, lengths: Option<seq<int32>>)
      requires Valid() && SourcesOk(sources, lengths)
      modifies w`file, w`window, w`curPtr, w`fileOffset, w`fields, w.window
      ensures Valid() && (w.window == old(w.window) || fresh(w.window)) && State() == old(State())
      ensures w.fields == old(w.fields) + Out([Int(shader), Int(n)] + SourceFields(sources, lengths, 0))
    {
      hide TraceWriter.Valid;
      hide SourcesOk, SourceFields;
      w.PutInt(shader);
      w.PutInt(n);
      PutSources(sources, lengths);
    }

    method PutAttribLocation(program: int32, location: int32, name: Option<bytes>)
      requires Valid() && CString(name)
      modifies w`file, w`window, w`curPtr, w`fileOffset, w`fields, w.window
      ensures Valid() && (w.window == old(w.window) || fresh(w.window)) && State() == old(State())
      ensures w.fields == old(w.fields) + Out([Int(program), Int(location), Str(StrOf(name))])
    {
      hide TraceWriter.Valid;
      w.PutInt(program);
      w.PutInt(location);
      w.PutString(name);
    }

    method PutSwap(dpy: nat, surface: nat, res: int32)
      requires Valid() && dpy < Pow256(w.wsize) && surface < Pow256(w.wsize)
      modifies w`file, w`window, w`curPtr, w`fileOffset, w`fields, w.window
      ensures Valid() && (w.window == old(w.window) || fresh(w.window)) && State() == old(State())
      ensures w.fields == old(w.fields) + Out([Ptr(dpy), Ptr(surface), Int(res)])
    {
      hide TraceWriter.Valid;
      w.PutPtr(dpy);
      w.PutPtr(surface);
      w.PutInt(res);
    }

    method PutPair(a: int32, b: int32)
      requires Valid()
      modifies w`file, w`window, w`curPtr, w`fileOffset, w`fields, w.window
      ensures Valid() && (w.window == old(w.window) || fresh(w.window)) && State() == old(State())
      ensures w.fields == old(w.fields) + Out([Int(a), Int(b)])
    {
      hide TraceWriter.Valid;
      w.PutInt(a);
      w.PutInt(b);
    }

    method PutNames(n: int32, names: seq<int32>)
      requires Valid()
      modifies w`file, w`window, w`curPtr, w`fileOffset, w`fields, w.window
      ensures Valid() && (w.window == old(w.window) || fresh(w.window)) && State() == old(State())
      ensures w.fields == old(w.fields) + Out([Int(n)] + Ints(names))
    {
      hide TraceWriter.Valid, Ints;
      w.PutInt(n);
      PutInts(names);
      Assoc(old(w.fields), Out([Int(n)]), Out(Ints(names)));
      assert Out([Int(n)]) + Out(Ints(names)) == Out([Int(n)] + Ints(names));
    }

    method PutQuery(pname: int32, params: Option<int32>)
      requires Valid()
      modifies w`file, w`window, w`curPtr, w`fileOffset, w`fields, w.window
      ensures Valid() && (w.window == old(w.window) || fresh(w.window)) && State() == old(State())
      ensures w.fields == old(w.fields) + Out([Int(pname), OptInt(params)])
    {
      hide TraceWriter.Valid;
      w.PutInt(pname);
      w.PutIntPtr(params);
    }

    /** What a call puts between its opcode and its times. */
    method PutPayload(c: Call, mem: Memory) returns (ok: bool)
      requires Valid() && CallOk(w.wsize, c) && (c.DrawElements? ==> SizesFit(State(), c.count, c.typ))
      modifies w`file, w`window, w`curPtr, w`fileOffset, w`fields, w.window
      ensures Valid() && (w.window == old(w.window) || fresh(w.window)) && State() == old(State())
      ensures ok <==> Traceable(w.wsize, State(), c)
      ensures ok ==> w.fields == old(w.fields) + Out(Payload(w.wsize, State(), c, mem))
      ensures !ok ==> old(w.fields) <= w.fields
    {
      hide TraceWriter.Valid, SourceFields, SourcesOk, SizesFit, TypesKnown, WordCount, IsNameCall;
      hide Readable, Pow256, IndexField, AttribFields, VertexCount, Ints, BlobOf;
      ok := true;
      match c {
        case Words(_, args) => PutInts(args);
        case Names(_, n, names) => PutNames(n, names);
        case BindBuffer(target, buffer) => PutPair(target, buffer);
        case BufferData(target, size, data, usage) => PutBufferData(target, size, data, usage);
        case BufferSubData(target, offset, size, data) => PutBufferSubData(target, offset, size, data);
        case BindAttribLocation(program, location, name) => PutAttribLocation(program, location, name);
        case EnableAttrib(i) => w.PutInt(i);
        case DisableAttrib(i) => w.PutInt(i);
        case AttribPointer(i, size, typ, normalized, stride, p) => PutAttribPointer(i, size, typ, normalized, stride, p);
        case DrawElements(mode, count, typ, indices) => ok := PutDraw(mode, count, typ, indices, mem);
        case ShaderSource(shader, n, sources, lengths) => PutShaderSource(shader, n, sources, lengths);
        case GetIntegerv(pname, params) => PutQuery(pname, params);
        case SwapBuffers(dpy, surface, res) => PutSwap(dpy, surface, res);
        case Mark(text) => w.PutString(text);
      }
    }

    /** One intercepted call, at any nesting depth; the driver runs between payload and times.  False when
        the original exits, which leaves what was logged before in place. */
    method Intercept(t: Traced) returns (ok: bool)
      requires Valid() && CallOk(w.wsize, t.call) && t.thr < Pow256(w.wsize) && t.bgn < TWO_64 && t.end < TWO_64
      requires t.call.DrawElements? ==> SizesFit(State(), t.call.count, t.call.typ)
      modifies this, w, w.window, vertexAttrib
      ensures Valid() && (w.window == old(w.window) || fresh(w.window))
      ensures ok <==> Traceable(w.wsize, old(State()), t.call)
      ensures ok ==> State() == NextState(old(State()), t.call)
      ensures ok ==> w.reentrance == old(w.reentrance)
      ensures ok ==> w.curThread == if old(w.reentrance) == 0 then t.thr else old(w.curThread)
      ensures ok && old(w.reentrance) > 0 ==> w.fields == old(w.fields)
      ensures ok && old(w.reentrance) == 0 ==>
        w.fields == old(w.fields) + Record(w.wsize, old(w.curThread), old(State()), t)
      ensures !ok ==> old(w.fields) <= w.fields
    {
      hide TraceWriter.Valid, NextState, Payload, SizesFit, TypesKnown, WordCount, IsNameCall, SourcesOk;
      ghost var st := State();
      w.PutCmd(t.thr, Opcode(t.call));
      ok := PutPayload(t.call, t.mem);
      if !ok { return; }
      UpdateAttribs(t.call);
      w.PutTime(t.bgn, t.end);
      UpdateBindings(t.call);
    }

    /** The attribute table changes before the record is closed. */
    method UpdateAttribs(c: Call)
      requires Valid() && (c.EnableAttrib? || c.DisableAttrib? || c.AttribPointer? ==> c.index < MAX_VERTEX_ATTRIBS)
      modifies vertexAttrib
      ensures Valid() && arrayBufferBinding == old(arrayBufferBinding)
      ensures elementArrayBufferBinding == old(elementArrayBufferBinding)
      ensures !c.BindBuffer? ==> State() == NextState(old(State()), c)
      ensures c.BindBuffer? ==> State() == old(State())
      ensures c.EnableAttrib? || c.DisableAttrib? ==>
        vertexAttrib[c.index] == old(vertexAttrib[c.index]).(enabled := c.EnableAttrib?)
      ensures c.AttribPointer? ==> vertexAttrib[c.index].enabled == old(vertexAttrib[c.index].enabled)
      ensures c.AttribPointer? ==> var a := vertexAttrib[c.index];
        && a.size == c.asize && a.typ == c.typ && a.normalized == c.normalized && a.stride == c.stride
        && a.pointer == c.pointer
      ensures forall i | 0 <= i < MAX_VERTEX_ATTRIBS ::
        ((c.EnableAttrib? || c.DisableAttrib? || c.AttribPointer?) && i == c.index) || vertexAttrib[i] == old(vertexAttrib[i])
    {
      match c {
        case AttribPointer(i, size, typ, normalized, stride, p) =>
          vertexAttrib[i] := VertexAttrib(vertexAttrib[i].enabled, size, typ, normalized, stride, p);
        case EnableAttrib(i) => vertexAttrib[i] := vertexAttrib[i].(enabled := true);
        case DisableAttrib(i) => vertexAttrib[i] := vertexAttrib[i].(enabled := false);
        case _ =>
      }
    }

    /** The bindings change after it. */
    method UpdateBindings(c: Call)
      requires Valid()
      modifies this
      ensures Valid()
      ensures c.BindBuffer? ==> State() == NextState(old(State()), c)
      ensures !c.BindBuffer? ==> State() == old(State())
      ensures arrayBufferBinding ==
        if c.BindBuffer? && c.target == GL_ARRAY_BUFFER then c.buffer else old(arrayBufferBinding)
      ensures elementArrayBufferBinding ==
        if c.BindBuffer? && c.target == GL_ELEMENT_ARRAY_BUFFER then c.buffer else old(elementArrayBufferBinding)
    {
      if c.BindBuffer? {
        if c.target == GL_ARRAY_BUFFER {
          arrayBufferBinding := c.buffer;
        } else if c.target == GL_ELEMENT_ARRAY_BUFFER {
          elementArrayBufferBinding := c.buffer;
        }
      }
    }
  }

  lemma LengthGiven(lengths: Option<seq<int32>>, i: nat)
    requires lengths.Some? ==> i < |lengths.value|
    ensures LengthOf(lengths, i) == if lengths == None then 0 else lengths.value[i]
  {
  }

  lemma NextVertex(j: nat, n: int, stride: int)
    ensures (j + 1) * n == j * n + n && (j + 1) * stride == j * stride + stride
  {
  }

  lemma RoomForOneMore(j: nat, count: int, n: nat)
    requires j < count
    ensures j * n + n <= n * count
  {
    assert (j + 1) * n <= count * n;
  }
}
