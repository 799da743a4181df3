/** The recorded GL calls: what `gles.c` (and `egl.c`, `agent.c`) put into the log for a call, and what the
    call asks of the driver.  The layout of a draw record depends on state the tracer keeps for itself. */
module Gles {
  import opened Wire
  import opened Wrappers
  import opened IoLib

  const MAX_VERTEX_ATTRIBS: nat := 128

  const GL_ARRAY_BUFFER: int32 := 0x8892
  const GL_ELEMENT_ARRAY_BUFFER: int32 := 0x8893

  // ---------------------------------------------------------------- opcodes

  const OPC_START: int32 := 100
  const OPC_glBindAttribLocation: int32 := OPC_START + 2
  const OPC_glBindBuffer: int32 := OPC_START + 3
  const OPC_glBufferData: int32 := OPC_START + 12
  const OPC_glBufferSubData: int32 := OPC_START + 13
  const OPC_glDisableVertexAttribArray: int32 := OPC_START + 39
  const OPC_glDrawElements: int32 := OPC_START + 41
  const OPC_glEnableVertexAttribArray: int32 := OPC_START + 43
  const OPC_glGetIntegerv: int32 := OPC_START + 63
  const OPC_glShaderSource: int32 := OPC_START + 98
  const OPC_glVertexAttribPointer: int32 := OPC_START + 140
  const OPC_eglSwapBuffers: int32 := 730

  /** Calls whose record is a fixed number of words (a result counts as one, a float as its bits). */
  function WordCount(op: int32): Option<nat> {
    if op in {144, 145} then Some(0)
    else if op in {100, 108, 115, 117, 118, 120, 125, 127, 130, 132, 134, 138, 142, 148, 150, 160,
               189, 230, 231} then Some(1)
    else if op in {101, 104, 105, 106, 109, 110, 114, 126, 136, 137, 190, 191, 211, 213} then Some(2)
    else if op in {140, 208, 215} then Some(3)
    else if op in {111, 116, 146, 194, 196, 219, 241} then Some(4)
    else if op in {147, 223} then Some(5)
    else if op in {123, 124} then Some(8)
    else None
  }

  /** glGen* and glDelete*: a count and that many object names. */
  predicate IsNameCall(op: int32) { op in {128, 129, 131, 133, 149, 151, 152, 153} }

  // ---------------------------------------------------------------- tracer state

  /** Client memory at the time of a call. */
  type Memory = nat -> byte

  function Slice(mem: Memory, p: nat, n: nat): (s: bytes)
    ensures |s| == n
  {
    seq(n, i requires 0 <= i < n => mem(p + i))
  }

  datatype VertexAttrib = VertexAttrib(
    enabled: bool, size: int32, typ: int32, normalized: byte, stride: int32, pointer: nat)

  datatype GlState = GlState(arrayBuffer: int32, elementBuffer: int32, attribs: seq<VertexAttrib>)
  {
    ghost predicate Valid() { |attribs| == MAX_VERTEX_ATTRIBS }
  }

  const NO_ATTRIB := VertexAttrib(false, 0, 0, 0, 0, 0)
  const INITIAL := GlState(0, 0, seq(MAX_VERTEX_ATTRIBS, _ => NO_ATTRIB))

  /** None where the original gives up and exits. */
  function GlSizeof(typ: int32): Option<int> {
    if typ == 0x1400 || typ == 0x1401 then Some(1)
    else if typ == 0x1402 || typ == 0x1403 then Some(2)
    else if typ == 0x1404 || typ == 0x1405 || typ == 0x1406 then Some(4)
    else None
  }

  /** `count/6*4` with C's truncating division: how many vertices the indices of quads are taken to use. */
  function VertexCount(count: int32): int {
    var c: int := count;
    if c >= 0 then c / 6 * 4 else -((-c) / 6 * 4)
  }

  function Max(a: int, b: int): int { if a > b then a else b }

  function ElemSize(a: VertexAttrib): int
    requires GlSizeof(a.typ).Some?
  {
    GlSizeof(a.typ).value * a.size
  }

  /** The bytes the driver fetches for vertex j of an attribute in client memory: vertices lie stride
      bytes apart, or one after the other when there is no stride. */
  function Fetch(a: VertexAttrib, mem: Memory, j: nat): (s: bytes)
    requires GlSizeof(a.typ).Some?
    ensures |s| == Max(ElemSize(a), 0)
  {
    var n := Max(ElemSize(a), 0);
    Slice(mem, a.pointer + j * (if a.stride > 0 then a.stride else n), n)
  }

  /** The types and their sizes: signed and unsigned bytes, shorts, and ints or floats of four bytes. */
  lemma TypeSizes(typ: int32)
    ensures GlSizeof(typ).Some? <==> 0x1400 <= typ <= 0x1406
    ensures GlSizeof(typ).Some? ==> GlSizeof(typ).value == (if typ < 0x1402 then 1 else if typ < 0x1404 then 2 else 4)
  {
  }

  /** Six indices make a quad of four vertices; a rest of fewer than six makes none. */
  lemma VerticesOfQuads(count: int32, quads: nat, rest: nat)
    requires rest < 6
    ensures count == 6 * quads + rest ==> VertexCount(count) == 4 * quads
    ensures count == -(6 * quads + rest) ==> VertexCount(count) == -(4 * quads)
  {
  }

  /** Byte k of vertex j lies j strides behind the pointer; without a stride the vertices lie packed. */
  lemma FetchedByte(a: VertexAttrib, mem: Memory, j: nat, k: nat)
    requires GlSizeof(a.typ).Some? && k < GlSizeof(a.typ).value * a.size
    ensures k < |Fetch(a, mem, j)|
    ensures a.stride > 0 ==> Fetch(a, mem, j)[k] == mem(a.pointer + j * a.stride + k)
    ensures a.stride <= 0 ==> Fetch(a, mem, j)[k] == mem(a.pointer + j * (GlSizeof(a.typ).value * a.size) + k)
  {
  }

  /** The vertices 0 .. count-1, one after the other. */
  function Packed(a: VertexAttrib, mem: Memory, count: nat): bytes
    requires GlSizeof(a.typ).Some?
  {
    if count == 0 then [] else Packed(a, mem, count - 1) + Fetch(a, mem, count - 1)
  }

  lemma {:induction false} PackedLength(a: VertexAttrib, mem: Memory, count: nat)
    requires GlSizeof(a.typ).Some?
    ensures |Packed(a, mem, count)| == count * Max(ElemSize(a), 0)
  {
    if count > 0 {
      PackedLength(a, mem, count - 1);
      assert (count - 1) * Max(ElemSize(a), 0) + Max(ElemSize(a), 0) == count * Max(ElemSize(a), 0);
    }
  }

  /** Replay reads the block at stride 0, so vertex j is its j-th group of ElemSize bytes: exactly what
      the driver fetched through the application's stride. */
  lemma {:induction false} PackedKeepsFetches(a: VertexAttrib, mem: Memory, count: nat, j: nat)
    requires GlSizeof(a.typ).Some? && j < count
    ensures var n := Max(ElemSize(a), 0); var p := Packed(a, mem, count);
      0 <= j * n <= j * n + n <= |p| && p[j * n..j * n + n] == Fetch(a, mem, j)
  {
    var n := Max(ElemSize(a), 0);
    PackedLength(a, mem, count - 1);
    PackedLength(a, mem, count);
    if j < count - 1 {
      PackedKeepsFetches(a, mem, count - 1, j);
    }
  }

  /** The block logged for a draw call holds vertex v just when v lies below the number of vertices the
      tracer estimates from the index count; replay reads past the block for the others. */
  lemma VertexCovered(a: VertexAttrib, mem: Memory, count: int32, v: nat)
    requires GlSizeof(a.typ).Some? && ElemSize(a) > 0
    ensures var n := ElemSize(a); var p := Packed(a, mem, Max(VertexCount(count), 0));
      && (v * n + n <= |p| <==> v < VertexCount(count))
      && (v < VertexCount(count) ==> p[v * n..v * n + n] == Fetch(a, mem, v))
  {
    hide Packed, Fetch, VertexCount, ElemSize, GlSizeof;
    var n, vertices := ElemSize(a), Max(VertexCount(count), 0);
    PackedLength(a, mem, vertices);
    Slots(n, v, vertices);
    if v < vertices { PackedKeepsFetches(a, mem, vertices, v); }
  }

  /** A draw call finds all its vertices in the block just when the largest index it draws lies below the
      estimate count/6*4. */
  lemma DrawCovered(a: VertexAttrib, mem: Memory, count: int32, indices: seq<nat>)
    requires GlSizeof(a.typ).Some? && ElemSize(a) > 0 && |indices| == count && indices != []
    ensures var n := ElemSize(a); var p := Packed(a, mem, Max(VertexCount(count), 0));
      (forall v :: v in indices ==> v * n + n <= |p|) <==> Largest(indices) < VertexCount(count)
  {
    hide Packed, VertexCount, ElemSize, GlSizeof;
    LargestIs(indices);
    var n, p := ElemSize(a), Packed(a, mem, Max(VertexCount(count), 0));
    forall v | v in indices ensures v * n + n <= |p| <==> v < VertexCount(count) {
      VertexCovered(a, mem, count, v);
    }
  }

  function Largest(indices: seq<nat>): nat
    requires indices != []
  {
    if |indices| == 1 then indices[0] else
      var l := Largest(indices[1..]);
      if indices[0] > l then indices[0] else l
  }

  lemma {:induction false} LargestIs(indices: seq<nat>)
    requires indices != []
    ensures Largest(indices) in indices && forall v :: v in indices ==> v <= Largest(indices)
  {
    assert indices == [indices[0]] + indices[1..];
    if |indices| > 1 { LargestIs(indices[1..]); }
  }

  /** A triangle: the estimate for three indices is no vertex at all, and the block is empty. */
  lemma TriangleIsLost(a: VertexAttrib, mem: Memory)
    requires GlSizeof(a.typ).Some?
    ensures VertexCount(3) == 0 && AttribBlock(a, mem, VertexCount(3)) == Blob(0, [])
  {
  }

  /** The count that the build with MT_BUFFER_DATA_FIXED takes instead: one more than the largest index. */
  method CountByLargestIndex(indices: seq<nat>) returns (n: nat)
    ensures forall v :: v in indices ==> v < n
    ensures n >= 1 && (n > 1 ==> n - 1 in indices)
  {
    var maxval := 0;
    for i := 0 to |indices|
      invariant forall k :: 0 <= k < i ==> indices[k] <= maxval
      invariant maxval > 0 ==> maxval in indices
    {
      if maxval < indices[i] { maxval := indices[i]; }
    }
    n := maxval + 1;
  }

  /** With it every vertex drawn is in the block, where replay finds what the driver fetched. */
  lemma DrawnVerticesCovered(a: VertexAttrib, mem: Memory, indices: seq<nat>, count: nat)
    requires GlSizeof(a.typ).Some? && forall v :: v in indices ==> v < count
    ensures forall v :: v in indices ==>
      var n := Max(ElemSize(a), 0); var p := Packed(a, mem, count);
      0 <= v * n <= v * n + n <= |p| && p[v * n..v * n + n] == Fetch(a, mem, v)
  {
    forall v | v in indices
      ensures var n := Max(ElemSize(a), 0); var p := Packed(a, mem, count);
        0 <= v * n <= v * n + n <= |p| && p[v * n..v * n + n] == Fetch(a, mem, v)
    {
      PackedKeepsFetches(a, mem, count, v);
    }
  }

  lemma Slots(n: nat, v: nat, vertices: nat)
    requires n > 0
    ensures v * n + n <= vertices * n <==> v < vertices
  {
    if v < vertices {
      Times(v + 1, vertices, n);
    } else {
      Times(vertices, v, n);
    }
  }

  lemma {:induction false} Times(x: nat, y: nat, n: nat)
    requires x <= y
    ensures x * n <= y * n
  {
    if x < y {
      Times(x, y - 1, n);
      assert y * n == (y - 1) * n + n;
    }
  }

  // ---------------------------------------------------------------- calls and their records

  datatype Call =
    | Words(op: int32, args: seq<int32>)
    | Names(nop: int32, n: int32, names: seq<int32>)
    | BindBuffer(target: int32, buffer: int32)
    | BufferData(target: int32, size: int32, data: Option<bytes>, usage: int32)
    | BufferSubData(target: int32, offset: int32, size: int32, data: Option<bytes>)
    | BindAttribLocation(program: int32, location: int32, name: Option<bytes>)
    | EnableAttrib(index: nat)
    | DisableAttrib(index: nat)
    | AttribPointer(index: nat, asize: int32, typ: int32, normalized: byte, stride: int32, pointer: nat)
    | DrawElements(mode: int32, count: int32, typ: int32, indices: nat)
    | ShaderSource(shader: int32, nsources: int32, sources: seq<Option<bytes>>, lengths: Option<seq<int32>>)
    | GetIntegerv(pname: int32, params: Option<int32>)
    | SwapBuffers(dpy: nat, surface: nat, res: int32)
    | Mark(text: Option<bytes>)

  /** One intercepted call: who makes it, what its pointers point at, and when the driver ran. */
  datatype Traced = Traced(thr: nat, call: Call, mem: Memory, bgn: nat, end: nat)

  predicate IsInt32(n: int) { -0x8000_0000 <= n < 0x8000_0000 }

  predicate Readable(data: Option<bytes>, size: int32) { data.Some? && size > 0 ==> size <= |data.value| }

  predicate CString(s: Option<bytes>) { s.Some? ==> 0 !in s.value }

  /** What C and GL ask of the caller: arrays as long as announced, indices in range, strings that end. */
  predicate CallOk(wsize: nat, c: Call) {
    match c
    case Words(op, args) => WordCount(op) == Some(|args|)
    case Names(op, n, names) => IsNameCall(op) && |names| == Max(n, 0)
    case BufferData(_, size, data, _) => Readable(data, size)
    case BufferSubData(_, _, size, data) => Readable(data, size)
    case BindAttribLocation(_, _, name) => CString(name)
    case EnableAttrib(i) => i < MAX_VERTEX_ATTRIBS
    case DisableAttrib(i) => i < MAX_VERTEX_ATTRIBS
    case AttribPointer(i, _, _, _, _, p) => i < MAX_VERTEX_ATTRIBS && p < Pow256(wsize)
    case DrawElements(_, _, _, p) => p < Pow256(wsize)
    case ShaderSource(_, n, sources, lengths) => |sources| == Max(n, 0) && SourcesOk(sources, lengths)
    case SwapBuffers(dpy, surface, _) => dpy < Pow256(wsize) && surface < Pow256(wsize)
    case Mark(text) => CString(text)
    case _ => true
  }

  predicate SourcesOk(sources: seq<Option<bytes>>, lengths: Option<seq<int32>>) {
    && (lengths.Some? ==> |lengths.value| == |sources|)
    && forall i :: 0 <= i < |sources| ==>
         SourceOk(sources[i], LengthOf(lengths, i))
  }

  predicate SourceOk(source: Option<bytes>, len: int32) {
    if len > 0 then Readable(source, len) else CString(source)
  }

  /** A source is logged by length where the caller gives a positive one, and up to its NUL elsewhere. */
  function SourcePair(source: Option<bytes>, len: int32): seq<Field>
    requires SourceOk(source, len)
  {
    [Int(len), if len > 0 then BlobOf(source, len) else Str(StrOf(source))]
  }

  function LengthOf(lengths: Option<seq<int32>>, i: nat): int32
    requires lengths.Some? ==> i < |lengths.value|
  {
    if lengths.Some? then lengths.value[i] else 0
  }

  /** No type the tracer needs the size of is unknown; otherwise it exits. */
  predicate TypesKnown(st: GlState, typ: int32) {
    && (st.elementBuffer == 0 ==> GlSizeof(typ).Some?)
    && (st.arrayBuffer == 0 ==> forall a :: a in st.attribs && a.enabled ==> GlSizeof(a.typ).Some?)
  }

  /** The sizes the tracer computes with C ints do not overflow. */
  predicate SizesFit(st: GlState, count: int32, typ: int32) {
    && (st.elementBuffer == 0 && GlSizeof(typ).Some? ==> IsInt32(count * GlSizeof(typ).value))
    && (st.arrayBuffer == 0 ==>
          forall a :: a in st.attribs && a.enabled && GlSizeof(a.typ).Some? ==>
            IsInt32(ElemSize(a)) && IsInt32(ElemSize(a) * VertexCount(count)))
  }

  predicate Traceable(wsize: nat, st: GlState, c: Call) {
    CallOk(wsize, c) && (c.DrawElements? ==> TypesKnown(st, c.typ) && SizesFit(st, c.count, c.typ))
  }

  function Opcode(c: Call): int32 {
    match c
    case Words(op, _) => op
    case Names(op, _, _) => op
    case BindBuffer(_, _) => OPC_glBindBuffer
    case BufferData(_, _, _, _) => OPC_glBufferData
    case BufferSubData(_, _, _, _) => OPC_glBufferSubData
    case BindAttribLocation(_, _, _) => OPC_glBindAttribLocation
    case EnableAttrib(_) => OPC_glEnableVertexAttribArray
    case DisableAttrib(_) => OPC_glDisableVertexAttribArray
    case AttribPointer(_, _, _, _, _, _) => OPC_glVertexAttribPointer
    case DrawElements(_, _, _, _) => OPC_glDrawElements
    case ShaderSource(_, _, _, _) => OPC_glShaderSource
    case GetIntegerv(_, _) => OPC_glGetIntegerv
    case SwapBuffers(_, _, _) => OPC_eglSwapBuffers
    case Mark(_) => OPC_MARK
  }

  function Ints(args: seq<int32>): (fs: seq<Field>)
    ensures |fs| == |args| && forall i :: 0 <= i < |fs| ==> fs[i] == Int(args[i])
  {
    seq(|args|, i requires 0 <= i < |args| => Int(args[i]))
  }

  function StrOf(s: Option<bytes>): bytes { if s.Some? then s.value else [] }

  function SourceFields(sources: seq<Option<bytes>>, lengths: Option<seq<int32>>, i: nat): seq<Field>
    requires SourcesOk(sources, lengths) && i <= |sources|
    decreases |sources| - i
  {
    if i == |sources| then []
    else SourcePair(sources[i], LengthOf(lengths, i)) + SourceFields(sources, lengths, i + 1)
  }

  /** The block of one enabled attribute: its vertices repacked without gaps. */
  function AttribBlock(a: VertexAttrib, mem: Memory, vertices: int): (f: Field)
    requires GlSizeof(a.typ).Some? && IsInt32(ElemSize(a) * vertices)
    ensures FieldOk(4, f) && FieldOk(8, f)
  {
    var p := Packed(a, mem, Max(vertices, 0));
    PackedLength(a, mem, Max(vertices, 0));
    assert |p| < 0x8000_0000 by {
      if vertices > 0 && ElemSize(a) > 0 { assert |p| == ElemSize(a) * vertices; }
    }
    Blob(|p|, p)
  }

  predicate AttribsOk(attribs: seq<VertexAttrib>, vertices: int) {
    forall a :: a in attribs && a.enabled ==> GlSizeof(a.typ).Some? && IsInt32(ElemSize(a) * vertices)
  }

  function AttribFields(attribs: seq<VertexAttrib>, mem: Memory, vertices: int, i: nat): seq<Field>
    requires AttribsOk(attribs, vertices) && i <= |attribs|
    decreases |attribs| - i
  {
    if i == |attribs| then []
    else if attribs[i].enabled then
      [AttribBlock(attribs[i], mem, vertices)] + AttribFields(attribs, mem, vertices, i + 1)
    else AttribFields(attribs, mem, vertices, i + 1)
  }

  /** The indices of a draw call: a pointer into the bound element buffer, or the client's bytes. */
  function IndexField(st: GlState, mem: Memory, count: int32, typ: int32, indices: nat): Field
    requires st.elementBuffer == 0 ==> GlSizeof(typ).Some? && IsInt32(count * GlSizeof(typ).value)
  {
    if st.elementBuffer != 0 then Ptr(indices)
    else
      var size := count * GlSizeof(typ).value;
      BlobOf(if indices == 0 then None else Some(Slice(mem, indices, Max(size, 0))), size)
  }

  /** The fields between opcode and times. */
  function Payload(wsize: nat, st: GlState, c: Call, mem: Memory): seq<Field>
    requires Traceable(wsize, st, c)
  {
    match c
    case Words(_, args) => Ints(args)
    case Names(_, n, names) => [Int(n)] + Ints(names)
    case BindBuffer(target, buffer) => [Int(target), Int(buffer)]
    case BufferData(target, size, data, usage) => [Int(target), Int(size), BlobOf(data, size), Int(usage)]
    case BufferSubData(target, offset, size, data) => [Int(target), Int(offset), Int(size), BlobOf(data, size)]
    case BindAttribLocation(program, location, name) => [Int(program), Int(location), Str(StrOf(name))]
    case EnableAttrib(i) => [Int(i)]
    case DisableAttrib(i) => [Int(i)]
    case AttribPointer(i, size, typ, normalized, stride, p) =>
      [Int(i), Int(size), Int(typ), Int(normalized), Int(stride), Ptr(p)]
    case DrawElements(mode, count, typ, indices) =>
      [Int(mode), Int(count), Int(typ), IndexField(st, mem, count, typ, indices)] +
      (if st.arrayBuffer == 0 then AttribFields(st.attribs, mem, VertexCount(count), 0) else [])
    case ShaderSource(shader, n, sources, lengths) => [Int(shader), Int(n)] + SourceFields(sources, lengths, 0)
    case GetIntegerv(pname, params) => [Int(pname), OptInt(params)]
    case SwapBuffers(dpy, surface, res) => [Ptr(dpy), Ptr(surface), Int(res)]
    case Mark(text) => [Str(StrOf(text))]
  }

  function NextState(st: GlState, c: Call): (st': GlState)
    requires c.EnableAttrib? || c.DisableAttrib? || c.AttribPointer? ==> c.index < |st.attribs|
    ensures |st'.attribs| == |st.attribs|
  {
    match c
    case BindBuffer(target, buffer) =>
      if target == GL_ARRAY_BUFFER then st.(arrayBuffer := buffer)
      else if target == GL_ELEMENT_ARRAY_BUFFER then st.(elementBuffer := buffer)
      else st
    case EnableAttrib(i) => st.(attribs := st.attribs[i := st.attribs[i].(enabled := true)])
    case DisableAttrib(i) => st.(attribs := st.attribs[i := st.attribs[i].(enabled := false)])
    case AttribPointer(i, size, typ, normalized, stride, p) =>
      st.(attribs := st.attribs[i := VertexAttrib(st.attribs[i].enabled, size, typ, normalized, stride, p)])
    case _ => st
  }

  /** The whole record of an outermost call. */
  function Record(wsize: nat, curThread: nat, st: GlState, t: Traced): seq<Field>
    requires Traceable(wsize, st, t.call)
  {
    Opening(curThread, t.thr, Opcode(t.call)) + Payload(wsize, st, t.call, t.mem) + [Long(t.bgn), Long(t.end)]
  }
}
