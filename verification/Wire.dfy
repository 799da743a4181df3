/** The wire format of a gltrace log: how the primitives of `iolib.c` lay out one field, and how the
    readers take it back.  Multi-byte values are little-endian, and every field occupies a multiple of
    four bytes. */
module Wire {
  import opened Wrappers

  type byte = b: int | 0 <= b < 256
  type bytes = seq<byte>
  type int32 = i: int | -0x8000_0000 <= i < 0x8000_0000

  const TWO_32: nat := 0x1_0000_0000
  const TWO_64: nat := 0x1_0000_0000_0000_0000

  /** 0xdeadbead, as the C `int` it is compared with. */
  const MARKER: int32 := 0xdeadbead - TWO_32

  // ---------------------------------------------------------------- numbers

  function Pow256(k: nat): (p: nat)
    ensures p >= 1
  {
    if k == 0 then 1 else 256 * Pow256(k - 1)
  }

  function LittleEndian(n: nat, k: nat): (s: bytes)
    ensures |s| == k
  {
    seq(k, i requires 0 <= i < k => (n / Pow256(i)) % 256)
  }

  function FromLittleEndian(s: bytes): nat {
    if s == [] then 0 else s[0] + 256 * FromLittleEndian(s[1..])
  }

  lemma DivideTwice(n: nat, p: nat)
    requires p > 0
    ensures n / (256 * p) == n / 256 / p
  {
    var q := n / 256 / p;
    assert p * q <= n / 256 < p * q + p;
    assert 256 * p * q == 256 * (p * q);
    assert 256 * p * q <= n < 256 * p * q + 256 * p;
    QuotientUnique(n, 256 * p, q);
  }

  lemma MulMonotone(d: nat, a: nat, b: nat)
    requires a <= b
    ensures d * a <= d * b
  {
  }

  lemma QuotientUnique(n: nat, d: nat, q: nat)
    requires d > 0 && d * q <= n < d * q + d
    ensures n / d == q
  {
    var r := n / d;
    if r < q {
      MulMonotone(d, r + 1, q);
    } else if q < r {
      MulMonotone(d, q + 1, r);
    }
  }

  lemma LittleEndianTail(n: nat, k: nat)
    requires k > 0
    ensures LittleEndian(n, k)[0] == n % 256 && LittleEndian(n, k)[1..] == LittleEndian(n / 256, k - 1)
  {
    forall i | 0 <= i < k - 1
      ensures LittleEndian(n, k)[1..][i] == LittleEndian(n / 256, k - 1)[i]
    {
      DivideTwice(n, Pow256(i));
    }
  }

  lemma {:induction false} LittleEndianRoundTrip(n: nat, k: nat)
    requires n < Pow256(k)
    ensures FromLittleEndian(LittleEndian(n, k)) == n
  {
    if k > 0 {
      LittleEndianTail(n, k);
      LittleEndianRoundTrip(n / 256, k - 1);
    }
  }

  lemma {:induction false} FromLittleEndianBound(s: bytes)
    ensures FromLittleEndian(s) < Pow256(|s|)
  {
    if s != [] {
      FromLittleEndianBound(s[1..]);
    }
  }

  lemma Pow256Values()
    ensures Pow256(4) == TWO_32 && Pow256(8) == TWO_64
  {
    assert Pow256(2) == 0x1_0000;
    assert Pow256(3) == 0x100_0000;
    assert Pow256(4) == TWO_32;
    assert Pow256(5) == 0x100 * TWO_32;
    assert Pow256(6) == 0x1_0000 * TWO_32;
    assert Pow256(7) == 0x100_0000 * TWO_32;
  }

  /** The bit pattern of a C int, and back. */
  function Unsigned(i: int32): nat { if i < 0 then i + TWO_32 else i }

  function Signed(n: nat): int32
    requires n < TWO_32
  {
    if n < 0x8000_0000 then n else n - TWO_32
  }

  /** A pointer read back on the replay side: a 4-byte pointer goes through `int32_t`, so it arrives
      sign-extended to 64 bits. */
  function Widen(wsize: nat, p: nat): nat {
    if wsize == 4 && 0x8000_0000 <= p < TWO_32 then p + (TWO_64 - TWO_32) else p
  }

  /** The signed number that the bits stand for, in a word of m values. */
  function SignedValue(p: nat, m: nat): int { if 2 * p < m then p else p - m }

  /** Widening a pointer of four bytes keeps its signed value; one of eight bytes stays. */
  lemma WidenKeepsTheSign(p: nat)
    ensures p < TWO_32 ==> Widen(4, p) < TWO_64 && SignedValue(Widen(4, p), TWO_64) == SignedValue(p, TWO_32)
    ensures Widen(8, p) == p
  {
  }

  lemma Units<T>(a: seq<T>)
    ensures [] + a == a && a + [] == a
  {
  }

  lemma Assoc<T>(a: seq<T>, b: seq<T>, c: seq<T>)
    ensures a + (b + c) == (a + b) + c
  {
  }

  // ---------------------------------------------------------------- padding and strings

  function Zeros(n: nat): (s: bytes)
    ensures |s| == n && forall i :: 0 <= i < n ==> s[i] == 0
  {
    seq(n, _ => 0)
  }

  /** How many bytes bring position n to the next multiple of four. */
  function PadLen(n: nat): (p: nat)
    ensures (n + p) % 4 == 0 && p < 4
  {
    (4 - n % 4) % 4
  }

  lemma PadLenShift(a: nat, b: nat)
    requires a % 4 == 0
    ensures PadLen(a + b) == PadLen(b)
  {
  }

  /** Storing zeros up to the next multiple of four stores PadLen of them. */
  lemma PadCount(n: nat, k: nat)
    requires k <= PadLen(n)
    ensures (n + k) % 4 == 0 <==> k == PadLen(n)
  {
  }

  lemma AlignedCopy(file0: nat, cur0: nat, n: nat, file1: nat, cur1: nat)
    requires file0 % 4 == 0 && cur0 % 4 == 0 && n % 4 == 0 && file1 % 4 == 0
    requires file1 + cur1 == file0 + cur0 + n
    ensures cur1 % 4 == 0
  {
  }

  /** The readers' own rounding agrees with the writer's padding. */
  function RoundUp(n: nat): (r: nat)
    ensures r == n + PadLen(n)
  {
    n + 3 - (n + 3) % 4
  }

  /** strlen, limited to the file: the distance to the first NUL, or to the end when there is none. */
  function Strlen(s: bytes, pos: nat): (n: nat)
    requires pos <= |s|
    ensures pos + n <= |s| && 0 !in s[pos..pos + n]
    ensures pos + n < |s| ==> s[pos + n] == 0
    decreases |s| - pos
  {
    if pos == |s| || s[pos] == 0 then 0 else
      assert s[pos..pos + 1 + Strlen(s, pos + 1)] == [s[pos]] + s[pos + 1..pos + 1 + Strlen(s, pos + 1)];
      1 + Strlen(s, pos + 1)
  }

  // ---------------------------------------------------------------- fields

  /** What one put primitive is asked to log.  `OptInt` is `putIntPtr`, `Blob(size, data)` is `putBytes`
      with a size argument and the bytes it copies (none when the size is not positive). */
  datatype Field =
    | Int(i: int32)
    | OptInt(oi: Option<int32>)
    | Long(n: nat)
    | Ptr(p: nat)
    | Str(str: bytes)
    | Blob(size: int32, data: bytes)

  predicate ValidWordSize(wsize: nat) { wsize == 4 || wsize == 8 }

  /** The field is something a C caller can pass: numbers fit, strings stop at their first NUL. */
  predicate FieldOk(wsize: nat, f: Field) {
    match f
    case Int(_) => true
    case OptInt(_) => true
    case Long(n) => n < TWO_64
    case Ptr(p) => p < Pow256(wsize)
    case Str(s) => 0 !in s
    case Blob(size, data) => |data| == if size > 0 then size else 0
  }

  function EncInt(i: int32): (s: bytes)
    ensures |s| == 4
  {
    LittleEndian(Unsigned(i), 4)
  }

  function EncField(wsize: nat, f: Field): bytes {
    match f
    case Int(i) => EncInt(i)
    case OptInt(oi) =>
      (match oi
       case None => EncInt(MARKER) + EncInt(0)
       case Some(i) => if i == MARKER then EncInt(MARKER) + EncInt(MARKER) else EncInt(i))
    case Long(n) => LittleEndian(n, 8)
    case Ptr(p) => LittleEndian(p, wsize)
    case Str(s) => s + Zeros(1 + PadLen(|s| + 1))
    case Blob(size, data) => EncInt(size) + (data + Zeros(PadLen(|data|)))
  }

  // The pieces in which a primitive stores a field.

  lemma StrPieces(wsize: nat, was: bytes, str: bytes)
    requires |was| % 4 == 0
    ensures ((was + (str + [0])) + Zeros(PadLen(|was + (str + [0])|))) == was + EncField(wsize, Str(str))
  {
    PadLenShift(|was|, |str| + 1);
  }

  lemma BlobPieces(wsize: nat, was: bytes, size: int32, data: bytes)
    requires |was| % 4 == 0
    ensures (((was + EncInt(size)) + data) + Zeros(PadLen(|was + EncInt(size) + data|)))
         == was + EncField(wsize, Blob(size, data))
  {
    PadLenShift(|was| + 4, |data|);
  }

  function EncFields(wsize: nat, fs: seq<Field>): bytes {
    if fs == [] then [] else EncField(wsize, fs[0]) + EncFields(wsize, fs[1..])
  }

  predicate FieldsOk(wsize: nat, fs: seq<Field>) {
    forall f :: f in fs ==> FieldOk(wsize, f)
  }

  lemma SumAligned(a: nat, b: nat)
    requires a % 4 == 0 && b % 4 == 0
    ensures (a + b) % 4 == 0
  {
  }

  lemma EncFieldAligned(wsize: nat, f: Field)
    requires ValidWordSize(wsize) && FieldOk(wsize, f)
    ensures |EncField(wsize, f)| % 4 == 0 && |EncField(wsize, f)| >= 4
  {
    match f {
      case Int(_) =>
      case OptInt(_) =>
      case Long(_) =>
      case Ptr(_) =>
      case Str(s) =>
        var pad := PadLen(|s| + 1);
        assert |EncField(wsize, f)| == (|s| + 1) + pad;
      case Blob(_, data) =>
        var pad := PadLen(|data|);
        assert |EncField(wsize, f)| == 4 + (|data| + pad);
        SumAligned(4, |data| + pad);
    }
  }

  lemma {:induction false} EncFieldsConcat(wsize: nat, fs: seq<Field>, gs: seq<Field>)
    ensures EncFields(wsize, fs + gs) == EncFields(wsize, fs) + EncFields(wsize, gs)
  {
    if fs == [] {
      assert fs + gs == gs;
    } else {
      assert (fs + gs)[1..] == fs[1..] + gs;
      EncFieldsConcat(wsize, fs[1..], gs);
    }
  }

  lemma EncFieldsSnoc(wsize: nat, fs: seq<Field>, f: Field)
    ensures EncFields(wsize, fs + [f]) == EncFields(wsize, fs) + EncField(wsize, f)
  {
    EncFieldsConcat(wsize, fs, [f]);
    assert EncFields(wsize, [f]) == EncField(wsize, f) + [];
  }

  // ---------------------------------------------------------------- readers

  // Each reader maps a position to the value found and the position after it.  A read that does not fit
  // in the file returns the original's default and leaves the position alone.

  function DecInt(s: bytes, pos: nat): int32
    requires pos + 4 <= |s|
  {
    assert FromLittleEndian(s[pos..pos + 4]) < TWO_32 by { FromLittleEndianBound(s[pos..pos + 4]); Pow256Values(); }
    Signed(FromLittleEndian(s[pos..pos + 4]))
  }

  function GetInt(s: bytes, pos: nat): (r: (int32, nat))
    ensures pos <= r.1
  {
    if pos + 4 > |s| then (0, pos) else (DecInt(s, pos), pos + 4)
  }

  /** `getIntPtr` does not bound its second read; where that read would leave the file the model
      answers NULL. */
  function GetIntPtr(s: bytes, pos: nat): (r: (Option<int32>, nat))
    ensures pos <= r.1
  {
    if pos + 4 > |s| then (None, pos)
    else if DecInt(s, pos) != MARKER then (Some(DecInt(s, pos)), pos + 4)
    else if pos + 8 > |s| then (None, pos + 4)
    else if DecInt(s, pos + 4) == 0 then (None, pos + 8)
    else (Some(DecInt(s, pos + 4)), pos + 8)
  }

  function GetLong(s: bytes, pos: nat): (r: (nat, nat))
    ensures pos <= r.1
  {
    if pos + 8 > |s| then (0, pos) else (FromLittleEndian(s[pos..pos + 8]), pos + 8)
  }

  function GetPtr(wsize: nat, s: bytes, pos: nat): (r: (nat, nat))
    ensures pos <= r.1
  {
    if pos + wsize > |s| then (0, pos) else (Widen(wsize, FromLittleEndian(s[pos..pos + wsize])), pos + wsize)
  }

  function GetString(s: bytes, pos: nat): (r: (Option<bytes>, nat))
    ensures pos <= r.1
  {
    if pos > |s| then (None, pos) else
    var len := Strlen(s, pos) + 1;
    if pos + len > |s| then (None, pos) else (Some(s[pos..pos + len - 1]), pos + RoundUp(len))
  }

  function GetBytes(s: bytes, pos: nat): (r: (Option<bytes>, nat))
    ensures pos <= r.1
  {
    if pos + 4 > |s| then (None, pos) else
      var size := DecInt(s, pos);
      if size <= 0 || pos + 4 + size > |s| then (None, pos + 4)
      else (Some(s[pos + 4..pos + 4 + size]), pos + 4 + RoundUp(size))
  }

  // ---------------------------------------------------------------- every get undoes its put

  /** The bytes e lie in s from pos on. */
  predicate At(s: bytes, pos: nat, e: bytes) {
    pos + |e| <= |s| && s[pos..pos + |e|] == e
  }

  lemma AtSplit(s: bytes, pos: nat, a: bytes, b: bytes)
    requires At(s, pos, a + b)
    ensures At(s, pos, a) && At(s, pos + |a|, b)
  {
    var ab := s[pos..pos + |a + b|];
    assert s[pos..pos + |a|] == ab[..|a|];
    assert s[pos + |a|..pos + |a| + |b|] == ab[|a|..];
  }

  /** From pos on, the file consists of the fields fs. */
  predicate FieldsAt(wsize: nat, s: bytes, pos: nat, fs: seq<Field>) {
    pos <= |s| && s[pos..] == EncFields(wsize, fs)
  }

  /** With the fields from the k-th on at pos, the k-th is at pos and the others follow it. */
  lemma NextField(wsize: nat, s: bytes, pos: nat, fs: seq<Field>, k: nat)
    requires k < |fs| && FieldsAt(wsize, s, pos, fs[k..])
    ensures At(s, pos, EncField(wsize, fs[k]))
    ensures FieldsAt(wsize, s, pos + |EncField(wsize, fs[k])|, fs[k + 1..])
  {
    hide EncField;
    var from := fs[k..];
    assert from[0] == fs[k] && from[1..] == fs[k + 1..];
    var e, t := EncField(wsize, fs[k]), EncFields(wsize, fs[k + 1..]);
    assert s[pos..] == e + t;
    assert s[pos..pos + |e|] == s[pos..][..|e|];
    assert s[pos + |e|..] == s[pos..][|e|..];
  }

  lemma DecLittleEndian(s: bytes, pos: nat, n: nat, k: nat)
    requires n < Pow256(k) && At(s, pos, LittleEndian(n, k))
    ensures pos + k <= |s| && FromLittleEndian(s[pos..pos + k]) == n
  {
    LittleEndianRoundTrip(n, k);
  }

  lemma DecEncInt(s: bytes, pos: nat, i: int32)
    requires At(s, pos, EncInt(i))
    ensures DecInt(s, pos) == i
  {
    Pow256Values();
    DecLittleEndian(s, pos, Unsigned(i), 4);
  }

  lemma TakeInt(wsize: nat, s: bytes, pos: nat, fs: seq<Field>, k: nat)
    requires k < |fs| && fs[k].Int? && FieldsAt(wsize, s, pos, fs[k..])
    ensures GetInt(s, pos) == (fs[k].i, pos + 4) && FieldsAt(wsize, s, pos + 4, fs[k + 1..])
  {
    hide EncFields, LittleEndian, FromLittleEndian, Pow256;
    NextField(wsize, s, pos, fs, k);
    DecEncInt(s, pos, fs[k].i);
  }

  lemma IntPtrAt(s: bytes, pos: nat, wsize: nat, oi: Option<int32>)
    requires At(s, pos, EncField(wsize, OptInt(oi)))
    ensures GetIntPtr(s, pos) == (oi, pos + |EncField(wsize, OptInt(oi))|)
  {
    hide LittleEndian, FromLittleEndian, Pow256;
    if oi == None || oi.value == MARKER {
      var second := if oi == None then 0 else MARKER;
      AtSplit(s, pos, EncInt(MARKER), EncInt(second));
      DecEncInt(s, pos, MARKER);
      DecEncInt(s, pos + 4, second);
    } else {
      DecEncInt(s, pos, oi.value);
    }
  }

  /** NULL, the marker value and every other int come back as themselves. */
  lemma TakeIntPtr(wsize: nat, s: bytes, pos: nat, fs: seq<Field>, k: nat)
    requires k < |fs| && fs[k].OptInt? && FieldsAt(wsize, s, pos, fs[k..])
    ensures var (v, p) := GetIntPtr(s, pos);
      v == fs[k].oi && p == pos + |EncField(wsize, fs[k])| && FieldsAt(wsize, s, p, fs[k + 1..])
  {
    hide EncFields, GetIntPtr, At, FieldsAt;
    NextField(wsize, s, pos, fs, k);
    IntPtrAt(s, pos, wsize, fs[k].oi);
  }

  lemma TakeLong(wsize: nat, s: bytes, pos: nat, fs: seq<Field>, k: nat)
    requires k < |fs| && fs[k].Long? && fs[k].n < TWO_64 && FieldsAt(wsize, s, pos, fs[k..])
    ensures GetLong(s, pos) == (fs[k].n, pos + 8) && FieldsAt(wsize, s, pos + 8, fs[k + 1..])
  {
    hide EncFields, LittleEndian, FromLittleEndian;
    NextField(wsize, s, pos, fs, k);
    Pow256Values();
    DecLittleEndian(s, pos, fs[k].n, 8);
  }

  lemma TakePtr(wsize: nat, s: bytes, pos: nat, fs: seq<Field>, k: nat)
    requires k < |fs| && fs[k].Ptr? && fs[k].p < Pow256(wsize) && FieldsAt(wsize, s, pos, fs[k..])
    ensures GetPtr(wsize, s, pos) == (Widen(wsize, fs[k].p), pos + wsize)
    ensures FieldsAt(wsize, s, pos + wsize, fs[k + 1..])
  {
    hide EncFields, LittleEndian, FromLittleEndian, Pow256;
    NextField(wsize, s, pos, fs, k);
    DecLittleEndian(s, pos, fs[k].p, wsize);
  }

  lemma {:induction false} StrlenStops(s: bytes, pos: nat, n: nat)
    requires pos + n < |s| && s[pos + n] == 0 && 0 !in s[pos..pos + n]
    ensures Strlen(s, pos) == n
    decreases n
  {
    if n > 0 {
      assert s[pos..pos + n] == [s[pos]] + s[pos + 1..pos + n];
      StrlenStops(s, pos + 1, n - 1);
    }
  }

  lemma StringAt(s: bytes, pos: nat, str: bytes)
    requires 0 !in str && At(s, pos, str + Zeros(1 + PadLen(|str| + 1)))
    ensures GetString(s, pos) == (Some(str), pos + (|str| + 1) + PadLen(|str| + 1))
  {
    var pad := Zeros(1 + PadLen(|str| + 1));
    AtSplit(s, pos, str, pad);
    assert s[pos + |str|] == s[pos + |str|..pos + |str| + |pad|][0];
    StrlenStops(s, pos, |str|);
  }

  lemma TakeString(wsize: nat, s: bytes, pos: nat, fs: seq<Field>, k: nat)
    requires k < |fs| && fs[k].Str? && 0 !in fs[k].str && FieldsAt(wsize, s, pos, fs[k..])
    ensures var (v, p) := GetString(s, pos);
      v == Some(fs[k].str) && p == pos + |EncField(wsize, fs[k])| && FieldsAt(wsize, s, p, fs[k + 1..])
  {
    hide EncFields, GetString, Strlen, At, FieldsAt;
    NextField(wsize, s, pos, fs, k);
    StringAt(s, pos, fs[k].str);
  }

  /** What a reader makes of a byte block: an empty block, like a NULL pointer, reads as NULL. */
  function BlobValue(f: Field): Option<bytes>
    requires f.Blob?
  {
    if f.size > 0 then Some(f.data) else None
  }

  lemma BlobAt(s: bytes, pos: nat, size: int32, data: bytes)
    requires |data| == if size > 0 then size else 0
    requires At(s, pos, EncInt(size) + (data + Zeros(PadLen(|data|))))
    ensures GetBytes(s, pos) == (if size > 0 then Some(data) else None, pos + 4 + (|data| + PadLen(|data|)))
  {
    hide EncInt;
    var pad := Zeros(PadLen(|data|));
    AtSplit(s, pos, EncInt(size), data + pad);
    AtSplit(s, pos + 4, data, pad);
    DecEncInt(s, pos, size);
  }

  lemma TakeBytes(wsize: nat, s: bytes, pos: nat, fs: seq<Field>, k: nat)
    requires k < |fs| && fs[k].Blob? && FieldOk(wsize, fs[k]) && FieldsAt(wsize, s, pos, fs[k..])
    ensures var (v, p) := GetBytes(s, pos);
      v == BlobValue(fs[k]) && p == pos + |EncField(wsize, fs[k])| && FieldsAt(wsize, s, p, fs[k + 1..])
  {
    hide EncFields, EncInt, GetBytes, At, FieldsAt;
    NextField(wsize, s, pos, fs, k);
    BlobAt(s, pos, fs[k].size, fs[k].data);
  }

  /** Two fields of one kind whose encodings start two equal byte sequences are the same field: the
      encodings are injective and no encoding is a proper prefix of another. */
  lemma PrefixFree(wsize: nat, f: Field, g: Field, x: bytes, y: bytes)
    requires ValidWordSize(wsize) && FieldOk(wsize, f) && FieldOk(wsize, g)
    requires (f.Int? && g.Int?) || (f.OptInt? && g.OptInt?) || (f.Long? && g.Long?) || (f.Ptr? && g.Ptr?)
          || (f.Str? && g.Str?) || (f.Blob? && g.Blob?)
    requires EncField(wsize, f) + x == EncField(wsize, g) + y
    ensures f == g && x == y
  {
    hide LittleEndian, FromLittleEndian, GetString, GetBytes, GetIntPtr, DecInt;
    var s := EncField(wsize, f) + x;
    var ef, eg := EncField(wsize, f), EncField(wsize, g);
    assert s[0..|ef|] == ef && s[0..|eg|] == eg;
    match f {
      case Int(i) => DecEncInt(s, 0, i); DecEncInt(s, 0, g.i);
      case OptInt(oi) => IntPtrAt(s, 0, wsize, oi); IntPtrAt(s, 0, wsize, g.oi);
      case Long(n) => Pow256Values(); DecLittleEndian(s, 0, n, 8); DecLittleEndian(s, 0, g.n, 8);
      case Ptr(p) => DecLittleEndian(s, 0, p, wsize); DecLittleEndian(s, 0, g.p, wsize);
      case Str(str) => StringAt(s, 0, str); StringAt(s, 0, g.str);
      case Blob(size, data) =>
        BlobAt(s, 0, size, data); BlobAt(s, 0, g.size, g.data);
        AtSplit(s, 0, EncInt(size), data + Zeros(PadLen(|data|))); DecEncInt(s, 0, size);
        AtSplit(s, 0, EncInt(g.size), g.data + Zeros(PadLen(|g.data|))); DecEncInt(s, 0, g.size);
    }
    assert x == s[|ef|..] && y == s[|eg|..];
  }
}
