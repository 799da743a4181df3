/** `NodeWriter.writeData`: text printed with entities for special characters and with runs of one character
    abbreviated to `\[*n]`, and what it takes to read the text back. */
module NodeWriter {
  import opened Wrappers

  /** A Java char. */
  type CodeUnit = n: int | 0 <= n < 0x1_0000
  type Units = seq<CodeUnit>

  function Ascii(s: string): (u: Units)
    requires forall i :: 0 <= i < |s| ==> s[i] as int < 128
    ensures |u| == |s| && forall i :: 0 <= i < |s| ==> u[i] == s[i] as int
  {
    seq(|s|, i requires 0 <= i < |s| => s[i] as int)
  }

  const AMP: CodeUnit := 38
  const SEMI: CodeUnit := 59
  const BACKSLASH: CodeUnit := 92
  const LBRACKET: CodeUnit := 91
  const STAR: CodeUnit := 42
  const RBRACKET: CodeUnit := 93

  // ---------------------------------------------------------------- numerals

  function DigitFor(d: nat): (c: CodeUnit)
    requires d < 16
    ensures DigitValue(c) == Some(d)
  {
    if d < 10 then 48 + d else 87 + d
  }

  function DigitValue(c: CodeUnit): (d: Option<nat>)
    ensures d.Some? ==> d.value < 16
  {
    if 48 <= c <= 57 then Some(c - 48) else if 97 <= c <= 102 then Some(c - 87) else None
  }

  /** `Integer.toString` and `Integer.toHexString`. */
  function Numeral(n: nat, b: nat): Units
    requires b == 10 || b == 16
  {
    if n < b then [DigitFor(n)] else Numeral(n / b, b) + [DigitFor(n % b)]
  }

  predicate IsDigit(c: CodeUnit, b: nat) { DigitValue(c).Some? && DigitValue(c).value < b }

  predicate IsNumeral(ds: Units, b: nat) { ds != [] && forall i :: 0 <= i < |ds| ==> IsDigit(ds[i], b) }

  function Value(ds: Units, b: nat): nat
    requires forall i :: 0 <= i < |ds| ==> IsDigit(ds[i], b)
  {
    if ds == [] then 0 else
      assert IsDigit(ds[|ds| - 1], b);
      Value(ds[..|ds| - 1], b) * b + DigitValue(ds[|ds| - 1]).value
  }

  lemma {:induction false} NumeralValue(n: nat, b: nat)
    requires b == 10 || b == 16
    ensures IsNumeral(Numeral(n, b), b) && Value(Numeral(n, b), b) == n
  {
    if n < b {
      OneDigit([], n, b);
      assert [] + [DigitFor(n)] == [DigitFor(n)];
    } else {
      NumeralValue(n / b, b);
      OneDigit(Numeral(n / b, b), n % b, b);
    }
  }

  lemma OneDigit(ds: Units, d: nat, b: nat)
    requires (b == 10 || b == 16) && d < b && (ds == [] || IsNumeral(ds, b))
    ensures IsNumeral(ds + [DigitFor(d)], b) && Value(ds + [DigitFor(d)], b) == Value(ds, b) * b + d
  {
    assert (ds + [DigitFor(d)])[..|ds|] == ds;
  }

  lemma NumeralHasNone(n: nat, b: nat, c: CodeUnit)
    requires (b == 10 || b == 16) && DigitValue(c) == None
    ensures c !in Numeral(n, b)
  {
    NumeralValue(n, b);
  }

  // ---------------------------------------------------------------- what is written

  /** The entity for a character that needs one. */
  function Entity(ch: CodeUnit, attribute: bool, asciiOnly: bool): Option<Units> {
    if ch == AMP then Some(Ascii("&amp;"))
    else if attribute && ch == 34 then Some(Ascii("&quot;"))
    else if !attribute && ch == 60 then Some(Ascii("&lt;"))
    else if !attribute && ch == 62 then Some(Ascii("&gt;"))
    else if ch < 32 || (asciiOnly && ch >= 127) then Some(Ascii("&#x") + Numeral(ch, 16) + [SEMI])
    else None
  }

  function Unit(ch: CodeUnit, attribute: bool, asciiOnly: bool): Units {
    var e := Entity(ch, attribute, asciiOnly);
    if e.Some? then e.value else [ch]
  }

  /** The number of equal characters the string starts with. */
  function RunLength(s: Units): (n: nat)
    requires s != []
    ensures 1 <= n <= |s| && (forall k :: 0 <= k < n ==> s[k] == s[0]) && (n < |s| ==> s[n] != s[0])
  {
    if |s| == 1 || s[1] != s[0] then 1 else 1 + RunLength(s[1..])
  }

  lemma RunEnds(s: Units, n: nat)
    requires 1 <= n <= |s| && (forall k :: 0 <= k < n ==> s[k] == s[0]) && (n < |s| ==> s[n] != s[0])
    ensures RunLength(s) == n
  {
  }

  /** With no minimum set runs are not counted. */
  function Count(s: Units, min: nat): (n: nat)
    requires s != []
    ensures 1 <= n <= |s| && forall k :: 0 <= k < n ==> s[k] == s[0]
  {
    if min > 0 then RunLength(s) else 1
  }

  const MARK: Units := [BACKSLASH, LBRACKET, STAR]

  function Marker(n: nat): Units { MARK + Numeral(n, 10) + [RBRACKET] }

  /** The printed form: a character, and a count where it starts a run of at least min. */
  function Written(s: Units, min: nat, attribute: bool, asciiOnly: bool): Units {
    if s == [] then [] else
      var n := Count(s, min);
      var u := Unit(s[0], attribute, asciiOnly);
      if n >= min then u + (Marker(n) + Written(s[n..], min, attribute, asciiOnly))
      else u + Written(s[1..], min, attribute, asciiOnly)
  }

  class NodeWriter {
    var out: Units
    var asciiOnly: bool
    var abbrevRepeatedMinimum: nat

    constructor ()
      ensures out == [] && asciiOnly && abbrevRepeatedMinimum == 3
    {
      out, asciiOnly, abbrevRepeatedMinimum := [], true, 3;
    }

    /** The characters equal to the one at i, from there on. */
    method CountRun(data: Units, i: nat) returns (count: nat)
      requires i < |data|
      ensures count == Count(data[i..], abbrevRepeatedMinimum)
    {
      count := 1;
      if abbrevRepeatedMinimum > 0 {
        while i + count < |data| && data[i + count] == data[i]
          invariant 1 <= count && i + count <= |data|
          invariant forall k :: i <= k < i + count ==> data[k] == data[i]
        {
          count := count + 1;
        }
        RunEnds(data[i..], count);
      }
    }

    method WriteData(data: Units, attribute: bool)
      modifies this`out
      ensures out == old(out) + Written(data, abbrevRepeatedMinimum, attribute, asciiOnly)
      ensures Escaped(out[|old(out)|..], attribute, asciiOnly)
      ensures (forall c :: c in data ==> !Special(c, attribute, asciiOnly)) ==> AMP !in out[|old(out)|..]
    {
      hide Count, Entity, Marker, Written, Escaped;
      WrittenEscaped(data, abbrevRepeatedMinimum, attribute, asciiOnly);
      assert (out + Written(data, abbrevRepeatedMinimum, attribute, asciiOnly))[|out|..]
          == Written(data, abbrevRepeatedMinimum, attribute, asciiOnly);
      var start: nat, i: nat := 0, 0;
      NothingYet(out, data, abbrevRepeatedMinimum, attribute, asciiOnly);
      while i < |data|
        invariant start <= i <= |data|
        invariant out + data[start..i] + Written(data[i..], abbrevRepeatedMinimum, attribute, asciiOnly)
               == old(out) + Written(data, abbrevRepeatedMinimum, attribute, asciiOnly)
      {
        var count := CountRun(data, i);
        var ent := Entity(data[i], attribute, asciiOnly);
        OneMore(out, data, start, i, count, abbrevRepeatedMinimum, attribute, asciiOnly);
        if ent.Some? {
          if i > start { out := out + data[start..i]; } else { assert out + data[start..i] == out; }
          start := i + 1;
          out := out + ent.value;
        } else if count >= abbrevRepeatedMinimum {
          out := out + data[start..i + 1];
          start := i + 1;
        }
        if count >= abbrevRepeatedMinimum {
          out := out + Marker(count);
          i := i + (count - 1);
          start := i + 1;
        }
        i := i + 1;
      }
      AllThere(out, data, start, abbrevRepeatedMinimum, attribute, asciiOnly);
      if |data| > start { out := out + data[start..]; }
    }
  }

  lemma NothingYet(out: Units, data: Units, min: nat, attribute: bool, asciiOnly: bool)
    ensures out + data[0..0] + Written(data[0..], min, attribute, asciiOnly) == out + Written(data, min, attribute, asciiOnly)
  {
    assert data[0..] == data && out + data[0..0] == out;
  }

  lemma AllThere(out: Units, data: Units, start: nat, min: nat, attribute: bool, asciiOnly: bool)
    requires start <= |data|
    ensures out + data[start..|data|] + Written(data[|data|..], min, attribute, asciiOnly) == out + data[start..]
    ensures start == |data| ==> out + data[start..] == out
  {
  }

  /** One turn of the loop. */
  lemma OneMore(out: Units, data: Units, start: nat, i: nat, count: nat, min: nat, attribute: bool, asciiOnly: bool)
    requires start <= i < |data| && count == Count(data[i..], min)
    ensures var w := out + data[start..i] + Written(data[i..], min, attribute, asciiOnly);
      var ent := Entity(data[i], attribute, asciiOnly);
      var shown := if ent.Some? then out + data[start..i] + ent.value else out + data[start..i + 1];
      && (count >= min ==>
            w == shown + Marker(count) + data[i + count..i + count] + Written(data[i + count..], min, attribute, asciiOnly))
      && (count < min ==> w == shown + Written(data[i + 1..], min, attribute, asciiOnly))
      && (ent.Some? ==> shown + data[i + 1..i + 1] == shown)
  {
    hide Count, Entity, Marker, Numeral;
    var s, u := data[i..], Unit(data[i], attribute, asciiOnly);
    assert s[0] == data[i] && s[count..] == data[i + count..] && s[1..] == data[i + 1..];
    assert data[start..i + 1] == data[start..i] + [data[i]];
    var p := out + data[start..i];
    if count >= min {
      var rest := Written(data[i + count..], min, attribute, asciiOnly);
      assert p + (u + (Marker(count) + rest)) == p + u + Marker(count) + [] + rest;
    } else {
      var rest := Written(data[i + 1..], min, attribute, asciiOnly);
      assert p + (u + rest) == p + u + rest;
    }
  }

  // ---------------------------------------------------------------- what the markup may hold

  /** The characters that may not stand for themselves. */
  predicate Special(ch: CodeUnit, attribute: bool, asciiOnly: bool) {
    ch < 32 || ch == AMP || (if attribute then ch == 34 else ch == 60 || ch == 62) || (asciiOnly && ch >= 127)
  }

  predicate IsEntity(e: Units) {
    || e in [Ascii("&amp;"), Ascii("&quot;"), Ascii("&lt;"), Ascii("&gt;")]
    || (|e| >= 5 && e[..3] == Ascii("&#x") && e[|e| - 1] == SEMI && IsNumeral(e[3..|e| - 1], 16))
  }

  /** Markup that can stand in a text or in a quoted attribute value: no special character is there but the
      ampersand, and that only as the start of an entity. */
  ghost predicate Escaped(w: Units, attribute: bool, asciiOnly: bool) {
    && (forall c :: c in w && Special(c, attribute, asciiOnly) ==> c == AMP)
    && (forall i :: 0 <= i < |w| && w[i] == AMP ==> exists e :: IsEntity(e) && e <= w[i..])
  }

  lemma EscapedConcat(a: Units, b: Units, attribute: bool, asciiOnly: bool)
    requires Escaped(a, attribute, asciiOnly) && Escaped(b, attribute, asciiOnly)
    ensures Escaped(a + b, attribute, asciiOnly)
  {
    hide Special, IsEntity;
    var w := a + b;
    forall i | 0 <= i < |w| && w[i] == AMP ensures exists e :: IsEntity(e) && e <= w[i..] {
      if i < |a| {
        var e :| IsEntity(e) && e <= a[i..];
        assert w[i..] == a[i..] + b;
      } else {
        assert w[i..] == b[i - |a|..];
      }
    }
  }

  lemma NumeralIsPlain(n: nat, b: nat, attribute: bool, asciiOnly: bool)
    requires b == 10 || b == 16
    ensures forall c :: c in Numeral(n, b) ==> !Special(c, attribute, asciiOnly)
  {
    hide Numeral;
    NumeralValue(n, b);
    var ds := Numeral(n, b);
    forall c | c in ds ensures !Special(c, attribute, asciiOnly) {
      var i :| 0 <= i < |ds| && ds[i] == c;
      assert IsDigit(ds[i], b);
    }
  }

  lemma NamedEscaped(ch: CodeUnit, attribute: bool, asciiOnly: bool)
    requires ch == AMP || (attribute && ch == 34) || (!attribute && (ch == 60 || ch == 62))
    ensures Escaped(Unit(ch, attribute, asciiOnly), attribute, asciiOnly)
  {
    var u := Unit(ch, attribute, asciiOnly);
    assert IsEntity(u) && u <= u[0..];
    assert forall i :: 0 < i < |u| ==> u[i] != AMP;
  }

  lemma HexEscaped(ch: CodeUnit, attribute: bool, asciiOnly: bool)
    ensures Escaped(Ascii("&#x") + Numeral(ch, 16) + [SEMI], attribute, asciiOnly)
  {
    hide Numeral;
    NumeralIsPlain(ch, 16, attribute, asciiOnly);
    NumeralValue(ch, 16);
    var ds := Numeral(ch, 16);
    var u := Ascii("&#x") + ds + [SEMI];
    assert u[3..|u| - 1] == ds && u[..3] == Ascii("&#x");
    assert IsEntity(u) && u <= u[0..];
    forall i | 0 < i < |u| ensures !Special(u[i], attribute, asciiOnly) && u[i] != AMP {
      if 3 <= i < |u| - 1 { assert u[i] == ds[i - 3] && ds[i - 3] in ds; }
    }
  }

  lemma UnitEscaped(ch: CodeUnit, attribute: bool, asciiOnly: bool)
    ensures Escaped(Unit(ch, attribute, asciiOnly), attribute, asciiOnly)
    ensures !Special(ch, attribute, asciiOnly) ==> Unit(ch, attribute, asciiOnly) == [ch]
  {
    hide Escaped, Numeral;
    if ch == AMP || (attribute && ch == 34) || (!attribute && (ch == 60 || ch == 62)) {
      NamedEscaped(ch, attribute, asciiOnly);
    } else if Special(ch, attribute, asciiOnly) {
      HexEscaped(ch, attribute, asciiOnly);
    } else {
      PlainEscaped([ch], attribute, asciiOnly);
    }
  }

  lemma PlainEscaped(w: Units, attribute: bool, asciiOnly: bool)
    requires forall c :: c in w ==> !Special(c, attribute, asciiOnly)
    ensures Escaped(w, attribute, asciiOnly) && AMP !in w
  {
  }

  lemma MarkerIsPlain(n: nat, attribute: bool, asciiOnly: bool)
    ensures forall c :: c in Marker(n) ==> !Special(c, attribute, asciiOnly)
  {
    hide Numeral;
    NumeralIsPlain(n, 10, attribute, asciiOnly);
  }

  /** Whatever text is written: text content holds no < and no >, an attribute value no quotation mark, neither a
      control character nor, if only ASCII is wanted, anything from 127 on; every & starts an entity, and there
      is none unless the text has a special character. */
  lemma {:induction false} WrittenEscaped(s: Units, min: nat, attribute: bool, asciiOnly: bool)
    ensures Escaped(Written(s, min, attribute, asciiOnly), attribute, asciiOnly)
    ensures (forall c :: c in s ==> !Special(c, attribute, asciiOnly)) ==> AMP !in Written(s, min, attribute, asciiOnly)
    decreases |s|
  {
    hide Count, Special, Escaped, Unit, Marker;
    if s == [] {
      PlainEscaped([], attribute, asciiOnly);
    } else {
      var n, u := Count(s, min), Unit(s[0], attribute, asciiOnly);
      UnitEscaped(s[0], attribute, asciiOnly);
      if !Special(s[0], attribute, asciiOnly) { PlainEscaped(u, attribute, asciiOnly); }
      if n >= min {
        var rest := Written(s[n..], min, attribute, asciiOnly);
        MarkerIsPlain(n, attribute, asciiOnly);
        PlainEscaped(Marker(n), attribute, asciiOnly);
        WrittenEscaped(s[n..], min, attribute, asciiOnly);
        EscapedConcat(Marker(n), rest, attribute, asciiOnly);
        EscapedConcat(u, Marker(n) + rest, attribute, asciiOnly);
      } else {
        WrittenEscaped(s[1..], min, attribute, asciiOnly);
        EscapedConcat(u, Written(s[1..], min, attribute, asciiOnly), attribute, asciiOnly);
      }
    }
  }

  function Copies(ch: CodeUnit, n: nat): (s: Units)
    ensures |s| == n && forall i :: 0 <= i < n ==> s[i] == ch
  {
    seq(n, _ => ch)
  }

  /** A run ends where another character follows. */
  lemma RunStays(a: Units, x: Units)
    requires a != [] && x != [] && a[|a| - 1] != x[0]
    ensures RunLength(a + x) == RunLength(a)
  {
    var n := RunLength(a);
    assert forall k :: 0 <= k < |a| ==> (a + x)[k] == a[k];
    assert (a + x)[|a|] == x[0];
    RunEnds(a + x, n);
  }

  lemma CountStays(a: Units, x: Units, min: nat)
    requires a != [] && (x != [] ==> a[|a| - 1] != x[0])
    ensures Count(a + x, min) == Count(a, min)
  {
    if x == [] { assert a + x == a; } else { RunStays(a, x); }
  }

  lemma WrittenHead(s: Units, min: nat, attribute: bool, asciiOnly: bool)
    requires s != []
    ensures var n := Count(s, min);
      Written(s, min, attribute, asciiOnly) == Unit(s[0], attribute, asciiOnly) +
        ((if n >= min then Marker(n) else []) + Written(s[if n >= min then n else 1..], min, attribute, asciiOnly))
  {
    hide Count, Unit, Marker;
    var rest := Written(s[1..], min, attribute, asciiOnly);
    assert [] + rest == rest;
  }

  /** Text is written run by run. */
  lemma {:induction false} WrittenConcat(a: Units, x: Units, min: nat, attribute: bool, asciiOnly: bool)
    requires a != [] && x != [] ==> a[|a| - 1] != x[0]
    ensures Written(a + x, min, attribute, asciiOnly)
         == Written(a, min, attribute, asciiOnly) + Written(x, min, attribute, asciiOnly)
    decreases |a|
  {
    hide Count, Unit, Marker;
    if a == [] {
      assert a + x == x;
    } else {
      hide Written;
      var s, n := a + x, Count(a, min);
      CountStays(a, x, min);
      WrittenHead(s, min, attribute, asciiOnly);
      WrittenHead(a, min, attribute, asciiOnly);
      var k := if n >= min then n else 1;
      assert s[k..] == a[k..] + x;
      WrittenConcat(a[k..], x, min, attribute, asciiOnly);
      Regroup(Unit(a[0], attribute, asciiOnly), if n >= min then Marker(n) else [],
        Written(a[k..], min, attribute, asciiOnly), Written(x, min, attribute, asciiOnly));
    }
  }

  lemma Regroup(u: Units, m: Units, r: Units, x: Units)
    ensures u + (m + (r + x)) == (u + (m + r)) + x
  {
  }

  lemma {:induction false} RunWritten(c: CodeUnit, n: nat, min: nat, attribute: bool, asciiOnly: bool)
    requires !Special(c, attribute, asciiOnly) && n > 0 && min > 0
    ensures Written(Copies(c, n), min, attribute, asciiOnly) == if n >= min then [c] + Marker(n) else Copies(c, n)
    decreases n
  {
    hide Unit, Special, Marker, RunLength;
    var s := Copies(c, n);
    UnitEscaped(c, attribute, asciiOnly);
    RunEnds(s, n);
    if n >= min {
      assert s[n..] == [];
      assert Marker(n) + [] == Marker(n);
    } else if n > 1 {
      assert s[1..] == Copies(c, n - 1) && s == [c] + s[1..];
      RunWritten(c, n - 1, min, attribute, asciiOnly);
    } else {
      assert s == [c] && s[1..] == [];
    }
  }

  /** A character that is not special is written as itself wherever it stands, a run of it as so many, or as
      one with their count if there are at least min of them; what is around it is written as by itself. */
  lemma PlainCharactersStay(a: Units, c: CodeUnit, n: nat, b: Units, min: nat, attribute: bool, asciiOnly: bool)
    requires !Special(c, attribute, asciiOnly) && n > 0 && min > 0
    requires (a != [] ==> a[|a| - 1] != c) && (b != [] ==> b[0] != c)
    ensures Written(a + (Copies(c, n) + b), min, attribute, asciiOnly) == Written(a, min, attribute, asciiOnly) +
      ((if n >= min then [c] + Marker(n) else Copies(c, n)) + Written(b, min, attribute, asciiOnly))
  {
    hide Special, Written;
    var run := Copies(c, n);
    assert (run + b)[0] == c && run[n - 1] == c;
    WrittenConcat(a, run + b, min, attribute, asciiOnly);
    WrittenConcat(run, b, min, attribute, asciiOnly);
    RunWritten(c, n, min, attribute, asciiOnly);
  }

  // ---------------------------------------------------------------- reading it back

  /** The first index of c, or the length. */
  function IndexOf(t: Units, c: CodeUnit): (i: nat)
    ensures i <= |t|
  {
    if t == [] || t[0] == c then 0 else 1 + IndexOf(t[1..], c)
  }

  lemma {:induction false} IndexOfFirst(a: Units, c: CodeUnit, rest: Units)
    requires c !in a
    ensures IndexOf(a + [c] + rest, c) == |a|
  {
    var t := a + [c] + rest;
    if a != [] {
      assert t[0] == a[0] && t[1..] == a[1..] + [c] + rest;
      IndexOfFirst(a[1..], c, rest);
    }
  }

  /** What an entity stands for. */
  function EntityValue(name: Units): Option<CodeUnit> {
    if name == Ascii("amp") then Some(AMP)
    else if name == Ascii("quot") then Some(34)
    else if name == Ascii("lt") then Some(60)
    else if name == Ascii("gt") then Some(62)
    else if |name| >= 2 && name[..2] == Ascii("#x") && IsNumeral(name[2..], 16) && Value(name[2..], 16) < 0x1_0000
    then Some(Value(name[2..], 16))
    else None
  }

  /** The first character of the text, and what comes after it. */
  function ReadUnit(t: Units): (r: Option<(CodeUnit, Units)>)
    requires t != []
    ensures r.Some? ==> |r.value.1| < |t|
  {
    if t[0] != AMP then Some((t[0], t[1..]))
    else
      var j := IndexOf(t, SEMI);
      if j == |t| || j == 0 then None
      else
        var e := EntityValue(t[1..j]);
        if e.Some? then Some((e.value, t[j + 1..])) else None
  }

  /** A count may start here. */
  predicate Marked(t: Units) { MARK <= t }

  /** The digits in front of the closing bracket, if there is nothing else in front of it. */
  function DigitsTo(t: Units): (r: Option<Units>)
    ensures r.Some? ==> |r.value| < |t| && forall i :: 0 <= i < |r.value| ==> IsDigit(r.value[i], 10)
  {
    if t == [] then None
    else if t[0] == RBRACKET then Some([])
    else if IsDigit(t[0], 10) then Prefixed([t[0]], DigitsTo(t[1..]))
    else None
  }

  /** The digits are a number as it is printed. */
  predicate Printed(ds: Units) { ds != [] && (|ds| == 1 || ds[0] != 48) }

  /** The count that starts here and what comes after it, if a whole `\[*n]` does, for an n that the printer
      writes; otherwise the characters stand for themselves. */
  function ReadMarker(t: Units, min: nat): (r: Option<(nat, Units)>)
    ensures r.Some? ==> r.value.0 >= min && |r.value.1| < |t|
  {
    if !Marked(t) then None else
      var ds := DigitsTo(t[3..]);
      if ds.Some? && Printed(ds.value) && Value(ds.value, 10) >= min
      then Some((Value(ds.value, 10), t[3 + |ds.value| + 1..]))
      else None
  }

  /** Expands each count into copies of the character before it, and entities into characters. */
  function Read(t: Units, min: nat): Option<Units>
    decreases |t|
  {
    if t == [] then Some([]) else
      var u := ReadUnit(t);
      if u.None? then None
      else
        var m := ReadMarker(u.value.1, min);
        if m.Some? then Prefixed(Copies(u.value.0, m.value.0), Read(m.value.1, min))
        else Prefixed([u.value.0], Read(u.value.1, min))
  }

  function Prefixed(s: Units, r: Option<Units>): Option<Units> {
    if r.Some? then Some(s + r.value) else None
  }

  lemma ReadNamed(name: Units, ch: CodeUnit, rest: Units)
    requires SEMI !in name && EntityValue(name) == Some(ch)
    ensures ReadUnit([AMP] + name + [SEMI] + rest) == Some((ch, rest))
  {
    hide EntityValue;
    var t := [AMP] + name + [SEMI] + rest;
    IndexOfFirst([AMP] + name, SEMI, rest);
    assert t[1..|name| + 1] == name && t[|name| + 2..] == rest;
  }

  lemma NamedEntities()
    ensures Ascii("&amp;") == [AMP] + Ascii("amp") + [SEMI] && EntityValue(Ascii("amp")) == Some(AMP) && SEMI !in Ascii("amp")
    ensures Ascii("&quot;") == [AMP] + Ascii("quot") + [SEMI] && EntityValue(Ascii("quot")) == Some(34) && SEMI !in Ascii("quot")
    ensures Ascii("&lt;") == [AMP] + Ascii("lt") + [SEMI] && EntityValue(Ascii("lt")) == Some(60) && SEMI !in Ascii("lt")
    ensures Ascii("&gt;") == [AMP] + Ascii("gt") + [SEMI] && EntityValue(Ascii("gt")) == Some(62) && SEMI !in Ascii("gt")
  {
    assert Ascii("quot") != Ascii("amp") && Ascii("lt") != Ascii("amp") && Ascii("gt") != Ascii("amp");
    assert Ascii("quot")[0] == 113 && Ascii("lt")[0] == 108 && Ascii("gt")[0] == 103;
  }

  lemma HexEntity(ch: CodeUnit)
    ensures Ascii("&#x") + Numeral(ch, 16) + [SEMI] == [AMP] + (Ascii("#x") + Numeral(ch, 16)) + [SEMI]
    ensures EntityValue(Ascii("#x") + Numeral(ch, 16)) == Some(ch) && SEMI !in Ascii("#x") + Numeral(ch, 16)
  {
    hide Numeral, Value, IsNumeral, EntityValue;
    NumeralValue(ch, 16);
    NumeralHasNone(ch, 16, SEMI);
    HexValue(Numeral(ch, 16));
    assert Ascii("&#x") == [AMP] + Ascii("#x");
    assert ([AMP] + Ascii("#x")) + Numeral(ch, 16) == [AMP] + (Ascii("#x") + Numeral(ch, 16));
  }

  lemma HexValue(ds: Units)
    requires IsNumeral(ds, 16) && Value(ds, 16) < 0x1_0000
    ensures EntityValue(Ascii("#x") + ds) == Some(Value(ds, 16))
  {
    hide Value, IsNumeral;
    var name := Ascii("#x") + ds;
    assert name[..2] == Ascii("#x") && name[2..] == ds;
    assert name[0] == 35 && Ascii("amp")[0] == 97 && Ascii("quot")[0] == 113 && Ascii("lt")[0] == 108 && Ascii("gt")[0] == 103;
  }

  /** A written character is read as itself. */
  lemma ReadsUnit(ch: CodeUnit, attribute: bool, asciiOnly: bool, rest: Units)
    ensures Unit(ch, attribute, asciiOnly) != []
    ensures ReadUnit(Unit(ch, attribute, asciiOnly) + rest) == Some((ch, rest))
  {
    hide EntityValue, ReadUnit, Numeral;
    NamedEntities();
    HexEntity(ch);
    var e := Entity(ch, attribute, asciiOnly);
    if e.None? {
      ReadsPlain(ch, rest);
    } else if ch == AMP { ReadNamed(Ascii("amp"), ch, rest); }
    else if attribute && ch == 34 { ReadNamed(Ascii("quot"), ch, rest); }
    else if !attribute && ch == 60 { ReadNamed(Ascii("lt"), ch, rest); }
    else if !attribute && ch == 62 { ReadNamed(Ascii("gt"), ch, rest); }
    else { ReadNamed(Ascii("#x") + Numeral(ch, 16), ch, rest); }
  }

  lemma ReadsPlain(ch: CodeUnit, rest: Units)
    requires ch != AMP
    ensures ReadUnit([ch] + rest) == Some((ch, rest))
  {
    assert ([ch] + rest)[1..] == rest;
  }

  lemma {:induction false} NumeralIsPrinted(n: nat)
    ensures Printed(Numeral(n, 10)) && (n > 0 ==> Numeral(n, 10)[0] != 48)
  {
    if n >= 10 { NumeralIsPrinted(n / 10); }
  }

  lemma {:induction false} DigitsToBracket(ds: Units, rest: Units)
    requires forall i :: 0 <= i < |ds| ==> IsDigit(ds[i], 10)
    ensures DigitsTo(ds + ([RBRACKET] + rest)) == Some(ds)
  {
    var t := ds + ([RBRACKET] + rest);
    if ds != [] {
      assert t[0] == ds[0] && t[1..] == ds[1..] + ([RBRACKET] + rest);
      DigitsToBracket(ds[1..], rest);
      assert [ds[0]] + ds[1..] == ds;
    }
  }

  lemma ReadsMarker(n: nat, min: nat, rest: Units)
    requires n >= min
    ensures ReadMarker(Marker(n) + rest, min) == Some((n, rest))
  {
    hide Numeral, Value, DigitsTo, Printed;
    var t, ds := Marker(n) + rest, Numeral(n, 10);
    NumeralValue(n, 10);
    NumeralIsPrinted(n);
    assert t[..3] == MARK;
    assert t[3..] == ds + ([RBRACKET] + rest);
    DigitsToBracket(ds, rest);
    assert t[3 + |ds| + 1..] == rest;
  }

  // ---------------------------------------------------------------- when reading undoes writing

  /** The digits in front of the closing bracket, if all of them are printed as they stand: none of them
      belongs to a run that is abbreviated. */
  function ShownDigits(t: Units, min: nat): (r: Option<Units>)
    ensures r.Some? ==> forall i :: 0 <= i < |r.value| ==> IsDigit(r.value[i], 10)
  {
    if t == [] then None
    else if t[0] == RBRACKET then Some([])
    else if IsDigit(t[0], 10) && Count(t, min) < min then Prefixed([t[0]], ShownDigits(t[1..], min))
    else None
  }

  /** The text itself has the characters of a count here. */
  predicate Miscounts(t: Units, min: nat) {
    && Marked(t)
    && var ds := ShownDigits(t[3..], min);
    && ds.Some? && Printed(ds.value)
    && Value(ds.value, 10) >= min
  }

  /** No character that is written out by itself is followed by the characters of a count. */
  predicate Clear(s: Units, min: nat) {
    s == [] ||
    var n := Count(s, min);
    if n >= min then Clear(s[n..], min) else !Miscounts(s[1..], min) && Clear(s[1..], min)
  }

  predicate StartsWith(t: Units, c: CodeUnit) { t != [] && t[0] == c }

  /** The characters of the mark are written as themselves, and no entity starts with one. */
  lemma FirstWritten(s: Units, c: CodeUnit, min: nat, attribute: bool, asciiOnly: bool)
    requires c in MARK
    ensures StartsWith(Written(s, min, attribute, asciiOnly), c) <==> StartsWith(s, c)
    ensures StartsWith(s, c) && Count(s, min) < min ==>
      Written(s, min, attribute, asciiOnly)[1..] == Written(s[1..], min, attribute, asciiOnly)
    ensures StartsWith(s, c) && Count(s, min) >= min ==>
      Written(s, min, attribute, asciiOnly)[1..]
      == Marker(Count(s, min)) + Written(s[Count(s, min)..], min, attribute, asciiOnly)
  {
    hide Numeral, Count, Marker;
    if s != [] {
      UnitStarts(s[0], attribute, asciiOnly);
    }
  }

  lemma UnitStarts(ch: CodeUnit, attribute: bool, asciiOnly: bool)
    ensures Unit(ch, attribute, asciiOnly) == [ch] || (StartsWith(Unit(ch, attribute, asciiOnly), AMP) && ch !in MARK)
  {
    hide Numeral;
  }

  lemma SecondWritten(s: Units, c: CodeUnit, d: CodeUnit, min: nat, attribute: bool, asciiOnly: bool)
    requires min >= 2 && StartsWith(s, c) && c in MARK && d in MARK && c != d && d != BACKSLASH
    ensures StartsWith(Written(s, min, attribute, asciiOnly), c)
    ensures StartsWith(Written(s, min, attribute, asciiOnly)[1..], d) <==> StartsWith(s[1..], d)
    ensures StartsWith(s[1..], d) ==> Written(s, min, attribute, asciiOnly)[1..] == Written(s[1..], min, attribute, asciiOnly)
  {
    FirstWritten(s, c, min, attribute, asciiOnly);
    if Count(s, min) < min {
      hide Written;
      FirstWritten(s[1..], d, min, attribute, asciiOnly);
    } else {
      hide Written, Numeral;
      assert s[1] == c;
      assert StartsWith(Marker(Count(s, min)), BACKSLASH);
    }
  }

  lemma MarkedByParts(t: Units)
    ensures Marked(t) <==> StartsWith(t, BACKSLASH) && StartsWith(t[1..], LBRACKET) && StartsWith(t[1..][1..], STAR)
  {
    if StartsWith(t, BACKSLASH) && StartsWith(t[1..], LBRACKET) && StartsWith(t[1..][1..], STAR) {
      assert t[..3] == MARK;
    }
  }

  /** The written form starts with `\[*` just when the text does. */
  lemma MarkedWritten(s: Units, min: nat, attribute: bool, asciiOnly: bool)
    requires min >= 2
    ensures Marked(Written(s, min, attribute, asciiOnly)) <==> Marked(s)
  {
    hide Written, Marked, StartsWith;
    MarkedByParts(s);
    MarkedByParts(Written(s, min, attribute, asciiOnly));
    FirstWritten(s, BACKSLASH, min, attribute, asciiOnly);
    if StartsWith(s, BACKSLASH) {
      SecondWritten(s, BACKSLASH, LBRACKET, min, attribute, asciiOnly);
      if StartsWith(s[1..], LBRACKET) { SecondWritten(s[1..], LBRACKET, STAR, min, attribute, asciiOnly); }
    }
  }

  lemma WrittenDigit(t: Units, min: nat, attribute: bool, asciiOnly: bool)
    requires t != []
    ensures var w := Written(t, min, attribute, asciiOnly);
      && w != []
      && (w[0] == RBRACKET <==> t[0] == RBRACKET) && (IsDigit(w[0], 10) <==> IsDigit(t[0], 10))
      && (IsDigit(t[0], 10) ==> w[0] == t[0])
      && (IsDigit(t[0], 10) && Count(t, min) < min ==> w[1..] == Written(t[1..], min, attribute, asciiOnly))
      && (IsDigit(t[0], 10) && Count(t, min) >= min ==> StartsWith(w[1..], BACKSLASH))
  {
    hide Numeral, Count;
  }

  lemma {:induction false} DigitsWritten(t: Units, min: nat, attribute: bool, asciiOnly: bool)
    ensures DigitsTo(Written(t, min, attribute, asciiOnly)) == ShownDigits(t, min)
    decreases |t|
  {
    hide Written, Count;
    if t == [] {
      assert Written(t, min, attribute, asciiOnly) == [] by { NothingIsWritten(min, attribute, asciiOnly); }
    } else {
      WrittenDigit(t, min, attribute, asciiOnly);
      if IsDigit(t[0], 10) && Count(t, min) < min { DigitsWritten(t[1..], min, attribute, asciiOnly); }
    }
  }

  lemma NothingIsWritten(min: nat, attribute: bool, asciiOnly: bool)
    ensures Written([], min, attribute, asciiOnly) == []
  {
  }

  /** Behind the mark the written form goes on with the text, or with a count of stars. */
  lemma BehindMark(t: Units, min: nat, attribute: bool, asciiOnly: bool)
    requires min >= 2 && Marked(t) && Marked(Written(t, min, attribute, asciiOnly))
    ensures var w := Written(t, min, attribute, asciiOnly);
      DigitsTo(w[3..]) == ShownDigits(t[3..], min)
  {
    hide Written, Numeral, Count, DigitsTo, ShownDigits;
    var w := Written(t, min, attribute, asciiOnly);
    MarkedByParts(t);
    SecondWritten(t, BACKSLASH, LBRACKET, min, attribute, asciiOnly);
    SecondWritten(t[1..], LBRACKET, STAR, min, attribute, asciiOnly);
    FirstWritten(t[2..], STAR, min, attribute, asciiOnly);
    assert t[1..][1..] == t[2..] && t[2..][1..] == t[3..] && w[1..][1..] == w[2..] && w[2..][1..] == w[3..];
    if Count(t[2..], min) < min {
      DigitsWritten(t[3..], min, attribute, asciiOnly);
    } else {
      assert t[2..][1] == t[2..][0];
      NoDigits(w[3..], BACKSLASH);
      NoShownDigits(t[3..], min);
    }
  }

  lemma NoDigits(w: Units, c: CodeUnit)
    requires StartsWith(w, c) && c != RBRACKET && !IsDigit(c, 10)
    ensures DigitsTo(w) == None
  {
  }

  lemma NoShownDigits(t: Units, min: nat)
    requires StartsWith(t, STAR)
    ensures ShownDigits(t, min) == None
  {
  }

  /** The reader takes what is written after a character for a count just when the text has one there. */
  lemma ReadsCountIff(t: Units, min: nat, attribute: bool, asciiOnly: bool)
    requires min >= 2
    ensures ReadMarker(Written(t, min, attribute, asciiOnly), min).Some? <==> Miscounts(t, min)
  {
    hide Written, DigitsTo, ShownDigits, Value, Printed;
    MarkedWritten(t, min, attribute, asciiOnly);
    if Marked(t) {
      BehindMark(t, min, attribute, asciiOnly);
    }
  }

  lemma PrefixedIff(a: Units, b: Units, r: Option<Units>)
    ensures Prefixed(a, r) == Some(a + b) <==> r == Some(b)
  {
    if r.Some? && a + r.value == a + b {
      assert (a + r.value)[|a|..] == r.value && (a + b)[|a|..] == b;
    }
  }

  /** Reading undoes writing exactly for the texts in which no count could be mistaken: for every minimum,
      in attributes and outside, with and without entities for non-ASCII characters. */
  lemma {:induction false} ReadsBackIff(s: Units, min: nat, attribute: bool, asciiOnly: bool)
    ensures Read(Written(s, min, attribute, asciiOnly), min) == Some(s) <==> Clear(s, min)
    decreases |s|
  {
    hide Unit, Marker, ReadUnit, ReadMarker, Miscounts, Count, Prefixed;
    if s != [] {
      var n := Count(s, min);
      if n >= min {
        var rest := Written(s[n..], min, attribute, asciiOnly);
        ReadsUnit(s[0], attribute, asciiOnly, Marker(n) + rest);
        ReadsMarker(n, min, rest);
        ReadsBackIff(s[n..], min, attribute, asciiOnly);
        assert s == Copies(s[0], n) + s[n..];
        PrefixedIff(Copies(s[0], n), s[n..], Read(rest, min));
      } else {
        var rest := Written(s[1..], min, attribute, asciiOnly);
        ReadsUnit(s[0], attribute, asciiOnly, rest);
        ReadsCountIff(s[1..], min, attribute, asciiOnly);
        if Miscounts(s[1..], min) {
          MisreadsMarked(s, min, rest);
        } else {
          ReadsBackIff(s[1..], min, attribute, asciiOnly);
          assert s == [s[0]] + s[1..];
          PrefixedIff([s[0]], s[1..], Read(rest, min));
        }
      }
    }
  }

  lemma RunAtLeast(s: Units, c: nat)
    requires s != [] && Copies(s[0], c) <= s
    ensures c <= RunLength(s)
  {
    forall k | 0 <= k < c ensures s[k] == s[0] { assert s[k] == Copies(s[0], c)[k]; }
  }

  /** A count that was not meant gives more copies than the run is long. */
  lemma MisreadsMarked(s: Units, min: nat, t: Units)
    requires s != [] && Count(s, min) < min
    ensures var m := ReadMarker(t, min); m.Some? ==> Prefixed(Copies(s[0], m.value.0), Read(m.value.1, min)) != Some(s)
  {
    hide Read, ReadMarker;
    if c :| c >= min && Copies(s[0], c) <= s {
      RunAtLeast(s, c);
    }
  }

  /** A text in which `\[*` does not occur is clear. */
  lemma {:induction false} UnmarkedIsClear(s: Units, min: nat)
    requires forall k :: 0 <= k <= |s| ==> !Marked(s[k..])
    ensures Clear(s, min)
    decreases |s|
  {
    hide Count, Marked;
    if s != [] {
      var n := if Count(s, min) >= min then Count(s, min) else 1;
      forall k | 0 <= k <= |s[n..]| ensures !Marked(s[n..][k..]) { assert s[n..][k..] == s[n + k..]; }
      UnmarkedIsClear(s[n..], min);
    }
  }

  /** Every text without `\[*` comes back. */
  lemma ReadsBack(s: Units, min: nat, attribute: bool, asciiOnly: bool)
    requires forall k :: 0 <= k <= |s| ==> !Marked(s[k..])
    ensures Read(Written(s, min, attribute, asciiOnly), min) == Some(s)
  {
    UnmarkedIsClear(s, min);
    ReadsBackIff(s, min, attribute, asciiOnly);
  }

  /** Of texts that print alike at most one is clear. */
  lemma ClearTextsDiffer(s: Units, t: Units, min: nat, attribute: bool, asciiOnly: bool)
    requires Clear(s, min) && Clear(t, min) && s != t
    ensures Written(s, min, attribute, asciiOnly) != Written(t, min, attribute, asciiOnly)
  {
    ReadsBackIff(s, min, attribute, asciiOnly);
    ReadsBackIff(t, min, attribute, asciiOnly);
  }

  /** No reader could give both back: at the minimum of three a run of three of any character is printed like
      that character followed by the text of the count. */
  lemma RunAndItsCountCollide(ch: CodeUnit, attribute: bool, asciiOnly: bool)
    ensures Written([ch, ch, ch], 3, attribute, asciiOnly) == Written([ch] + Marker(3), 3, attribute, asciiOnly)
  {
    var run, mark := [ch, ch, ch], Marker(3);
    assert mark == [BACKSLASH, LBRACKET, STAR, 51, RBRACKET];
    RunEnds(run, 3);
    assert run[3..] == [];
    var t := [ch] + mark;
    assert t[1] == BACKSLASH && t[2] == LBRACKET;
    RunEnds(t, if ch == BACKSLASH then 2 else 1);
    assert t[1..] == mark;
    AloneWritten(mark, attribute, asciiOnly);
  }

  lemma WritesAlone(s: Units, attribute: bool, asciiOnly: bool)
    requires s != [] && (|s| == 1 || s[1] != s[0]) && Unit(s[0], attribute, asciiOnly) == [s[0]]
    ensures Written(s, 3, attribute, asciiOnly) == [s[0]] + Written(s[1..], 3, attribute, asciiOnly)
  {
    hide Unit, RunLength;
    RunEnds(s, 1);
  }

  lemma AloneWritten(mark: Units, attribute: bool, asciiOnly: bool)
    requires mark == [BACKSLASH, LBRACKET, STAR, 51, RBRACKET]
    ensures Written(mark, 3, attribute, asciiOnly) == mark
  {
    hide Written;
    assert mark[1..] == [LBRACKET, STAR, 51, RBRACKET] && mark[1..][1..] == [STAR, 51, RBRACKET];
    assert mark[2..] == [STAR, 51, RBRACKET] && mark[2..][1..] == [51, RBRACKET];
    assert mark[3..] == [51, RBRACKET] && mark[3..][1..] == [RBRACKET] && [RBRACKET][1..] == [];
    WritesAlone(mark, attribute, asciiOnly);
    WritesAlone(mark[1..], attribute, asciiOnly);
    WritesAlone(mark[2..], attribute, asciiOnly);
    WritesAlone(mark[3..], attribute, asciiOnly);
    WritesAlone([RBRACKET], attribute, asciiOnly);
    assert Written([], 3, attribute, asciiOnly) == [] by { NothingWritten(attribute, asciiOnly); }
  }

  lemma NothingWritten(attribute: bool, asciiOnly: bool)
    ensures Written([], 3, attribute, asciiOnly) == []
  {
  }

  /** The text with entities only. */
  function Plainly(s: Units, attribute: bool, asciiOnly: bool): Units {
    if s == [] then [] else Unit(s[0], attribute, asciiOnly) + Plainly(s[1..], attribute, asciiOnly)
  }

  /** A minimum of 0, which is to turn abbreviation off, puts a count of five characters after every one. */
  lemma {:induction false} ZeroCountsEveryCharacter(s: Units, attribute: bool, asciiOnly: bool)
    ensures |Written(s, 0, attribute, asciiOnly)| == |Plainly(s, attribute, asciiOnly)| + 5 * |s|
    ensures Written(s, 0, attribute, asciiOnly) == Plainly(s, attribute, asciiOnly) <==> s == []
  {
    hide Unit, Numeral;
    if s != [] {
      ZeroCountsEveryCharacter(s[1..], attribute, asciiOnly);
      assert |Marker(1)| == 5 by { OneIsOneDigit(); }
    }
  }

  lemma OneIsOneDigit()
    ensures |Numeral(1, 10)| == 1
  {
  }

  /** A minimum longer than the text does turn it off. */
  lemma {:induction false} LargeMinimumTurnsOff(s: Units, min: nat, attribute: bool, asciiOnly: bool)
    requires min > |s|
    ensures Written(s, min, attribute, asciiOnly) == Plainly(s, attribute, asciiOnly)
  {
    hide Unit, Numeral;
    if s != [] { LargeMinimumTurnsOff(s[1..], min, attribute, asciiOnly); }
  }
}
