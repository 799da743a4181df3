/** Inserting and deleting lines in a scroll region (IL and DL, sections 8.3.67 and 8.3.32 of ECMA-48), on
    a home of text and breaks.  Built from `moveTo`, `eraseCharactersRight` and newlines put in or taken out. */
module LineEdit {
  import opened Dom
  import opened Terminal

  const MAX_INT: nat := 0x7fff_ffff

  // ---------------------------------------------------------------- lines

  /** The length of the first line. */
  function LineEnd(items: seq<Item>): (j: nat)
    ensures j <= |items| && (forall i :: 0 <= i < j ==> !EndsLine(items[i])) && (j < |items| ==> EndsLine(items[j]))
  {
    if items == [] || EndsLine(items[0]) then 0 else 1 + LineEnd(items[1..])
  }

  function LineFrom(items: seq<Item>, i: nat): seq<Item>
    decreases i
  {
    var j := LineEnd(items);
    if i == 0 then items[..j] else if j == |items| then [] else LineFrom(items[j + 1..], i - 1)
  }

  /** Line i, without its end; a line that is not there reads as blank. */
  function LineAt(items: seq<Item>, i: nat): seq<Item> { LineFrom(items, i) }

  /** Text and breaks only, without tab, carriage return and form feed. */
  predicate FlatItem(i: Item) { i.Brk? || (i.Ch? && i.c != '\t' && i.c != '\r' && i.c != '\U{0C}') }

  predicate FlatItems(items: seq<Item>) { forall i :: i in items ==> FlatItem(i) }

  /** No line starts with a character without width, so column 0 is the start of a line. */
  ghost predicate StartsSolid(items: seq<Item>) {
    forall i: nat :: LineAt(items, i) != [] ==> LineAt(items, i)[0] != Ch('\U{200B}')
  }

  predicate AtStart(b: seq<Item>) { b == [] || EndsLine(b[|b| - 1]) }

  predicate NoEnds(x: seq<Item>) { forall i :: 0 <= i < |x| ==> !EndsLine(x[i]) }

  /** The first line of a document and the others. */
  lemma LineAtCons(x: seq<Item>, e: Item, rest: seq<Item>, i: nat)
    requires NoEnds(x) && EndsLine(e)
    ensures LineAt(x + [e] + rest, i) == if i == 0 then x else LineAt(rest, i - 1)
  {
    var s := x + [e] + rest;
    assert s[|x|] == e && s[..|x|] == x && s[|x| + 1..] == rest;
    LineEndIs(s, |x|);
  }

  lemma {:induction false} LineEndIs(items: seq<Item>, j: nat)
    requires j < |items| && EndsLine(items[j]) && forall i :: 0 <= i < j ==> !EndsLine(items[i])
    ensures LineEnd(items) == j
  {
  }

  lemma OneLine(x: seq<Item>, i: nat)
    requires NoEnds(x)
    ensures LineAt(x, i) == if i == 0 then x else []
  {
    assert LineEnd(x) == |x|;
    assert x[..|x|] == x;
  }

  lemma {:induction false} NoEndNoLine(p: Place, x: seq<Item>)
    requires NoEnds(x)
    ensures PlaceAfter(p, x).line == p.line
    decreases |x|
  {
    if x != [] {
      NoEndNoLine(Move(p, x[0]), x[1..]);
    }
  }

  lemma PlaceAfterCons(x: seq<Item>, e: Item, rest: seq<Item>)
    requires NoEnds(x) && EndsLine(e)
    ensures PlaceAfter(ORIGIN, x + [e] + rest).line == 1 + PlaceAfter(ORIGIN, rest).line
  {
    hide PlaceAfter;
    PlaceAfterConcat(ORIGIN, x + [e], rest);
    PlaceAfterConcat(ORIGIN, x, [e]);
    PlaceAfterOne(PlaceAfter(ORIGIN, x), e);
    NoEndNoLine(ORIGIN, x);
    PlaceShift(Place(1, 0), ORIGIN, 1, rest);
  }

  /** Lines before a line start come from what is before it, the others from what is after it. */
  lemma {:induction false} LineAtSplit(b: seq<Item>, a: seq<Item>, i: nat)
    requires AtStart(b)
    ensures var n := PlaceAfter(ORIGIN, b).line;
      LineAt(b + a, i) == if i < n then LineAt(b, i) else LineAt(a, i - n)
    decreases |b|
  {
    hide PlaceAfter, LineFrom;
    if b == [] {
      assert b + a == a;
      NoEndNoLine(ORIGIN, b);
    } else {
      var j := LineEnd(b);
      assert j < |b|;
      var x, e, rest := b[..j], b[j], b[j + 1..];
      assert b == x + [e] + rest && b + a == x + [e] + (rest + a);
      LineAtCons(x, e, rest, i);
      LineAtCons(x, e, rest + a, i);
      PlaceAfterCons(x, e, rest);
      if i > 0 {
        LineAtSplit(rest, a, i - 1);
      }
    }
  }

  lemma StartIsSolid(init: seq<Item>, i: Item, a: seq<Item>)
    requires AtStart(init) && StartsSolid(init + ([i] + a)) && !EndsLine(i)
    ensures i != Ch('\U{200B}')
  {
    var n := PlaceAfter(ORIGIN, init).line;
    LineAtSplit(init, [i] + a, n);
    assert LineAt([i] + a, 0)[0] == i;
    assert LineAt(init + ([i] + a), n) != [];
  }

  /** In such a document column 0 is the start of a line. */
  lemma {:induction false} ColumnZeroIsStart(b: seq<Item>, a: seq<Item>)
    requires FlatItems(b + a) && StartsSolid(b + a) && PlaceAfter(ORIGIN, b).column == 0
    ensures AtStart(b)
    decreases |b|
  {
    if b != [] {
      var init, last := b[..|b| - 1], b[|b| - 1];
      assert b == init + [last];
      PlaceAfterConcat(ORIGIN, init, [last]);
      PlaceAfterOne(PlaceAfter(ORIGIN, init), last);
      assert last in b + a;
      if last == Ch('\U{200B}') {
        assert init + ([last] + a) == b + a;
        ColumnZeroIsStart(init, [last] + a);
        StartIsSolid(init, last, a);
      }
    }
  }

  // ---------------------------------------------------------------- taking lines out and putting lines in

  /** a without its first n lines. */
  function DropLines(a: seq<Item>, n: nat): seq<Item> {
    if n == 0 then a else
      var j := LineEnd(a);
      if j == |a| then [] else DropLines(a[j + 1..], n - 1)
  }

  lemma {:induction false} LineAtDrop(a: seq<Item>, n: nat, i: nat)
    ensures LineAt(DropLines(a, n), i) == LineAt(a, i + n)
    decreases n
  {
    if n > 0 && LineEnd(a) < |a| {
      LineAtDrop(a[LineEnd(a) + 1..], n - 1, i);
    }
  }

  lemma {:induction false} LineAtNewlines(n: nat, a: seq<Item>, i: nat)
    ensures LineAt(Chars(Newlines(n)) + a, i) == if i < n then [] else LineAt(a, i - n)
    decreases n
  {
    var s := Chars(Newlines(n)) + a;
    if n == 0 {
      assert s == a;
    } else {
      assert s[0] == Ch('\n');
      assert s[1..] == Chars(Newlines(n - 1)) + a;
      if i > 0 { LineAtNewlines(n - 1, a, i - 1); }
    }
  }

  /** Blank lines at the end change no line. */
  lemma {:induction false} LineAtTrailing(a: seq<Item>, m: nat, i: nat)
    ensures LineAt(a + Chars(Newlines(m)), i) == LineAt(a, i)
    decreases i
  {
    hide LineFrom;
    var nl := Chars(Newlines(m));
    var j := LineEnd(a);
    if j < |a| {
      var x, e, rest := a[..j], a[j], a[j + 1..];
      assert a == x + [e] + rest && a + nl == x + [e] + (rest + nl);
      LineAtCons(x, e, rest, i);
      LineAtCons(x, e, rest + nl, i);
      if i > 0 { LineAtTrailing(rest, m, i - 1); }
    } else if m > 0 {
      OneLine(a, i);
      assert nl == [Ch('\n')] + Chars(Newlines(m - 1));
      assert a + nl == a + [Ch('\n')] + Chars(Newlines(m - 1));
      LineAtCons(a, Ch('\n'), Chars(Newlines(m - 1)), i);
      if i > 0 {
        LineAtNewlines(m - 1, [], i - 1);
        if i >= m { OneLine([], i - m); }
        assert Chars(Newlines(m - 1)) + [] == Chars(Newlines(m - 1));
      }
    } else {
      assert a + nl == a;
    }
  }

  /** The same lines. */
  ghost predicate SameLines(x: seq<Item>, y: seq<Item>) {
    forall i: nat :: LineAt(x, i) == LineAt(y, i)
  }

  // ---------------------------------------------------------------- the operations

  /** How many items after the cursor `eraseCharactersRight(count, true)` takes out: up to the end of the
      line, and no more than it takes to cover count columns. */
  function EraseLen(a: seq<Item>, count: int): (j: nat)
    ensures j <= LineEnd(a)
  {
    if a == [] || EndsLine(a[0]) || count <= 0 then 0
    else 1 + EraseLen(a[1..], count - if a[0].Ch? then CharColumns(a[0].c) else 0)
  }

  lemma {:induction false} EraseWholeLine(a: seq<Item>, count: int)
    requires count > |a|
    ensures EraseLen(a, count) == LineEnd(a)
    decreases |a|
  {
    if a != [] && !EndsLine(a[0]) {
      EraseWholeLine(a[1..], count - if a[0].Ch? then CharColumns(a[0].c) else 0);
    }
  }

  /** k items from a on are what erasing count columns from p takes out, told by widths: they end no line, and
      cover the columns or reach the line end, and without the last of them they cover fewer; no column is
      nothing, and a negative count is the rest of the line. */
  ghost predicate Overwritten(p: Place, a: seq<Item>, count: int, k: nat) {
    && k <= |a| && (forall i :: 0 <= i < k ==> !EndsLine(a[i]))
    && (count > 0 ==> k == |a| || EndsLine(a[k]) || PlaceAfter(p, a[..k]).column >= p.column + count)
    && (count > 0 && k > 0 ==> PlaceAfter(p, a[..k - 1]).column < p.column + count)
    && (count == 0 ==> k == 0)
    && (count < 0 && |a| < MAX_INT ==> k == |a| || EndsLine(a[k]))
  }

  lemma {:induction false} EraseCovers(p: Place, a: seq<Item>, count: nat)
    requires FlatItems(a)
    ensures Overwritten(p, a, count, EraseLen(a, count))
    decreases |a|
  {
    hide FlatItems;
    var k := EraseLen(a, count);
    if k > 0 {
      InFlat(a, 0);
      assert a == [a[0]] + a[1..];
      FlatPart([a[0]], a[1..], 0);
      var q, rest := Move(p, a[0]), a[1..];
      var left := count - CharColumns(a[0].c);
      EraseCovers(q, rest, left);
      assert a[..k][1..] == rest[..k - 1];
      if k > 1 { assert a[..k - 1][1..] == rest[..k - 2]; }
      forall i | 0 <= i < k ensures !EndsLine(a[i]) { if i > 0 { assert rest[i - 1] == a[i]; } }
    }
  }

  lemma EraseOverwrites(p: Place, a: seq<Item>, count: int)
    requires FlatItems(a)
    ensures Overwritten(p, a, count, EraseLen(a, if count < 0 then MAX_INT else count))
  {
    hide FlatItems, PlaceAfter;
    if count >= 0 {
      EraseCovers(p, a, count);
    } else {
      EraseCovers(p, a, MAX_INT);
      if |a| < MAX_INT { EraseWholeLine(a, MAX_INT); }
    }
  }

  lemma InFlat(items: seq<Item>, i: nat)
    requires FlatItems(items) && i < |items|
    ensures FlatItem(items[i])
  {
    assert items[i] in items;
  }

  lemma AtHomeOnly(ctx: Ctx, left: seq<Node>, right: seq<Node>)
    requires FlatItems(Before(ctx, left) + After(ctx, right))
    ensures ctx == Home
  {
    if ctx.In? {
      var b := Before(ctx.up, ctx.left);
      var doc := Before(ctx, left) + After(ctx, right);
      assert doc[|b|] == Open(ctx.style);
      InFlat(doc, |b|);
    }
  }

  /** The first node after the cursor on a flat home. */
  lemma FirstNode(right: seq<Node>)
    requires right != [] && FlatItems(Flat(right))
    ensures (right[0].Text? && Flat(right) == Chars(right[0].data) + Flat(right[1..]))
         || (right[0].Br? && Flat(right) == [Brk] + Flat(right[1..]))
    ensures FlatItems(Flat(right[1..]))
  {
    assert Flat(right) == FlatNode(right[0]) + Flat(right[1..]);
    forall i | i in Flat(right[1..]) ensures FlatItem(i) { assert i in Flat(right); }
    if right[0].Span? || right[0].Input? {
      assert Flat(right)[0] == FlatNode(right[0])[0];
      assert Flat(right)[0] in Flat(right);
    }
  }

  /** The scan of one text node: i characters are to go, seen columns have gone by; `ended` at a newline. */
  method ScanErase(text: string, seen0: int, count: int, ghost rest: seq<Item>) returns (i: nat, seen: int, ended: bool)
    requires FlatItems(Chars(text)) && seen0 >= 0
    ensures i <= |text| && seen0 <= seen <= seen0 + i
    ensures EraseLen(Chars(text) + rest, count - seen0) == i + EraseLen(Chars(text[i..]) + rest, count - seen)
    ensures ended ==> i < |text| && NewLine(text[i])
    ensures !ended ==> i == |text| || seen >= count
  {
    hide EraseLen, FlatItems, NewLine, Chars;
    i, seen, ended := 0, seen0, false;
    assert text[0..] == text;
    while i < |text|
      invariant i <= |text| && seen0 <= seen <= seen0 + i && !ended
      invariant EraseLen(Chars(text) + rest, count - seen0) == i + EraseLen(Chars(text[i..]) + rest, count - seen)
    {
      if seen >= count { return; }
      var ch := text[i];
      if NewLine(ch) {
        ended := true;
        return;
      }
      EraseOne(text, i, rest, count - seen);
      seen := seen + CharColumns(ch);
      i := i + 1;
    }
  }

  lemma EraseOne(text: string, i: nat, rest: seq<Item>, count: int)
    requires i < |text| && !NewLine(text[i]) && count > 0
    ensures EraseLen(Chars(text[i..]) + rest, count)
         == 1 + EraseLen(Chars(text[i + 1..]) + rest, count - CharColumns(text[i]))
  {
    var a := Chars(text[i..]) + rest;
    assert a[0] == Ch(text[i]) && a[1..] == Chars(text[i + 1..]) + rest;
  }

  /** Nothing more goes at a line end or when the count is used up. */
  lemma EraseStops(a: seq<Item>, count: int)
    requires a == [] || EndsLine(a[0]) || count <= 0
    ensures EraseLen(a, count) == 0
  {
  }

  predicate NonEmptyText(right: seq<Node>) { right != [] && right[0].Text? && right[0].data != "" }

  /** `eraseCharactersRight(count, true)` on a flat home: the characters go, the cursor stays. */
  method EraseCharactersRight(t: Terminal, count0: int)
    requires t.Valid() && FlatItems(t.Doc())
    modifies t`right
    ensures t.Valid() && t.Cursor() == old(t.Cursor()) && FlatItems(t.Doc())
    ensures Before(t.ctx, t.left) == old(Before(t.ctx, t.left))
    ensures var a := old(After(t.ctx, t.right));
      After(t.ctx, t.right) == a[EraseLen(a, if count0 < 0 then MAX_INT else count0)..]
    ensures var a := old(After(t.ctx, t.right));
      exists k: nat :: Overwritten(t.Cursor(), a, count0, k) && After(t.ctx, t.right) == a[k..]
    ensures t.ctx == Home
    ensures old(|t.Doc()|) < MAX_INT && count0 < 0 ==> t.right == [] || t.right[0].Br? || NonEmptyText(t.right)
  {
    hide EraseLen, PlaceAfter, Plain, FlatItems, Overwritten;
    AtHomeOnly(t.ctx, t.left, t.right);
    ghost var b, a := Before(t.ctx, t.left), After(t.ctx, t.right);
    var count := if count0 < 0 then MAX_INT else count0;
    FlatPart(b, a, EraseLen(a, count));
    PlainRest(b, a, EraseLen(a, count));
    FlatPart(b, a, 0);
    assert a[0..] == a;
    EraseOverwrites(t.Cursor(), a, count0);
    EraseNodes(t, count);
  }

  /** How far the loop of `eraseCharactersRight` is: gone items of a are out, seen columns have gone by. */
  ghost predicate ErasedTo(a: seq<Item>, max: nat, right: seq<Node>, gone: nat, seen: int, count: int) {
    && 0 <= seen <= gone <= |a| && Flat(right) == a[gone..] && FlatItems(a[gone..])
    && EraseLen(a, max) == gone + EraseLen(a[gone..], max - seen)
    && (count == max || (count == seen && a[gone..] != [] && EndsLine(a[gone]) && NonEmptyText(right)))
  }

  /** The loop of `eraseCharactersRight` over the nodes after the cursor. */
  method EraseNodes(t: Terminal, max: nat)
    requires t.ctx == Home && FlatItems(Flat(t.right))
    modifies t`right
    ensures Flat(t.right) == old(Flat(t.right))[EraseLen(old(Flat(t.right)), max)..]
    ensures old(|Flat(t.right)|) < max ==> t.right == [] || t.right[0].Br? || NonEmptyText(t.right)
  {
    hide EraseLen, FlatItems, NonEmptyText, Flat, EndsLine, ErasedTo;
    var count := max;
    ghost var a := Flat(t.right);
    ghost var gone: nat := 0;
    var seen := 0;
    ErasedNothing(a, max, t.right);
    while t.right != [] && !t.right[0].Br? && seen < count
      invariant ErasedTo(a, max, t.right, gone, seen, count)
      decreases |t.right|, count - seen
    {
      ErasedNext(a, max, t.right, gone, seen, count);
      ghost var right, was := t.right, seen;
      var ended;
      ghost var i: nat;
      i, seen, ended := EraseText(t, seen, count);
      ErasedMore(a, max, right, gone, was, count, t.right, i, seen, ended);
      gone := gone + i;
      if ended { count := seen; }
    }
    ErasedAll(a, max, t.right, gone, seen, count);
  }

  lemma ErasedNothing(a: seq<Item>, max: nat, right: seq<Node>)
    requires a == Flat(right) && FlatItems(a)
    ensures ErasedTo(a, max, right, 0, 0, max)
  {
    assert a[0..] == a;
  }

  lemma ErasedNext(a: seq<Item>, max: nat, right: seq<Node>, gone: nat, seen: int, count: int)
    requires ErasedTo(a, max, right, gone, seen, count) && right != [] && !right[0].Br? && seen < count
    ensures right[0].Text? && 0 <= seen < count == max && FlatItems(Flat(right))
  {
    FirstNode(right);
  }

  lemma ErasedMore(a: seq<Item>, max: nat, right: seq<Node>, gone: nat, seen: int, count: int,
                   right': seq<Node>, i: nat, seen': int, ended: bool)
    requires ErasedTo(a, max, right, gone, seen, count) && seen < count && seen <= seen' <= seen + i
    requires var f := Flat(right);
      && i <= |f| && Flat(right') == f[i..] && FlatItems(f[i..])
      && EraseLen(f, count - seen) == i + EraseLen(f[i..], count - seen')
      && (ended ==> f[i..] != [] && EndsLine(f[i]) && NonEmptyText(right'))
    ensures ErasedTo(a, max, right', gone + i, seen', if ended then seen' else count)
  {
    hide EraseLen, FlatItems, NonEmptyText, Flat, EndsLine;
    assert a[gone..][i..] == a[gone + i..];
  }

  lemma ErasedAll(a: seq<Item>, max: nat, right: seq<Node>, gone: nat, seen: int, count: int)
    requires ErasedTo(a, max, right, gone, seen, count) && (right == [] || right[0].Br? || seen >= count)
    ensures Flat(right) == a[EraseLen(a, max)..]
    ensures |a| < max ==> right == [] || right[0].Br? || NonEmptyText(right)
  {
    hide EraseLen, FlatItems, NonEmptyText, Flat, EndsLine;
    NothingLeft(right, a[gone..]);
    EraseStops(a[gone..], max - seen);
  }

  lemma NothingLeft(right: seq<Node>, a: seq<Item>)
    requires a == Flat(right) && FlatItems(a)
    ensures right == [] ==> a == []
    ensures right != [] && right[0].Br? ==> a != [] && EndsLine(a[0])
  {
    if right != [] { FirstNode(right); }
  }

  /** The case of a text node, which shrinks or goes. */
  method EraseText(t: Terminal, seen0: int, count: int) returns (ghost i: nat, seen: int, ended: bool)
    requires t.right != [] && t.right[0].Text? && 0 <= seen0 < count && FlatItems(Flat(t.right))
    modifies t`right
    ensures var a := old(Flat(t.right));
      && i <= |a| && Flat(t.right) == a[i..] && FlatItems(a[i..])
      && EraseLen(a, count - seen0) == i + EraseLen(a[i..], count - seen)
      && (ended ==> a[i..] != [] && EndsLine(a[i]) && NonEmptyText(t.right))
    ensures seen0 <= seen <= seen0 + i
    ensures |t.right| < old(|t.right|) || (|t.right| == old(|t.right|) && (ended || seen >= count))
  {
    hide EraseLen, FlatItems, Flat, NewLine, NonEmptyText;
    FirstNode(t.right);
    ghost var a, rest := Flat(t.right), Flat(t.right[1..]);
    var text := t.right[0].data;
    assert [] + a == a;
    FlatPart([], a, 0);
    FlatPart(Chars(text), rest, 0);
    var n;
    n, seen, ended := ScanErase(text, seen0, count, rest);
    i := n;
    TextErased(a, text, t.right[1..], n);
    if n >= |text| {
      t.right := t.right[1..];
    } else {
      t.right := [Text(text[n..])] + t.right[1..];
    }
  }

  lemma TextErased(a: seq<Item>, text: string, tail: seq<Node>, n: nat)
    requires n <= |text| && FlatItems(a) && a == Chars(text) + Flat(tail)
    ensures FlatItems(a[n..]) && a[n..] == Chars(text[n..]) + Flat(tail)
    ensures n == |text| ==> Flat(tail) == a[n..]
    ensures n < |text| ==> Flat([Text(text[n..])] + tail) == a[n..] && NonEmptyText([Text(text[n..])] + tail)
    ensures n < |text| ==> a[n..] != [] && a[n] == Ch(text[n])
  {
    hide FlatItems, Flat;
    assert a[0..] == a == [] + a;
    ScannedItems(a, 0, text, Flat(tail), n);
    FlatPart([], a, n);
    FlatText(text[n..], tail);
  }

  lemma FlatText(s: string, tail: seq<Node>)
    ensures Flat([Text(s)] + tail) == Chars(s) + Flat(tail)
  {
    FlatConcat([Text(s)], tail);
    FlatOne(Text(s));
  }

  lemma ScannedItems(a: seq<Item>, gone: nat, text: string, rest: seq<Item>, i: nat)
    requires gone <= |a| && i <= |text| && a[gone..] == Chars(text) + rest
    ensures gone + i <= |a| && a[gone..][i..] == a[gone + i..] == Chars(text[i..]) + rest
    ensures i == |text| ==> a[gone + i..] == rest
    ensures i < |text| ==> a[gone + i..] != [] && a[gone + i] == Ch(text[i])
  {
  }

  lemma FlatPart(b: seq<Item>, a: seq<Item>, k: nat)
    requires FlatItems(b + a) && k <= |a|
    ensures FlatItems(b) && FlatItems(a) && FlatItems(a[k..]) && FlatItems(b + a[k..])
    ensures k <= |b| ==> FlatItems(b[k..])
  {
    forall i | i in b ensures FlatItem(i) { assert i in b + a; }
    forall i | i in a ensures FlatItem(i) { assert i in b + a; }
  }

  lemma PlainRest(b: seq<Item>, a: seq<Item>, k: nat)
    requires FlatItems(b + a) && k <= |a|
    ensures Plain(b + a[k..]) && Here !in b + a[k..]
  {
    FlatPart(b, a, k);
    forall i | i in b + a[k..] ensures PlainItem(i) && i != Here { assert FlatItem(i); }
  }

  /** `deleteLinesIgnoreScroll`: the rest of the line and its end, count times, while there is one. */
  method DeleteLinesIgnoreScroll(t: Terminal, count: nat)
    requires t.Valid() && FlatItems(t.Doc()) && |t.Doc()| < MAX_INT
    modifies t`right
    ensures t.Valid() && t.Cursor() == old(t.Cursor()) && FlatItems(t.Doc())
    ensures Before(t.ctx, t.left) == old(Before(t.ctx, t.left))
    ensures After(t.ctx, t.right) == DropLines(old(After(t.ctx, t.right)), count)
  {
    hide EraseLen, PlaceAfter, Plain, FlatItems, LineEnd, Flat, NonEmptyText;
    ghost var b, a := Before(t.ctx, t.left), After(t.ctx, t.right);
    var i := 0;
    while i < count
      invariant i <= count && t.Valid() && FlatItems(t.Doc()) && |t.Doc()| < MAX_INT
      invariant Before(t.ctx, t.left) == b && t.Cursor() == old(t.Cursor())
      invariant DropLines(After(t.ctx, t.right), count - i) == DropLines(a, count)
      decreases count - i
    {
      ghost var rest := After(t.ctx, t.right);
      EraseWholeLine(rest, MAX_INT);
      EraseCharactersRight(t, -1);
      assert After(t.ctx, t.right) == rest[LineEnd(rest)..];
      var more := TakeLineEnd(t, b, rest);
      if !more { return; }
      i := i + 1;
    }
  }

  /** Takes the newline or the break at the cursor out; false when there is none. */
  method TakeLineEnd(t: Terminal, ghost b: seq<Item>, ghost rest: seq<Item>) returns (more: bool)
    requires t.Valid() && FlatItems(t.Doc()) && t.ctx == Home && Before(t.ctx, t.left) == b
    requires After(t.ctx, t.right) == rest[LineEnd(rest)..] && FlatItems(b + rest)
    requires t.right == [] || t.right[0].Br? || NonEmptyText(t.right)
    modifies t`right
    ensures t.Valid() && t.Cursor() == old(t.Cursor()) && FlatItems(t.Doc()) && t.ctx == Home
    ensures Before(t.ctx, t.left) == b && |t.Doc()| <= old(|t.Doc()|)
    ensures more <==> LineEnd(rest) < |rest|
    ensures After(t.ctx, t.right) == if more then rest[LineEnd(rest) + 1..] else []
  {
    hide PlaceAfter, Plain, FlatItems, EraseLen, Flat, LineEnd;
    ghost var j, a := LineEnd(rest), Flat(t.right);
    FlatPart(b, a, 0);
    NothingLeft(t.right, a);
    if t.right == [] { return false; }
    FirstNode(t.right);
    FlatPart(b, rest, j);
    assert a == rest[j..] && a != [];
    NextLine(rest, j);
    FlatPart(b, rest, j + 1);
    PlainRest(b, rest, j + 1);
    if t.right[0].Text? {
      var text := t.right[0].data;
      FlatText(text[1..], t.right[1..]);
      assert a[1..] == Chars(text[1..]) + Flat(t.right[1..]);
      OnlyNewline(a);
      if text[0] != '\n' { assert false; }
      t.right := [Text(text[1..])] + t.right[1..];
    } else {
      assert a[1..] == Flat(t.right[1..]);
      t.right := t.right[1..];
    }
    assert t.Doc() == b + rest[j + 1..];
    more := true;
  }

  lemma NextLine(rest: seq<Item>, j: nat)
    requires j == LineEnd(rest) && rest[j..] != []
    ensures j < |rest| && EndsLine(rest[j..][0]) && rest[j..][1..] == rest[j + 1..]
  {
  }

  /** On a flat home a character that ends a line is a line feed. */
  lemma OnlyNewline(a: seq<Item>)
    requires FlatItems(a) && a != [] && EndsLine(a[0])
    ensures a[0] == Brk || a[0] == Ch('\n')
  {
    InFlat(a, 0);
  }

  /** `insertLinesIgnoreScroll`: newlines right after the cursor. */
  method InsertLinesIgnoreScroll(t: Terminal, count: nat)
    requires t.Valid() && FlatItems(t.Doc())
    modifies t`right
    ensures t.Valid() && t.Cursor() == old(t.Cursor()) && FlatItems(t.Doc())
    ensures Before(t.ctx, t.left) == old(Before(t.ctx, t.left))
    ensures After(t.ctx, t.right) == Chars(Newlines(count)) + old(After(t.ctx, t.right))
  {
    hide PlaceAfter, Flat;
    ghost var b, a := Before(t.ctx, t.left), After(t.ctx, t.right);
    StepOver(t.ctx, [], Text(Newlines(count)), t.right);
    t.right := [Text(Newlines(count))] + t.right;
    forall i | i in b + (Chars(Newlines(count)) + a)
      ensures FlatItem(i) && PlainItem(i) && i != Here
    {
      if i in b || i in a { assert i in b + a; }
    }
  }

  /** A move to column 0 adds at most blank lines at the end, and stops at the start of a line. */
  lemma ColumnZeroStop(doc: seq<Item>, s: Stop, line: nat)
    requires PadOk(doc, s) && FlatItems(doc) && StartsSolid(doc)
    requires PlaceAfter(ORIGIN, doc[..s.k] + s.pad) == Place(line, 0)
    ensures var moved := doc[..s.k] + s.pad + doc[s.k..];
      && SameLines(moved, doc) && FlatItems(moved) && StartsSolid(moved) && AtStart(doc[..s.k] + s.pad)
      && |moved| <= |doc| + line
  {
    hide LineFrom, PlaceAfter;
    PlaceAfterConcat(ORIGIN, doc[..s.k], s.pad);
    var p := PlaceAfter(ORIGIN, doc[..s.k]);
    var moved := doc[..s.k] + s.pad + doc[s.k..];
    if s.k < |doc| {
      if s.pad != [] {
        var n: nat :| s.pad == Chars(Spaces(n));
        PlaceAfterSpaces(p, n);
        assert false;
      }
      assert moved == doc;
      ColumnZeroIsStart(doc[..s.k] + s.pad, doc[s.k..]);
    } else {
      var m: nat, n: nat :| s.pad == Chars(Newlines(m)) + Chars(Spaces(n));
      PlaceAfterConcat(p, Chars(Newlines(m)), Chars(Spaces(n)));
      PlaceAfterNewlines(p, m);
      PlaceAfterSpaces(PlaceAfter(p, Chars(Newlines(m))), n);
      assert n == 0 && s.pad == Chars(Newlines(m));
      assert moved == doc + Chars(Newlines(m));
      forall i: nat ensures LineAt(moved, i) == LineAt(doc, i) { LineAtTrailing(doc, m, i); }
      forall i | i in moved ensures FlatItem(i) {}
      assert doc[..s.k] + s.pad == moved == moved + [];
      ColumnZeroIsStart(moved, []);
    }
  }

  // ---------------------------------------------------------------- IL and DL

  /** What line i holds after n lines are inserted at `line` in a region that ends at `bottom`. */
  function Inserted(doc: seq<Item>, line: nat, n: nat, bottom: nat, i: nat): seq<Item> {
    if i < line || i >= bottom then LineAt(doc, i)
    else if i < line + n then []
    else LineAt(doc, i - n)
  }

  /** ... and after n lines are deleted there. */
  function Deleted(doc: seq<Item>, line: nat, n: nat, bottom: nat, i: nat): seq<Item> {
    if i < line || i >= bottom then LineAt(doc, i)
    else if i < bottom - n then LineAt(doc, i + n)
    else []
  }

  ghost predicate Editable(t: Terminal)
    reads t
  {
    t.Valid() && FlatItems(t.Doc()) && StartsSolid(t.Doc())
  }

  /** A move to the start of a line: no line changes, and the cursor is at a line start. */
  method GoTo(t: Terminal, line: nat)
    requires Editable(t)
    modifies t
    ensures Editable(t) && t.Cursor() == Place(line, 0) && SameLines(t.Doc(), old(t.Doc()))
    ensures AtStart(Before(t.ctx, t.left)) && |t.Doc()| <= old(|t.Doc()|) + line
  {
    hide PlaceAfter, PadOk, Plain, FlatItems;
    ghost var doc := t.Doc();
    ColumnZero(ORIGIN, doc, Place(line, 0));
    ghost var s := t.MoveTo(line, 0);
    ColumnZeroStop(doc, s, line);
  }

  /** Drops the region's last n lines, then puts n blank lines in at the given line. */
  method InsertLinesAt(t: Terminal, line: nat, n: nat, bottom: nat)
    requires Editable(t) && line + n <= bottom && |t.Doc()| + bottom < MAX_INT
    modifies t
    ensures Editable(t) && t.Cursor() == Place(line, 0)
    ensures forall i: nat :: LineAt(t.Doc(), i) == Inserted(old(t.Doc()), line, n, bottom, i)
  {
    hide PlaceAfter, Plain, FlatItems, DropLines, SameLines, StartsSolid, LineFrom;
    ghost var doc := t.Doc();
    GoTo(t, bottom - n);
    ghost var b1, a1 := Before(t.ctx, t.left), After(t.ctx, t.right);
    DeleteLinesIgnoreScroll(t, n);
    ghost var cut := t.Doc();
    CutLines(doc, b1, a1, bottom - n, n, cut);
    GoTo(t, line);
    ghost var b3, a3 := Before(t.ctx, t.left), After(t.ctx, t.right);
    InsertLinesIgnoreScroll(t, n);
    InsertedLines(doc, cut, b3, a3, line, n, bottom);
    InsertedStartsSolid(doc, t.Doc(), line, n, bottom);
  }

  /** `insertLines`: n blank lines at the cursor's line push the lines of the region below it down, those
      that would pass the bottom are gone, and no line outside changes. */
  method InsertLines(t: Terminal, n: nat, bottom: nat)
    requires Editable(t) && t.Cursor().line + n <= bottom && |t.Doc()| + bottom < MAX_INT
    modifies t
    ensures Editable(t) && t.Cursor() == Place(old(t.Cursor()).line, 0)
    ensures forall i: nat ::
      LineAt(t.Doc(), i) == Inserted(old(t.Doc()), old(t.Cursor()).line, n, bottom, i)
  {
    hide PlaceAfter, Plain, FlatItems, StartsSolid, LineFrom;
    var line := t.GetCursorLine();
    InsertLinesAt(t, line, n, bottom);
  }

  /** `scrollReverse`: the region's lines shift down by n, and the cursor returns to the start of its line. */
  method ScrollReverse(t: Terminal, n: nat, top: nat, bottom: nat)
    requires Editable(t) && top + n <= bottom && |t.Doc()| + bottom < MAX_INT
    modifies t
    ensures Editable(t) && t.Cursor() == Place(old(t.Cursor()).line, 0)
    ensures forall i: nat :: LineAt(t.Doc(), i) == Inserted(old(t.Doc()), top, n, bottom, i)
  {
    hide PlaceAfter, Plain, FlatItems, StartsSolid, LineFrom;
    ghost var doc := t.Doc();
    var line := t.GetCursorLine();
    InsertLinesAt(t, top, n, bottom);
    ghost var filled := t.Doc();
    GoTo(t, line);
    SameInserted(doc, filled, t.Doc(), top, n, bottom);
  }

  /** Drops n lines at the cursor, which is at a line start, and fills the region up with blank lines. */
  method DeleteLinesHere(t: Terminal, line: nat, n: nat, bottom: nat)
    requires Editable(t) && t.Cursor() == Place(line, 0) && line + n <= bottom && |t.Doc()| + bottom < MAX_INT
    modifies t
    ensures Editable(t)
    ensures forall i: nat :: LineAt(t.Doc(), i) == Deleted(old(t.Doc()), line, n, bottom, i)
  {
    hide PlaceAfter, Plain, FlatItems, DropLines, PadOk, SameLines, StartsSolid, LineFrom;
    ghost var doc, b0, a0 := t.Doc(), Before(t.ctx, t.left), After(t.ctx, t.right);
    ColumnZeroIsStart(b0, a0);
    DeleteLinesIgnoreScroll(t, n);
    ghost var cut := t.Doc();
    CutLines(doc, b0, a0, line, n, cut);
    ghost var s := t.CursorLineStart(bottom - line - n);
    ColumnZeroStop(cut, s, bottom - n);
    ghost var b2, a2 := Before(t.ctx, t.left), After(t.ctx, t.right);
    InsertLinesIgnoreScroll(t, n);
    DeletedLines(doc, cut, b2, a2, line, n, bottom);
    DeletedStartsSolid(doc, t.Doc(), line, n, bottom);
  }

  /** `deleteLines` from the start of a line: the lines of the region below shift up by n, blank lines
      come in above the bottom, and no line outside changes. */
  method DeleteLines(t: Terminal, n: nat, bottom: nat)
    requires Editable(t) && t.Cursor().column == 0 && t.Cursor().line + n <= bottom && |t.Doc()| + bottom < MAX_INT
    modifies t
    ensures Editable(t) && t.Cursor() == Place(old(t.Cursor()).line, 0)
    ensures forall i: nat ::
      LineAt(t.Doc(), i) == Deleted(old(t.Doc()), old(t.Cursor()).line, n, bottom, i)
  {
    hide PlaceAfter, Plain, FlatItems, StartsSolid, LineFrom;
    ghost var doc := t.Doc();
    var line := t.GetCursorLine();
    DeleteLinesHere(t, line, n, bottom);
    ghost var filled := t.Doc();
    GoTo(t, line);
    SameDeleted(doc, filled, t.Doc(), line, n, bottom);
  }

  /** `scrollForward`: the region's lines shift up by n, and the cursor returns to the start of its line. */
  method ScrollForward(t: Terminal, n: nat, top: nat, bottom: nat)
    requires Editable(t) && top + n <= bottom && |t.Doc()| + top + bottom < MAX_INT
    modifies t
    ensures Editable(t) && t.Cursor() == Place(old(t.Cursor()).line, 0)
    ensures forall i: nat :: LineAt(t.Doc(), i) == Deleted(old(t.Doc()), top, n, bottom, i)
  {
    hide PlaceAfter, Plain, FlatItems, StartsSolid, LineFrom;
    ghost var doc := t.Doc();
    var line := t.GetCursorLine();
    GoTo(t, top);
    ghost var moved := t.Doc();
    DeleteLinesHere(t, top, n, bottom);
    ghost var filled := t.Doc();
    DeletedAlike(doc, moved, filled, top, n, bottom);
    GoTo(t, line);
    SameDeleted(doc, filled, t.Doc(), top, n, bottom);
  }

  /** Dropping n lines at a line start. */
  lemma CutLines(doc: seq<Item>, b: seq<Item>, a: seq<Item>, line: nat, n: nat, cut: seq<Item>)
    requires AtStart(b) && PlaceAfter(ORIGIN, b) == Place(line, 0) && SameLines(b + a, doc) && StartsSolid(doc)
    requires cut == b + DropLines(a, n)
    ensures StartsSolid(cut)
    ensures forall i: nat :: LineAt(cut, i) == LineAt(doc, if i < line then i else i + n)
  {
    forall i: nat
      ensures LineAt(cut, i) == LineAt(doc, if i < line then i else i + n)
    {
      LineAtSplit(b, DropLines(a, n), i);
      if i < line {
        LineAtSplit(b, a, i);
      } else {
        LineAtDrop(a, n, i - line);
        LineAtSplit(b, a, i + n);
      }
    }
    forall i: nat | LineAt(cut, i) != []
      ensures LineAt(cut, i)[0] != Ch('\U{200B}')
    {
      assert LineAt(cut, i) == LineAt(doc, if i < line then i else i + n);
    }
  }

  /** Putting n newlines in at a line start. */
  lemma OpenLines(doc: seq<Item>, b: seq<Item>, a: seq<Item>, line: nat, n: nat, i: nat)
    requires AtStart(b) && PlaceAfter(ORIGIN, b) == Place(line, 0) && SameLines(b + a, doc)
    ensures LineAt(b + (Chars(Newlines(n)) + a), i) ==
      if i < line then LineAt(doc, i) else if i < line + n then [] else LineAt(doc, i - n)
  {
    LineAtSplit(b, Chars(Newlines(n)) + a, i);
    if i < line {
      LineAtSplit(b, a, i);
    } else {
      LineAtNewlines(n, a, i - line);
      if i >= line + n { LineAtSplit(b, a, i - n); }
    }
  }

  lemma InsertedLines(doc: seq<Item>, cut: seq<Item>, b: seq<Item>, a: seq<Item>, line: nat, n: nat, bottom: nat)
    requires AtStart(b) && PlaceAfter(ORIGIN, b) == Place(line, 0) && SameLines(b + a, cut) && line + n <= bottom
    requires forall i: nat :: LineAt(cut, i) == LineAt(doc, if i < bottom - n then i else i + n)
    ensures forall i: nat :: LineAt(b + (Chars(Newlines(n)) + a), i) == Inserted(doc, line, n, bottom, i)
  {
    forall i: nat
      ensures LineAt(b + (Chars(Newlines(n)) + a), i) == Inserted(doc, line, n, bottom, i)
    {
      OpenLines(cut, b, a, line, n, i);
      var k: nat := if i >= line + n then i - n else i;
      assert LineAt(cut, k) == LineAt(doc, if k < bottom - n then k else k + n);
    }
  }

  lemma DeletedLines(doc: seq<Item>, cut: seq<Item>, b: seq<Item>, a: seq<Item>, line: nat, n: nat, bottom: nat)
    requires line + n <= bottom
    requires AtStart(b) && PlaceAfter(ORIGIN, b) == Place(bottom - n, 0) && SameLines(b + a, cut)
    requires forall i: nat :: LineAt(cut, i) == LineAt(doc, if i < line then i else i + n)
    ensures forall i: nat :: LineAt(b + (Chars(Newlines(n)) + a), i) == Deleted(doc, line, n, bottom, i)
  {
    forall i: nat
      ensures LineAt(b + (Chars(Newlines(n)) + a), i) == Deleted(doc, line, n, bottom, i)
    {
      OpenLines(cut, b, a, bottom - n, n, i);
      var k: nat := if i >= bottom then i - n else i;
      assert LineAt(cut, k) == LineAt(doc, if k < line then k else k + n);
    }
  }

  lemma SameDeleted(doc: seq<Item>, filled: seq<Item>, last: seq<Item>, line: nat, n: nat, bottom: nat)
    requires line + n <= bottom && SameLines(last, filled)
    requires forall i: nat :: LineAt(filled, i) == Deleted(doc, line, n, bottom, i)
    ensures forall i: nat :: LineAt(last, i) == Deleted(doc, line, n, bottom, i)
  {
    forall i: nat ensures LineAt(last, i) == Deleted(doc, line, n, bottom, i) {
      assert LineAt(last, i) == LineAt(filled, i);
    }
  }

  lemma DeletedAlike(doc: seq<Item>, moved: seq<Item>, filled: seq<Item>, line: nat, n: nat, bottom: nat)
    requires line + n <= bottom && SameLines(moved, doc)
    requires forall i: nat :: LineAt(filled, i) == Deleted(moved, line, n, bottom, i)
    ensures forall i: nat :: LineAt(filled, i) == Deleted(doc, line, n, bottom, i)
  {
    hide LineFrom;
    forall i: nat ensures LineAt(filled, i) == Deleted(doc, line, n, bottom, i) {
      var k: nat := if i < line || i >= bottom then i else i + n;
      assert LineAt(filled, i) == Deleted(moved, line, n, bottom, i);
      assert LineAt(moved, k) == LineAt(doc, k);
    }
  }

  lemma SameInserted(doc: seq<Item>, filled: seq<Item>, last: seq<Item>, line: nat, n: nat, bottom: nat)
    requires line + n <= bottom && SameLines(last, filled)
    requires forall i: nat :: LineAt(filled, i) == Inserted(doc, line, n, bottom, i)
    ensures forall i: nat :: LineAt(last, i) == Inserted(doc, line, n, bottom, i)
  {
    forall i: nat ensures LineAt(last, i) == Inserted(doc, line, n, bottom, i) {
      assert LineAt(last, i) == LineAt(filled, i);
    }
  }

  lemma InsertedStartsSolid(doc: seq<Item>, filled: seq<Item>, line: nat, n: nat, bottom: nat)
    requires StartsSolid(doc) && line + n <= bottom
    requires forall i: nat :: LineAt(filled, i) == Inserted(doc, line, n, bottom, i)
    ensures StartsSolid(filled)
  {
  }

  lemma DeletedStartsSolid(doc: seq<Item>, filled: seq<Item>, line: nat, n: nat, bottom: nat)
    requires StartsSolid(doc) && line + n <= bottom
    requires forall i: nat :: LineAt(filled, i) == Deleted(doc, line, n, bottom, i)
    ensures StartsSolid(filled)
  {
  }

  /** Deleting as many lines as were inserted brings every line of the region back, except those the
      insertion had pushed past the bottom, which are blank. */
  lemma DeleteUndoesInsert(doc: seq<Item>, filled: seq<Item>, line: nat, n: nat, bottom: nat, i: nat)
    requires line + n <= bottom
    requires forall k: nat :: LineAt(filled, k) == Inserted(doc, line, n, bottom, k)
    ensures Deleted(filled, line, n, bottom, i) == if bottom - n <= i < bottom then [] else LineAt(doc, i)
  {
    assert LineAt(filled, i) == Inserted(doc, line, n, bottom, i);
    assert LineAt(filled, i + n) == Inserted(doc, line, n, bottom, i + n);
  }
}
