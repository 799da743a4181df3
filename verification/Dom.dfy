/** The terminal's screen as `WebTerminal` keeps it: text, `<br>` and `<span>` nodes under the cursor home,
    with the input line as a node that marks the cursor. */
module Dom {

  /** `Input` is the inputLine element; a span carries its style attribute. */
  datatype Node = Text(data: string) | Br | Span(style: string, children: seq<Node>) | Input

  /** A document as a sequence of items; `Here` is the input line. */
  datatype Item = Ch(c: char) | Brk | Open(style: string) | Close | Here

  function Chars(s: string): (r: seq<Item>)
    ensures |r| == |s| && forall i :: 0 <= i < |s| ==> r[i] == Ch(s[i])
  {
    seq(|s|, i requires 0 <= i < |s| => Ch(s[i]))
  }

  function FlatNode(n: Node): seq<Item>
    decreases n, 1
  {
    match n
    case Text(s) => Chars(s)
    case Br => [Brk]
    case Span(style, children) => [Open(style)] + Flat(children) + [Close]
    case Input => [Here]
  }

  function Flat(ns: seq<Node>): seq<Item>
    decreases ns, 0
  {
    if ns == [] then [] else FlatNode(ns[0]) + Flat(ns[1..])
  }

  lemma {:induction false} FlatConcat(a: seq<Node>, b: seq<Node>)
    ensures Flat(a + b) == Flat(a) + Flat(b)
  {
    if a == [] {
      assert a + b == b;
    } else {
      assert (a + b)[1..] == a[1..] + b;
      FlatConcat(a[1..], b);
    }
  }

  lemma FlatOne(n: Node)
    ensures Flat([n]) == FlatNode(n)
  {
  }

  // ---------------------------------------------------------------- positions

  /** Where a list of siblings sits: directly under the home, or inside a span with siblings of its own. */
  datatype Ctx = Home | In(style: string, left: seq<Node>, right: seq<Node>, up: Ctx)

  /** The children of the home, given the siblings at the position. */
  function Rebuild(ctx: Ctx, ns: seq<Node>): seq<Node> {
    match ctx
    case Home => ns
    case In(style, l, r, up) => Rebuild(up, l + [Span(style, ns)] + r)
  }

  function Before(ctx: Ctx, left: seq<Node>): seq<Item> {
    match ctx
    case Home => Flat(left)
    case In(style, l, _, up) => Before(up, l) + [Open(style)] + Flat(left)
  }

  function After(ctx: Ctx, right: seq<Node>): seq<Item> {
    match ctx
    case Home => Flat(right)
    case In(_, _, r, up) => Flat(right) + [Close] + After(up, r)
  }

  /** The document is what lies before a position, then what lies at it, then what lies after it. */
  lemma {:induction false} FlatRebuild(ctx: Ctx, left: seq<Node>, mid: seq<Node>, right: seq<Node>)
    ensures Flat(Rebuild(ctx, left + mid + right)) == Before(ctx, left) + Flat(mid) + After(ctx, right)
    decreases ctx
  {
    FlatConcat(left + mid, right);
    FlatConcat(left, mid);
    match ctx {
      case Home =>
      case In(style, l, r, up) =>
        var span := Span(style, left + mid + right);
        FlatRebuild(up, l, [span], r);
        FlatOne(span);
        Regroup(Before(up, l), [Open(style)], Flat(left), Flat(mid), Flat(right), [Close], After(up, r));
    }
  }

  lemma Regroup<T>(a: seq<T>, o: seq<T>, x: seq<T>, y: seq<T>, z: seq<T>, c: seq<T>, b: seq<T>)
    ensures a + (o + (x + y + z) + c) + b == (a + o + x) + y + (z + c + b)
  {
  }

  // ---------------------------------------------------------------- line and column

  function CharColumns(c: char): nat { if c == '\U{200B}' then 0 else 1 }

  predicate NewLine(c: char) { c == '\n' || c == '\r' || c == '\U{0C}' }

  function NextTabCol(col: nat): nat { col / 8 * 8 + 8 }

  /** Characters are one column wide, but for the zero-width space, and tabs go on to the next multiple of 8. */
  lemma ColumnRules(c: char, col: nat)
    ensures CharColumns(c) == 0 <==> c as int == 0x200B
    ensures !NewLine(c) && c != '\t' ==> UpdateColumn(c, col) - col == (if c as int == 0x200B then 0 else 1)
    ensures 1 <= UpdateColumn('\t', col) - col <= 8 && UpdateColumn('\t', col) % 8 == 0
    ensures NewLine(c) ==> UpdateColumn(c, col) == -1
  {
  }

  /** `updateColumn`: -1 after a character that starts a new line. */
  function UpdateColumn(c: char, col: int): int
    requires c == '\t' ==> col >= 0
  {
    if NewLine(c) then -1 else if c == '\t' then NextTabCol(col) else col + CharColumns(c)
  }

  /** A line and a column, both 0-origin. */
  datatype Place = Place(line: nat, column: nat)

  function Move(p: Place, i: Item): Place {
    match i
    case Ch(c) => if NewLine(c) then Place(p.line + 1, 0) else Place(p.line, UpdateColumn(c, p.column))
    case Brk => Place(p.line + 1, 0)
    case _ => p
  }

  /** Where one is after the items, starting from p. */
  function PlaceAfter(p: Place, items: seq<Item>): Place
    decreases |items|
  {
    if items == [] then p else PlaceAfter(Move(p, items[0]), items[1..])
  }

  const ORIGIN := Place(0, 0)

  lemma {:induction false} PlaceAfterConcat(p: Place, a: seq<Item>, b: seq<Item>)
    ensures PlaceAfter(p, a + b) == PlaceAfter(PlaceAfter(p, a), b)
    decreases |a|
  {
    if a == [] {
      assert a + b == b;
    } else {
      assert (a + b)[1..] == a[1..] + b;
      PlaceAfterConcat(Move(p, a[0]), a[1..], b);
    }
  }

  lemma PlaceAfterOne(p: Place, i: Item)
    ensures PlaceAfter(p, [i]) == Move(p, i)
  {
  }

  /** Lines only grow. */
  lemma {:induction false} LinesGrow(p: Place, items: seq<Item>)
    ensures p.line <= PlaceAfter(p, items).line
    decreases |items|
  {
    if items != [] {
      LinesGrow(Move(p, items[0]), items[1..]);
    }
  }

  // ---------------------------------------------------------------- delta2D

  /** `delta2D` from a node: the place after it, or, with `seen`, the place where the stop node is met. */
  datatype Delta = Delta(place: Place, seen: bool)

  /** The loop over a text node; a line feed right after a carriage return in the same node is part of it. */
  function DeltaText(s: string, p: Place): Place
    decreases |s|
  {
    if s == [] then p
    else if NewLine(s[0]) then
      DeltaText(if s[0] == '\r' && |s| > 1 && s[1] == '\n' then s[2..] else s[1..], Place(p.line + 1, 0))
    else DeltaText(s[1..], Place(p.line, UpdateColumn(s[0], p.column)))
  }

  function DeltaNode(n: Node, p: Place): Delta
    decreases n, 1
  {
    match n
    case Input => Delta(p, true)
    case Text(s) => Delta(DeltaText(s, p), false)
    case Br => Delta(Place(p.line + 1, 0), false)
    case Span(_, children) => DeltaNodes(children, p)
  }

  function DeltaNodes(ns: seq<Node>, p: Place): Delta
    decreases ns, 0
  {
    if ns == [] then Delta(p, false) else
      var d := DeltaNode(ns[0], p);
      if d.seen then d else DeltaNodes(ns[1..], d.place)
  }

  /** Neither tab nor carriage return. */
  predicate PlainItem(i: Item) { i.Ch? ==> i.c != '\t' && i.c != '\r' }

  predicate Plain(items: seq<Item>) { forall i :: i in items ==> PlainItem(i) }

  lemma {:induction false} DeltaTextFlat(s: string, p: Place)
    requires '\r' !in s
    ensures DeltaText(s, p) == PlaceAfter(p, Chars(s))
    decreases |s|
  {
    if s != [] {
      assert Chars(s)[1..] == Chars(s[1..]);
      DeltaTextFlat(s[1..], Move(p, Ch(s[0])));
    }
  }

  lemma CharsPlain(s: string)
    requires Plain(Chars(s))
    ensures '\r' !in s && '\t' !in s
  {
    forall i | 0 <= i < |s| ensures s[i] != '\r' && s[i] != '\t' {
      assert Chars(s)[i] in Chars(s);
    }
  }

  lemma PlainConcat(a: seq<Item>, b: seq<Item>)
    ensures Plain(a + b) <==> Plain(a) && Plain(b)
  {
    if Plain(a + b) {
      forall i | i in a ensures PlainItem(i) { assert i in a + b; }
      forall i | i in b ensures PlainItem(i) { assert i in a + b; }
    }
  }

  /** On a document without carriage returns, `delta2D` is the plain count over the items: up to the
      stop node if that is there, and over the whole otherwise. */
  lemma {:induction false} DeltaNodesFlat(ns: seq<Node>, p: Place, k: nat)
    requires Plain(Flat(ns)) && k <= |Flat(ns)|
    requires Here !in Flat(ns)[..k] && (k < |Flat(ns)| ==> Flat(ns)[k] == Here)
    ensures DeltaNodes(ns, p) == Delta(PlaceAfter(p, Flat(ns)[..k]), k < |Flat(ns)|)
    decreases ns, 0
  {
    if ns != [] {
      var a, b := FlatNode(ns[0]), Flat(ns[1..]);
      assert Flat(ns) == a + b;
      PlainConcat(a, b);
      if k < |a| {
        assert (a + b)[..k] == a[..k];
        DeltaNodeFlat(ns[0], p, k);
      } else {
        assert (a + b)[..k] == a + b[..k - |a|];
        assert a[..|a|] == a;
        DeltaNodeFlat(ns[0], p, |a|);
        DeltaNodesFlat(ns[1..], PlaceAfter(p, a), k - |a|);
        PlaceAfterConcat(p, a, b[..k - |a|]);
      }
    }
  }

  lemma OnlyHere(k: nat)
    requires k <= 1
    ensures Here !in [Here][..k] ==> k == 0
  {
    if k == 1 {
      assert [Here][..k] == [Here];
    }
  }

  lemma {:induction false} DeltaNodeFlat(n: Node, p: Place, k: nat)
    requires Plain(FlatNode(n)) && k <= |FlatNode(n)|
    requires Here !in FlatNode(n)[..k] && (k < |FlatNode(n)| ==> FlatNode(n)[k] == Here)
    ensures DeltaNode(n, p) == Delta(PlaceAfter(p, FlatNode(n)[..k]), k < |FlatNode(n)|)
    decreases n, 1
  {
    match n {
      case Text(s) =>
        CharsPlain(s);
        DeltaTextFlat(s, p);
        assert Chars(s)[..|s|] == Chars(s);
      case Br => PlaceAfterOne(p, Brk); assert [Brk][..1] == [Brk];
      case Input => OnlyHere(k);
      case Span(style, children) =>
        var f := Flat(children);
        var items := [Open(style)] + f + [Close];
        PlainConcat([Open(style)] + f, [Close]);
        PlainConcat([Open(style)], f);
        assert k > 0;
        if k <= |f| + 1 {
          assert items[..k] == [Open(style)] + f[..k - 1];
          assert k - 1 < |f| ==> items[k] == f[k - 1];
          DeltaNodesFlat(children, p, k - 1);
          PlaceAfterConcat(p, [Open(style)], f[..k - 1]);
          assert k < |f| + 1;
        } else {
          assert items[..k] == [Open(style)] + f + [Close];
          assert f[..|f|] == f;
          forall i | i in f ensures i != Here { assert i in items[..k]; }
          DeltaNodesFlat(children, p, |f|);
          PlaceAfterConcat(p, [Open(style)] + f, [Close]);
          PlaceAfterConcat(p, [Open(style)], f);
        }
    }
  }
}
