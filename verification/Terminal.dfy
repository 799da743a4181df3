/** Cursor motion: `moveTo` walks the document in order, merging and splitting text nodes and adding
    spaces or lines where the document is too short, until the cursor stands at the goal. */
module Terminal {
  import opened Dom

  // ---------------------------------------------------------------- stepping through a document

  lemma StepOver(ctx: Ctx, left: seq<Node>, n: Node, right: seq<Node>)
    ensures Before(ctx, left + [n]) == Before(ctx, left) + FlatNode(n)
    ensures After(ctx, [n] + right) == FlatNode(n) + After(ctx, right)
  {
    FlatConcat(left, [n]);
    FlatConcat([n], right);
    FlatOne(n);
    match ctx {
      case Home =>
      case In(style, l, r, up) =>
        assert (Before(up, l) + [Open(style)] + Flat(left)) + FlatNode(n)
            == Before(up, l) + [Open(style)] + (Flat(left) + FlatNode(n));
    }
  }

  lemma StepIn(ctx: Ctx, left: seq<Node>, style: string, children: seq<Node>, right: seq<Node>)
    ensures Before(In(style, left, right, ctx), []) == Before(ctx, left) + [Open(style)]
    ensures After(ctx, [Span(style, children)] + right) == [Open(style)] + After(In(style, left, right, ctx), children)
  {
    StepOver(ctx, left, Span(style, children), right);
    assert ([Open(style)] + Flat(children) + [Close]) + After(ctx, right) ==
           [Open(style)] + (Flat(children) + [Close] + After(ctx, right));
  }

  lemma StepOut(ctx: Ctx, left: seq<Node>)
    requires ctx.In?
    ensures Before(ctx.up, ctx.left + [Span(ctx.style, left)]) == Before(ctx, left) + [Close]
    ensures After(ctx, []) == [Close] + After(ctx.up, ctx.right)
  {
    var span := Span(ctx.style, left);
    StepOver(ctx.up, ctx.left, span, ctx.right);
    var b := Before(ctx.up, ctx.left);
    assert b + ([Open(ctx.style)] + Flat(left) + [Close]) == (b + [Open(ctx.style)] + Flat(left)) + [Close];
  }

  // ---------------------------------------------------------------- measure: nodes still to be visited

  function Weight(ns: seq<Node>): nat
    decreases ns
  {
    if ns == [] then 0 else
      (if ns[0].Span? then 2 + Weight(ns[0].children) else 1) + Weight(ns[1..])
  }

  function Remaining(ctx: Ctx, right: seq<Node>): nat {
    Weight(right) + if ctx.Home? then 0 else 1 + Remaining(ctx.up, ctx.right)
  }

  // ---------------------------------------------------------------- padding

  function Spaces(n: nat): (s: string)
    ensures |s| == n && forall i :: 0 <= i < n ==> s[i] == ' '
  {
    seq(n, _ => ' ')
  }

  function Newlines(n: nat): (s: string)
    ensures |s| == n && forall i :: 0 <= i < n ==> s[i] == '\n'
  {
    seq(n, _ => '\n')
  }

  lemma {:induction false} PlaceAfterSpaces(p: Place, n: nat)
    ensures PlaceAfter(p, Chars(Spaces(n))) == Place(p.line, p.column + n)
    decreases n
  {
    if n > 0 {
      assert Chars(Spaces(n))[1..] == Chars(Spaces(n - 1));
      PlaceAfterSpaces(Move(p, Ch(' ')), n - 1);
    }
  }

  lemma {:induction false} PlaceAfterNewlines(p: Place, n: nat)
    ensures PlaceAfter(p, Chars(Newlines(n))) == if n == 0 then p else Place(p.line + n, 0)
    decreases n
  {
    if n > 0 {
      assert Chars(Newlines(n))[1..] == Chars(Newlines(n - 1));
      PlaceAfterNewlines(Move(p, Ch('\n')), n - 1);
    }
  }

  lemma CharsConcat(a: string, b: string)
    ensures Chars(a + b) == Chars(a) + Chars(b)
  {
  }

  /** The item starts a new line. */
  predicate EndsLine(i: Item) { i.Brk? || (i.Ch? && NewLine(i.c)) }

  // ---------------------------------------------------------------- one text node

  predicate NotPast(p: Place, goal: Place) {
    p.line < goal.line || (p.line == goal.line && p.column <= goal.column)
  }

  /** What the scan of a text node from `start` has found: either the whole text was walked, or it is to be
      split at `split`, where the goal is reached, after n spaces were put in at k, in front of a newline. */
  ghost predicate Walked(text0: string, start: nat, p: Place, goal: Place, text: string, split: int, q: Place)
    requires start <= |text0|
  {
    if split < 0 then
      && text == text0 && q == PlaceAfter(p, Chars(text0[start..])) && NotPast(q, goal)
      && NotBefore(text0, start, p, goal, |text0|)
    else exists k: nat, n: nat :: SplitAt(text0, start, p, goal, text, split, k, n) && q == goal
  }

  ghost predicate SplitAt(text0: string, start: nat, p: Place, goal: Place, text: string, split: int, k: nat, n: nat)
    requires start <= |text0|
  {
    && start <= k < |text0| && split == k + n
    && text == text0[..k] + Spaces(n) + text0[k..]
    && PlaceAfter(p, Chars(text0[start..k]) + Chars(Spaces(n))) == goal
    && (n > 0 ==> NewLine(text0[k])) && NotBefore(text0, start, p, goal, k)
  }

  /** No position of the text before k is at the goal. */
  ghost predicate NotBefore(text0: string, start: nat, p: Place, goal: Place, k: nat)
    requires start <= k <= |text0|
  {
    forall j :: start <= j < k ==> PlaceAfter(p, Chars(text0[start..j])) != goal
  }

  /** The loop of `moveTo` over one text node, from index start on. */
  method WalkText(text0: string, start: nat, p: Place, goal: Place) returns (text: string, split: int, line: nat, column: nat)
    requires start <= |text0| && NotPast(p, goal) && p != goal && Plain(Chars(text0[start..]))
    ensures Walked(text0, start, p, goal, text, split, Place(line, column))
  {
    text, split, line, column := text0, -1, p.line, p.column;
    CharsPlain(text0[start..]);
    var i := start;
    while i < |text0|
      invariant start <= i <= |text0| && NotPast(Place(line, column), goal)
      invariant Place(line, column) == PlaceAfter(p, Chars(text0[start..i])) && NotBefore(text0, start, p, goal, i)
    {
      assert Chars(text0[start..i + 1]) == Chars(text0[start..i]) + [Ch(text0[i])];
      PlaceAfterConcat(p, Chars(text0[start..i]), [Ch(text0[i])]);
      PlaceAfterOne(Place(line, column), Ch(text0[i]));
      assert text0[start..][i - start] == text0[i];
      if line >= goal.line && column >= goal.column {
        split := i;
        assert text0 == text0[..i] + Spaces(0) + text0[i..];
        assert Chars(text0[start..i]) + Chars(Spaces(0)) == Chars(text0[start..i]);
        assert SplitAt(text0, start, p, goal, text, split, i, 0);
        return;
      }
      var next := UpdateColumn(text0[i], column);
      if next == -1 {
        if line == goal.line {
          var n := goal.column - column;
          text := text0[..i] + Spaces(n) + text0[i..];
          column, split := goal.column, i + n;
          PlaceAfterConcat(p, Chars(text0[start..i]), Chars(Spaces(n)));
          PlaceAfterSpaces(PlaceAfter(p, Chars(text0[start..i])), n);
          assert SplitAt(text0, start, p, goal, text, split, i, n);
          return;
        } else {
          line, column := line + 1, 0;
        }
      } else {
        column := next;
      }
      i := i + 1;
    }
    assert text0[start..|text0|] == text0[start..];
  }

  // ---------------------------------------------------------------- the walk

  /** The walk from place p over the items a0 to the goal ended after a0[..k] and the inserted pad. */
  datatype Stop = Stop(k: nat, pad: seq<Item>)

  /** Padding goes where a line ends: spaces in front of a line end, or lines and spaces at the end of the
      document. */
  ghost predicate PadOk(a0: seq<Item>, s: Stop) {
    && s.k <= |a0|
    && (s.pad != [] && s.k < |a0| ==> EndsLine(a0[s.k]) && exists n: nat :: s.pad == Chars(Spaces(n)))
    && (s.k == |a0| ==> exists m: nat, n: nat :: s.pad == Chars(Newlines(m)) + Chars(Spaces(n)))
  }

  /** No position before k is at the goal, save for span ends between it and k. */
  ghost predicate FirstAt(p: Place, a0: seq<Item>, goal: Place, k: nat)
    requires k <= |a0|
  {
    forall j :: 0 <= j < k && PlaceAfter(p, a0[..j]) == goal ==> a0[j] == Close
  }

  /** Nor is one from k0 on, where one is at p. */
  ghost predicate NotOver(a0: seq<Item>, k0: nat, p: Place, goal: Place, k: nat) {
    k0 <= k <= |a0| && forall j :: k0 <= j < k ==> PlaceAfter(p, a0[k0..j]) != goal
  }

  /** The line of the goal exists, or the column is one that appended lines start with. */
  predicate Reachable(p: Place, a0: seq<Item>, goal: Place) {
    var end := PlaceAfter(p, a0);
    goal.line <= end.line || goal.column == 0 || end.column == 0
  }

  /** Where the walk ends: at the goal, except that the columns of the last line are not made up for on
      lines that had to be appended. */
  function Landing(p: Place, a0: seq<Item>, goal: Place): Place {
    var end := PlaceAfter(p, a0);
    if Reachable(p, a0, goal) then goal
    else Place(goal.line, if goal.column > end.column then goal.column - end.column else 0)
  }

  class Terminal {
    var ctx: Ctx            // outputContainer, and where it sits
    var left: seq<Node>     // its children before the input line
    var right: seq<Node>    // its children from the walk's current node on; after a move, those after the input line
    var currentCursorLine: int     // -1 when unknown
    var currentCursorColumn: int

    /** The document without the input line. */
    ghost function Doc(): seq<Item>
      reads this
    {
      Before(ctx, left) + After(ctx, right)
    }

    /** The walk has passed a0[..k] after b0, and the rest of a0 lies ahead. */
    ghost predicate Passed(b0: seq<Item>, a0: seq<Item>, k: nat)
      reads this`ctx, this`left, this`right
    {
      k <= |a0| && Before(ctx, left) == b0 + a0[..k] && After(ctx, right) == a0[k..]
    }

    /** Merges text nodes left of the current one into it; they can be adjacent where the input line was. */
    method MergeText() returns (text: string, start: nat)
      requires right != [] && right[0].Text?
      modifies this`left, this`right
      ensures right != [] && right[0] == Text(text) && right[1..] == old(right)[1..] && start <= |text|
      ensures text[start..] == old(right)[0].data
      ensures Before(ctx, left) + Chars(text[..start]) == Before(ctx, old(left))
      ensures Remaining(ctx, right) == Remaining(ctx, old(right))
    {
      hide Before, Remaining;
      text, start := right[0].data, 0;
      NothingMerged(Before(ctx, left), text);
      while left != [] && left[|left| - 1].Text?
        invariant right == old(right) && start <= |text| && text[start..] == old(right)[0].data
        invariant Before(ctx, left) + Chars(text[..start]) == Before(ctx, old(left))
        decreases |left|
      {
        var before := left[|left| - 1].data;
        OneMerged(ctx, left, before, text, start);
        text, start, left := before + text, start + |before|, left[..|left| - 1];
      }
      SameWeight(ctx, right, text);
      right := [Text(text)] + right[1..];
    }

    /** `appendText`: into the last text node under the parent, or into a new one. */
    method AppendText(data: string)
      requires right == []
      modifies this`left
      ensures Before(ctx, left) == old(Before(ctx, left)) + Chars(data)
    {
      if data == "" { assert Chars(data) == []; return; }
      AddText(data);
    }

    /** Adds text in front of the current node. */
    method AddText(data: string)
      modifies this`left
      ensures Before(ctx, left) == old(Before(ctx, left)) + Chars(data)
    {
      if left != [] && left[|left| - 1].Text? {
        var l, s := left[..|left| - 1], left[|left| - 1].data;
        assert left == l + [Text(s)];
        StepOver(ctx, l, Text(s), []);
        StepOver(ctx, l, Text(s + data), []);
        CharsConcat(s, data);
        left := l + [Text(s + data)];
      } else {
        StepOver(ctx, left, Text(data), []);
        left := left + [Text(data)];
      }
    }

    /** With no sibling left, leaves spans until one has a next sibling; false at the end of the home. */
    method GoUp(ghost p0: Place, ghost goal: Place, ghost b0: seq<Item>, ghost a0: seq<Item>, ghost k0: nat)
        returns (more: bool, ghost k: nat)
      requires right == [] && Passed(b0, a0, k0) && FirstAt(p0, a0, goal, k0)
      modifies this`ctx, this`left, this`right
      ensures Passed(b0, a0, k) && FirstAt(p0, a0, goal, k) && PlaceAfter(p0, a0[..k]) == PlaceAfter(p0, a0[..k0])
      ensures more <==> right != []
      ensures more ==> Remaining(ctx, right) < old(Remaining(ctx, right))
      ensures !more ==> ctx == Home && a0[..k] == a0
    {
      hide FirstAt, PlaceAfter;
      k := k0;
      while ctx.In? && right == []
        invariant k0 <= k && Passed(b0, a0, k) && forall i :: k0 <= i < k ==> a0[i] == Close
        invariant Remaining(ctx, right) <= old(Remaining(ctx, right))
        invariant right != [] ==> Remaining(ctx, right) < old(Remaining(ctx, right))
        decreases Remaining(ctx, right)
      {
        StepOut(ctx, left);
        assert a0[k..][0] == Close && a0[k..][1..] == a0[k + 1..] && a0[..k + 1] == a0[..k] + [a0[k]];
        assert b0 + a0[..k + 1] == (b0 + a0[..k]) + [Close];
        ctx, left, right, k := ctx.up, ctx.left + [Span(ctx.style, left)], ctx.right, k + 1;
      }
      more := right != [];
      if !more { assert Flat(right) == []; }
      ClosesDoNotMove(p0, a0, k0, k);
      NotInCloses(p0, a0, goal, k0, k);
    }

    /** The case of a text node: merge, scan, and split where the goal is reached. */
    method StepText(p: Place, goal: Place, ghost b0: seq<Item>, ghost a0: seq<Item>, ghost k0: nat)
        returns (line: nat, column: nat, ghost stop: Stop, reached: bool)
      requires right != [] && right[0].Text? && Passed(b0, a0, k0) && Plain(a0) && NotPast(p, goal) && p != goal
      modifies this`left, this`right
      ensures !reached ==> k0 <= stop.k && Passed(b0, a0, stop.k)
      ensures !reached ==> Place(line, column) == PlaceAfter(p, a0[k0..stop.k]) && NotPast(Place(line, column), goal)
      ensures !reached ==> Remaining(ctx, right) < old(Remaining(ctx, right))
      ensures reached ==> k0 <= stop.k < |a0| && PadOk(a0, stop) && After(ctx, right) == a0[stop.k..]
      ensures reached ==> Before(ctx, left) == b0 + a0[..stop.k] + stop.pad
      ensures reached ==> right != [] && exists n: nat :: stop.pad == Chars(Spaces(n))
      ensures reached ==> Place(line, column) == goal == PlaceAfter(p, a0[k0..stop.k] + stop.pad)
      ensures NotOver(a0, k0, p, goal, stop.k)
    {
      hide Before, After, PlaceAfter, Plain, Weight, NotBefore, NotOver, PadOk, NotPast, Chars, Spaces, EndsLine, SplitAt;
      ghost var s0, tail := right[0].data, right[1..];
      assert right == [Text(s0)] + tail;
      StepOver(ctx, left, Text(s0), tail);
      PlainText(a0, k0, s0, After(ctx, tail));
      var merged, start := MergeText();
      ghost var l := left;
      var text, split;
      text, split, line, column := WalkText(merged, start, p, goal);
      reached := split >= 0;
      if !reached {
        stop := Stop(k0 + |s0|, []);
        TextPassed(ctx, l, tail, b0, a0, k0, merged, start, s0);
        NoneBefore(a0, k0, merged, start, s0, p, goal, |s0|);
        WeightOne(ctx, right);
        left, right := left + [right[0]], right[1..];
      } else {
        ghost var i: nat, n: nat :| SplitAt(merged, start, p, goal, text, split, i, n);
        SplitParts(merged, start, p, goal, text, split, i, n);
        stop := Stop(k0 + (i - start), Chars(Spaces(n)));
        TextSplit(ctx, l, tail, b0, a0, k0, merged, start, s0, p, goal, text, split, i, n);
        NoneBefore(a0, k0, merged, start, s0, p, goal, i - start);
        left, right := left + [Text(text[..split])], [Text(text[split..])] + right[1..];
      }
    }

    /** The loop of `moveTo`, from place p0 at the current node.  Apart from the padding at its end it
        changes no item: every character, break and span boundary stays, in order. */
    method Walk(p0: Place, goal: Place) returns (line: nat, column: nat, ghost stop: Stop)
      requires Plain(After(ctx, right)) && NotPast(p0, goal)
      modifies this`ctx, this`left, this`right
      ensures Place(line, column) == goal
      ensures var b0, a0 := old(Before(ctx, left)), old(After(ctx, right));
        && PadOk(a0, stop)
        && Before(ctx, left) == b0 + a0[..stop.k] + stop.pad && After(ctx, right) == a0[stop.k..]
        && PlaceAfter(p0, a0[..stop.k] + stop.pad) == Landing(p0, a0, goal)
        && FirstAt(p0, a0, goal, stop.k)
      ensures p0 == goal ==> ctx == old(ctx) && left == old(left) && right == old(right)
      ensures p0 != goal ==> right != [] || ctx == Home
    {
      hide Before, After, PlaceAfter, Plain, PadOk, Landing, FlatNode, Remaining, FirstAt, NotOver;
      ghost var b0, a0 := Before(ctx, left), After(ctx, right);
      ghost var k: nat := 0;
      line, column := p0.line, p0.column;
      Start(p0, b0, a0);
      FirstAtStart(p0, a0, goal);
      while line < goal.line || column < goal.column
        invariant Passed(b0, a0, k) && NotPast(Place(line, column), goal)
        invariant Place(line, column) == PlaceAfter(p0, a0[..k]) && FirstAt(p0, a0, goal, k)
        invariant p0 == goal ==> Place(line, column) == p0 && ctx == old(ctx) && left == old(left) && right == old(right)
        invariant Place(line, column) == p0 || right != [] || ctx == Home
        decreases Remaining(ctx, right)
      {
        if right != [] {
          if right[0].Br? {
            if line == goal.line {
              stop := PadLine(p0, goal, b0, a0, k, goal.column - column);
              column := goal.column;
              return;
            }
            PassFlat(ctx, left, right, b0, a0, k, p0, goal);
            line, column, k := line + 1, 0, k + 1;
            left, right := left + [right[0]], right[1..];
          } else if right[0].Text? {
            ghost var s: Stop;
            var reached;
            var p := Place(line, column);
            line, column, s, reached := StepText(p, goal, b0, a0, k);
            TextDone(p0, a0, goal, k, s, reached);
            if reached {
              stop := s;
              return;
            }
            k := s.k;
          } else if right[0].Span? && right[0].children != [] {
            var style, children := right[0].style, right[0].children;
            EnterSpan(ctx, left, right, b0, a0, k, p0, goal);
            k := k + 1;
            ctx, left, right := In(style, left, right[1..], ctx), [], children;
            continue;
          } else {
            PassFlat(ctx, left, right, b0, a0, k, p0, goal);
            k := k + |FlatNode(right[0])|;
            left, right := left + [right[0]], right[1..];
          }
        }
        if right == [] {
          var more;
          more, k := GoUp(p0, goal, b0, a0, k);
          if !more {
            line, column, stop := AppendAtEnd(p0, goal, b0, a0, line, column);
            return;
          }
        }
      }
      stop := Stop(k, []);
      StopHere(p0, b0, a0, k, goal);
    }

    /** In front of a break that ends the goal's line: spaces for the columns still missing. */
    method PadLine(ghost p0: Place, ghost goal: Place, ghost b0: seq<Item>, ghost a0: seq<Item>, ghost k: nat, n: nat)
        returns (ghost stop: Stop)
      requires right != [] && right[0].Br? && Passed(b0, a0, k)
      requires var p := PlaceAfter(p0, a0[..k]); p.line == goal.line && p.column + n == goal.column
      modifies this`left
      ensures stop.k == k && PadOk(a0, stop) && Before(ctx, left) == b0 + a0[..k] + stop.pad
      ensures PlaceAfter(p0, a0[..k] + stop.pad) == Landing(p0, a0, goal)
    {
      hide PlaceAfter, Before, After, Landing, PadOk;
      AddText(Spaces(n));
      stop := Stop(k, Chars(Spaces(n)));
      BreakAhead(ctx, right, a0, k);
      PaddedStop(p0, goal, a0, k, n);
    }

    /** At the end of the home: lines up to the goal's, then spaces for the columns still missing. */
    method AppendAtEnd(p0: Place, goal: Place, ghost b0: seq<Item>, ghost a0: seq<Item>, line0: nat, column0: nat)
        returns (line: nat, column: nat, ghost stop: Stop)
      requires ctx == Home && right == [] && Before(ctx, left) == b0 + a0
      requires Place(line0, column0) == PlaceAfter(p0, a0) && NotPast(Place(line0, column0), goal)
      modifies this`left
      ensures Place(line, column) == goal && stop.k == |a0| && PadOk(a0, stop)
      ensures Before(ctx, left) == b0 + a0 + stop.pad && PlaceAfter(p0, a0 + stop.pad) == Landing(p0, a0, goal)
    {
      var m := goal.line - line0;
      if m > 0 {
        AppendText(Newlines(m));
      } else {
        assert Chars(Newlines(0)) == [];
      }
      assert Before(ctx, left) == b0 + a0 + Chars(Newlines(m));
      var n := if goal.column > column0 then goal.column - column0 else 0;
      if n > 0 {
        AppendText(Spaces(n));
      } else {
        assert Chars(Spaces(0)) == [];
      }
      line, column := goal.line, goal.column;
      stop := Stop(|a0|, Chars(Newlines(m)) + Chars(Spaces(n)));
      assert Before(ctx, left) == b0 + a0 + stop.pad;
      PlaceAfterConcat(p0, a0, stop.pad);
      PlaceAfterConcat(PlaceAfter(p0, a0), Chars(Newlines(m)), Chars(Spaces(n)));
      PlaceAfterNewlines(PlaceAfter(p0, a0), m);
      PlaceAfterSpaces(PlaceAfter(PlaceAfter(p0, a0), Chars(Newlines(m))), n);
    }

    // ---------------------------------------------------------------- the cursor

    /** The place of the input line. */
    ghost function Cursor(): Place
      reads this
    {
      PlaceAfter(ORIGIN, Before(ctx, left))
    }

    /** There is one input line, and the cursor cache, where known, is right. */
    ghost predicate Valid()
      reads this
    {
      && Plain(Doc()) && Here !in Doc()
      && (currentCursorLine >= 0 ==> currentCursorLine == Cursor().line)
      && (currentCursorColumn >= 0 ==> currentCursorColumn == Cursor().column)
    }

    constructor (doc: seq<Node>)
      requires Plain(Flat(doc)) && Here !in Flat(doc)
      ensures Valid() && Doc() == Flat(doc) && ctx == Home && left == []
    {
      ctx, left, right := Home, [], doc;
      currentCursorLine, currentCursorColumn := -1, -1;
      new;
      assert [] + Flat(doc) == Flat(doc);
    }

    /** `updateCursorCache`: the cursor as `delta2D` counts it. */
    method UpdateCursorCache()
      requires Valid()
      modifies this`currentCursorLine, this`currentCursorColumn
      ensures Valid() && currentCursorLine == Cursor().line && currentCursorColumn == Cursor().column
    {
      DeltaAtCursor(ctx, left, right);
      var d := DeltaNodes(Rebuild(ctx, left + [Input] + right), ORIGIN);
      currentCursorLine, currentCursorColumn := d.place.line, d.place.column;
    }

    method GetCursorLine() returns (line: nat)
      requires Valid()
      modifies this`currentCursorLine, this`currentCursorColumn
      ensures Valid() && line == Cursor().line
    {
      if currentCursorLine < 0 { UpdateCursorCache(); }
      line := currentCursorLine;
    }

    method GetCursorColumn() returns (column: nat)
      requires Valid()
      modifies this`currentCursorLine, this`currentCursorColumn
      ensures Valid() && column == Cursor().column
    {
      if currentCursorColumn < 0 { UpdateCursorCache(); }
      column := currentCursorColumn;
    }

    /** `moveTo(line, column)`, from the cursor when the cache says it is not past the goal and from the
        home otherwise.  The cursor, by `delta2D`, is at the goal exactly when the goal is reachable. */
    method MoveTo(goalLine: nat, goalColumn: nat) returns (ghost stop: Stop)
      requires Valid()
      modifies this
      ensures var doc := old(Doc());
        && PadOk(doc, stop) && Before(ctx, left) == doc[..stop.k] + stop.pad && After(ctx, right) == doc[stop.k..]
        && Cursor() == Landing(ORIGIN, doc, Place(goalLine, goalColumn))
      ensures if old(currentCursorLine) == goalLine && old(currentCursorColumn) == goalColumn
        then ctx == old(ctx) && left == old(left) && right == old(right)
        else FirstAt(ORIGIN, old(Doc()), Place(goalLine, goalColumn), stop.k) && (stop.k > 0 ==> right != [] || ctx == Home)
      ensures DeltaNodes(Rebuild(ctx, left + [Input] + right), ORIGIN) == Delta(Cursor(), true)
      ensures currentCursorLine == goalLine && currentCursorColumn == goalColumn
      ensures Valid() <==> Reachable(ORIGIN, old(Doc()), Place(goalLine, goalColumn))
    {
      hide Before, After, PlaceAfter, Plain, PadOk, Landing, DeltaNodes, Rebuild, FirstAt;
      var goal := Place(goalLine, goalColumn);
      ghost var doc := Doc();
      var p := StartOfWalk(goal);
      ghost var b0, a0 := Before(ctx, left), After(ctx, right);
      PlainConcat(b0, a0);
      var line, column;
      ghost var s;
      line, column, s := Walk(p, goal);
      currentCursorLine, currentCursorColumn := line, column;
      stop := Stop(|b0| + s.k, s.pad);
      WholeStop(b0, a0, p, goal, s);
      if p != goal || b0 == [] { FirstInWhole(b0, a0, p, goal, s.k); }
      NoHereAdded(doc, stop);
      DeltaAtCursor(ctx, left, right);
      LandingIff(ORIGIN, doc, goal);
    }

    /** The cursor, when the cache says it is not past the goal, and the home otherwise. */
    method StartOfWalk(goal: Place) returns (p: Place)
      requires Valid()
      modifies this`ctx, this`left, this`right
      ensures Doc() == old(Doc()) && p == Cursor() && NotPast(p, goal)
      ensures p == goal && Before(ctx, left) != [] ==>
        old(currentCursorLine) == goal.line && old(currentCursorColumn) == goal.column
      ensures old(currentCursorLine) == goal.line && old(currentCursorColumn) == goal.column ==>
        p == goal && ctx == old(ctx) && left == old(left) && right == old(right)
    {
      if currentCursorLine >= 0 && currentCursorColumn >= 0 && goal.line >= currentCursorLine
        && (goal.line > currentCursorLine || goal.column >= currentCursorColumn) {
        p := Place(currentCursorLine, currentCursorColumn);
      } else {
        AtHome(ctx, left, right);
        ctx, left, right := Home, [], Rebuild(ctx, left + right);
        p := ORIGIN;
        Start(ORIGIN, [], Before(ctx, left));
      }
    }

    /** `moveTo(inputLine, lines, 0)`: to the start of a line further down, leaving the cache unknown. */
    method MoveDown(lines: nat) returns (ghost stop: Stop)
      requires Valid() && lines > 0
      modifies this
      ensures Valid() && Cursor() == Place(old(Cursor()).line + lines, 0)
      ensures var doc := old(Doc());
        PadOk(doc, stop) && Before(ctx, left) == doc[..stop.k] + stop.pad && After(ctx, right) == doc[stop.k..]
      ensures old(|Before(ctx, left)|) <= stop.k && currentCursorColumn == -1
    {
      hide Before, After, PlaceAfter, Plain, PadOk, Landing;
      ghost var doc, b0, a0, p := Doc(), Before(ctx, left), After(ctx, right), Cursor();
      PlainConcat(b0, a0);
      var goal := Place(lines, 0);
      var line, column;
      ghost var s;
      line, column, s := Walk(ORIGIN, goal);
      currentCursorLine, currentCursorColumn := -1, -1;
      stop := Stop(|b0| + s.k, s.pad);
      WholePadOk(b0, a0, s);
      ColumnZero(ORIGIN, a0, goal);
      ColumnZero(p, a0, Place(p.line + lines, 0));
      PlaceShift(p, ORIGIN, p.line, a0[..s.k] + s.pad);
      assert b0 + a0[..s.k] + s.pad == b0 + (a0[..s.k] + s.pad);
      PlaceAfterConcat(ORIGIN, b0, a0[..s.k] + s.pad);
      NoHereAdded(doc, stop);
      assert Before(ctx, left) + After(ctx, right) == doc[..stop.k] + stop.pad + doc[stop.k..];
    }

    /** `cursorLineStart`. */
    method CursorLineStart(deltaLines: int) returns (ghost stop: Stop)
      requires Valid() && Cursor().line + deltaLines >= 0
      modifies this
      ensures Valid() && Cursor() == Place(old(Cursor()).line + deltaLines, 0)
      ensures var doc := old(Doc());
        PadOk(doc, stop) && Before(ctx, left) == doc[..stop.k] + stop.pad && After(ctx, right) == doc[stop.k..]
      ensures currentCursorColumn == if deltaLines > 0 then -1 else 0
    {
      if deltaLines > 0 {
        stop := MoveDown(deltaLines);
      } else {
        var line := GetCursorLine();
        ColumnZero(ORIGIN, Doc(), Place(line + deltaLines, 0));
        stop := MoveTo(line + deltaLines, 0);
      }
    }
  }

  lemma NothingMerged(b: seq<Item>, text: string)
    ensures b + Chars(text[..0]) == b && text[0..] == text
  {
  }

  lemma OneMerged(ctx: Ctx, left: seq<Node>, before: string, text: string, start: nat)
    requires left != [] && left[|left| - 1] == Text(before) && start <= |text|
    ensures (before + text)[start + |before|..] == text[start..]
    ensures Before(ctx, left[..|left| - 1]) + Chars((before + text)[..start + |before|])
         == Before(ctx, left) + Chars(text[..start])
  {
    hide Before, Chars;
    var l := left[..|left| - 1];
    assert left == l + [Text(before)];
    StepOver(ctx, l, Text(before), []);
    assert (before + text)[..start + |before|] == before + text[..start];
    CharsConcat(before, text[..start]);
    assert Before(ctx, l) + (Chars(before) + Chars(text[..start])) == (Before(ctx, l) + Chars(before)) + Chars(text[..start]);
  }

  lemma SameWeight(ctx: Ctx, right: seq<Node>, text: string)
    requires right != [] && right[0].Text?
    ensures Remaining(ctx, [Text(text)] + right[1..]) == Remaining(ctx, right)
  {
    assert ([Text(text)] + right[1..])[1..] == right[1..];
  }

  lemma AtHome(ctx: Ctx, left: seq<Node>, right: seq<Node>)
    ensures Before(Home, []) == [] && After(Home, Rebuild(ctx, left + right)) == Before(ctx, left) + After(ctx, right)
  {
    FlatRebuild(ctx, left, [], right);
    assert left + [] + right == left + right;
    assert Before(ctx, left) + [] == Before(ctx, left);
  }

  /** `delta2D` finds the input line at the place its items say. */
  lemma DeltaAtCursor(ctx: Ctx, left: seq<Node>, right: seq<Node>)
    requires Plain(Before(ctx, left) + After(ctx, right)) && Here !in Before(ctx, left) + After(ctx, right)
    ensures DeltaNodes(Rebuild(ctx, left + [Input] + right), ORIGIN) == Delta(PlaceAfter(ORIGIN, Before(ctx, left)), true)
  {
    hide DeltaNodes, PlaceAfter, Before, After, Rebuild, Flat, Plain;
    var b, a := Before(ctx, left), After(ctx, right);
    FlatRebuild(ctx, left, [Input], right);
    assert Flat([Input]) == [Here] by { FlatOne(Input); assert FlatNode(Input) == [Here]; }
    PlainConcat(b, a);
    PlainConcat(b, [Here]);
    PlainConcat(b + [Here], a);
    assert Plain([Here]) by { PlainHere(); }
    assert (b + [Here] + a)[..|b|] == b;
    DeltaNodesFlat(Rebuild(ctx, left + [Input] + right), ORIGIN, |b|);
  }

  lemma PlainHere()
    ensures Plain([Here])
  {
  }

  lemma WholePadOk(b0: seq<Item>, a0: seq<Item>, s: Stop)
    requires PadOk(a0, s)
    ensures s.k <= |a0| && PadOk(b0 + a0, Stop(|b0| + s.k, s.pad))
    ensures (b0 + a0)[..|b0| + s.k] == b0 + a0[..s.k] && (b0 + a0)[|b0| + s.k..] == a0[s.k..]
  {
  }

  /** A walk that started inside the document is one over the whole document. */
  lemma WholeStop(b0: seq<Item>, a0: seq<Item>, p: Place, goal: Place, s: Stop)
    requires PadOk(a0, s) && p == PlaceAfter(ORIGIN, b0)
    requires PlaceAfter(p, a0[..s.k] + s.pad) == Landing(p, a0, goal)
    ensures var doc, stop := b0 + a0, Stop(|b0| + s.k, s.pad);
      && PadOk(doc, stop) && doc[..stop.k] + stop.pad == b0 + a0[..s.k] + s.pad && doc[stop.k..] == a0[s.k..]
      && PlaceAfter(ORIGIN, doc[..stop.k] + stop.pad) == Landing(ORIGIN, doc, goal)
  {
    WholePadOk(b0, a0, s);
    PlaceAfterConcat(ORIGIN, b0, a0);
    assert b0 + a0[..s.k] + s.pad == b0 + (a0[..s.k] + s.pad);
    PlaceAfterConcat(ORIGIN, b0, a0[..s.k] + s.pad);
  }

  lemma {:induction false} PlaceGrows(p: Place, items: seq<Item>)
    ensures NotPast(p, PlaceAfter(p, items))
    decreases |items|
  {
    if items != [] { PlaceGrows(Move(p, items[0]), items[1..]); }
  }

  lemma FirstInWhole(b0: seq<Item>, a0: seq<Item>, p: Place, goal: Place, k: nat)
    requires k <= |a0| && p == PlaceAfter(ORIGIN, b0) && NotPast(p, goal) && (p != goal || b0 == [])
    requires FirstAt(p, a0, goal, k)
    ensures FirstAt(ORIGIN, b0 + a0, goal, |b0| + k)
  {
    hide PlaceAfter;
    var doc := b0 + a0;
    forall j | 0 <= j < |b0| + k && PlaceAfter(ORIGIN, doc[..j]) == goal ensures doc[j] == Close {
      if j < |b0| {
        assert doc[..j] == b0[..j] && b0 == b0[..j] + b0[j..];
        PlaceAfterConcat(ORIGIN, b0[..j], b0[j..]);
        PlaceGrows(PlaceAfter(ORIGIN, b0[..j]), b0[j..]);
      } else {
        assert doc[..j] == b0 + a0[..j - |b0|];
        PlaceAfterConcat(ORIGIN, b0, a0[..j - |b0|]);
      }
    }
  }

  lemma NoHereAdded(doc: seq<Item>, s: Stop)
    requires PadOk(doc, s)
    ensures Plain(doc) ==> Plain(doc[..s.k] + s.pad + doc[s.k..])
    ensures Here !in doc ==> Here !in doc[..s.k] + s.pad + doc[s.k..]
  {
  }

  /** The goal is missed exactly when it is not reachable. */
  lemma LandingIff(p: Place, a0: seq<Item>, goal: Place)
    ensures Landing(p, a0, goal) == goal <==> Reachable(p, a0, goal)
  {
  }

  /** One line of two characters: asked for line 1, column 3, the cursor ends in column 1. */
  lemma MissedGoal()
    ensures Landing(ORIGIN, Chars("ab"), Place(1, 3)) == Place(1, 1)
  {
    var cs := Chars("ab");
    assert cs == [Ch('a')] + [Ch('b')];
    PlaceAfterConcat(ORIGIN, [Ch('a')], [Ch('b')]);
    PlaceAfterOne(ORIGIN, Ch('a'));
    PlaceAfterOne(Place(0, 1), Ch('b'));
  }

  lemma ColumnZero(p: Place, a0: seq<Item>, goal: Place)
    requires goal.column == 0
    ensures Landing(p, a0, goal) == goal && Reachable(p, a0, goal)
  {
  }

  /** Starting d lines further down ends d lines further down, and once a line has ended the starting
      column no longer matters. */
  lemma {:induction false} PlaceShift(p: Place, r: Place, d: nat, items: seq<Item>)
    requires p.line == r.line + d
    ensures PlaceAfter(p, items).line == PlaceAfter(r, items).line + d
    ensures PlaceAfter(r, items).line > r.line || p.column == r.column ==>
      PlaceAfter(p, items).column == PlaceAfter(r, items).column
    decreases |items|
  {
    if items != [] {
      PlaceShift(Move(p, items[0]), Move(r, items[0]), d, items[1..]);
      LinesGrow(Move(r, items[0]), items[1..]);
    }
  }

  lemma Start(p0: Place, b0: seq<Item>, a0: seq<Item>)
    ensures b0 + a0[..0] == b0 && a0[0..] == a0 && PlaceAfter(p0, a0[..0]) == p0
  {
  }

  lemma FirstAtStart(p: Place, a0: seq<Item>, goal: Place)
    ensures FirstAt(p, a0, goal, 0)
  {
  }

  lemma NotYet(p: Place, a0: seq<Item>, goal: Place, k: nat, k': nat)
    requires k <= k' <= |a0| && FirstAt(p, a0, goal, k)
    requires k < k' ==> PlaceAfter(p, a0[..k]) != goal
    requires forall j :: k < j < k' ==> a0[j] == Close
    ensures FirstAt(p, a0, goal, k')
  {
    hide PlaceAfter;
  }

  lemma NotInCloses(p: Place, a0: seq<Item>, goal: Place, k: nat, k': nat)
    requires k <= k' <= |a0| && FirstAt(p, a0, goal, k) && forall j :: k <= j < k' ==> a0[j] == Close
    ensures FirstAt(p, a0, goal, k')
  {
    hide PlaceAfter;
  }

  lemma NotInNode(p: Place, a0: seq<Item>, goal: Place, k: nat, n: Node)
    requires n.Input? || (n.Span? && n.children == [])
    requires k + |FlatNode(n)| <= |a0| && a0[k..k + |FlatNode(n)|] == FlatNode(n)
    requires FirstAt(p, a0, goal, k) && PlaceAfter(p, a0[..k]) != goal
    ensures FirstAt(p, a0, goal, k + |FlatNode(n)|)
  {
    hide PlaceAfter, FirstAt;
    var f := FlatNode(n);
    assert n.Span? ==> f == [Open(n.style), Close];
    assert forall j :: k < j < k + |f| ==> a0[j] == f[j - k];
    NotYet(p, a0, goal, k, k + |f|);
  }

  /** The walk passes a break, an input line or an empty span. */
  lemma PassFlat(ctx: Ctx, left: seq<Node>, right: seq<Node>, b0: seq<Item>, a0: seq<Item>, k: nat, p0: Place, goal: Place)
    requires right != [] && (right[0].Br? || right[0].Input? || (right[0].Span? && right[0].children == []))
    requires k <= |a0| && Before(ctx, left) == b0 + a0[..k] && After(ctx, right) == a0[k..]
    requires FirstAt(p0, a0, goal, k) && PlaceAfter(p0, a0[..k]) != goal
    ensures var k' := k + |FlatNode(right[0])|; var p := PlaceAfter(p0, a0[..k]);
      && k' <= |a0| && Before(ctx, left + [right[0]]) == b0 + a0[..k'] && After(ctx, right[1..]) == a0[k'..]
      && PlaceAfter(p0, a0[..k']) == (if right[0].Br? then Place(p.line + 1, 0) else p)
      && (right[0].Br? ==> k' == k + 1)
      && FirstAt(p0, a0, goal, k') && Remaining(ctx, right[1..]) < Remaining(ctx, right)
  {
    hide Before, After, PlaceAfter, FlatNode, FirstAt, Remaining;
    NodeMoves(right[0], PlaceAfter(p0, a0[..k]));
    PassNode(ctx, left, right, b0, a0, k, p0);
    if right[0].Br? { NotYet(p0, a0, goal, k, k + 1); } else { NotInNode(p0, a0, goal, k, right[0]); }
    WeightOne(ctx, right);
  }

  lemma NotInText(p: Place, a0: seq<Item>, goal: Place, k: nat, k': nat)
    requires k <= k' <= |a0| && FirstAt(p, a0, goal, k)
    requires NotOver(a0, k, PlaceAfter(p, a0[..k]), goal, k')
    ensures FirstAt(p, a0, goal, k')
  {
    hide PlaceAfter;
    forall j | k <= j < k' ensures PlaceAfter(p, a0[..j]) != goal { Prefix(p, a0, k, j, []); }
  }

  lemma PassNode(ctx: Ctx, left: seq<Node>, right: seq<Node>, b0: seq<Item>, a0: seq<Item>, k: nat, p0: Place)
    requires right != [] && k <= |a0| && Before(ctx, left) == b0 + a0[..k] && After(ctx, right) == a0[k..]
    ensures var f := FlatNode(right[0]); var k' := k + |f|;
      && k' <= |a0| && Before(ctx, left + [right[0]]) == b0 + a0[..k'] && After(ctx, right[1..]) == a0[k'..]
      && PlaceAfter(p0, a0[..k']) == PlaceAfter(PlaceAfter(p0, a0[..k]), f) && a0[k..k'] == f
  {
    hide FlatNode, Flat, Before, After, PlaceAfter;
    var f := FlatNode(right[0]);
    var k' := k + |f|;
    assert right == [right[0]] + right[1..];
    StepOver(ctx, left, right[0], right[1..]);
    assert a0[k..] == f + After(ctx, right[1..]);
    assert a0[k..][..|f|] == f && a0[k..][|f|..] == a0[k'..];
    assert a0[..k'] == a0[..k] + f;
    PlaceAfterConcat(p0, a0[..k], f);
  }

  lemma NodeMoves(n: Node, p: Place)
    ensures n.Br? ==> |FlatNode(n)| == 1 && PlaceAfter(p, FlatNode(n)) == Place(p.line + 1, 0)
    ensures n.Input? || (n.Span? && n.children == []) ==> PlaceAfter(p, FlatNode(n)) == p
  {
    if n.Span? && n.children == [] {
      assert FlatNode(n) == [Open(n.style)] + [Close];
      PlaceAfterConcat(p, [Open(n.style)], [Close]);
    }
  }

  lemma EnterSpan(ctx: Ctx, left: seq<Node>, right: seq<Node>, b0: seq<Item>, a0: seq<Item>, k: nat, p0: Place, goal: Place)
    requires right != [] && right[0].Span? && k <= |a0| && FirstAt(p0, a0, goal, k) && PlaceAfter(p0, a0[..k]) != goal
    requires k <= |a0| && Before(ctx, left) == b0 + a0[..k] && After(ctx, right) == a0[k..]
    ensures var inner := In(right[0].style, left, right[1..], ctx);
      && k < |a0| && Before(inner, []) == b0 + a0[..k + 1] && After(inner, right[0].children) == a0[k + 1..]
      && PlaceAfter(p0, a0[..k + 1]) == PlaceAfter(p0, a0[..k])
      && Remaining(inner, right[0].children) < Remaining(ctx, right) && FirstAt(p0, a0, goal, k + 1)
  {
    var style, children := right[0].style, right[0].children;
    assert right == [Span(style, children)] + right[1..];
    StepIn(ctx, left, style, children, right[1..]);
    assert a0[k..][0] == Open(style) && a0[k..][1..] == a0[k + 1..];
    assert a0[..k + 1] == a0[..k] + [Open(style)];
    PlaceAfterConcat(p0, a0[..k], [Open(style)]);
    NotYet(p0, a0, goal, k, k + 1);
  }

  lemma BreakAhead(ctx: Ctx, right: seq<Node>, a0: seq<Item>, k: nat)
    requires right != [] && right[0].Br? && k <= |a0| && After(ctx, right) == a0[k..]
    ensures k < |a0| && a0[k] == Brk
  {
    assert right == [Br] + right[1..];
    StepOver(ctx, [], Br, right[1..]);
    assert a0[k..][0] == Brk;
  }

  lemma Prefix(p0: Place, a0: seq<Item>, k: nat, j: nat, pad: seq<Item>)
    requires k <= j <= |a0|
    ensures PlaceAfter(p0, a0[..j] + pad) == PlaceAfter(PlaceAfter(p0, a0[..k]), a0[k..j] + pad)
    ensures PlaceAfter(p0, a0[..j]) == PlaceAfter(PlaceAfter(p0, a0[..k]), a0[k..j])
  {
    assert a0[..j] + pad == a0[..k] + (a0[k..j] + pad) && a0[..j] == a0[..k] + a0[k..j];
    PlaceAfterConcat(p0, a0[..k], a0[k..j] + pad);
    PlaceAfterConcat(p0, a0[..k], a0[k..j]);
  }

  /** Reaching the goal without appending lines means its line exists. */
  lemma LandingReached(p0: Place, a0: seq<Item>, k: nat, n: nat, goal: Place)
    requires k <= |a0| && PlaceAfter(p0, a0[..k] + Chars(Spaces(n))) == goal
    ensures Landing(p0, a0, goal) == goal
  {
    PlaceAfterConcat(p0, a0[..k], Chars(Spaces(n)));
    PlaceAfterSpaces(PlaceAfter(p0, a0[..k]), n);
    assert a0 == a0[..k] + a0[k..];
    PlaceAfterConcat(p0, a0[..k], a0[k..]);
    LinesGrow(PlaceAfter(p0, a0[..k]), a0[k..]);
  }

  lemma StopHere(p0: Place, b0: seq<Item>, a0: seq<Item>, k: nat, goal: Place)
    requires k <= |a0| && PlaceAfter(p0, a0[..k]) == goal
    ensures PadOk(a0, Stop(k, [])) && b0 + a0[..k] + [] == b0 + a0[..k]
    ensures PlaceAfter(p0, a0[..k] + []) == Landing(p0, a0, goal)
  {
    hide PlaceAfter, Landing, PadOk;
    assert a0[..k] + [] == a0[..k];
    NoPad(a0, k);
    assert a0[..k] + Chars(Spaces(0)) == a0[..k];
    LandingReached(p0, a0, k, 0, goal);
  }

  /** The walk passes a text node, or stops in it. */
  lemma TextDone(p0: Place, a0: seq<Item>, goal: Place, k: nat, s: Stop, reached: bool)
    requires k <= s.k <= |a0| && FirstAt(p0, a0, goal, k) && NotOver(a0, k, PlaceAfter(p0, a0[..k]), goal, s.k)
    requires reached ==> PlaceAfter(PlaceAfter(p0, a0[..k]), a0[k..s.k] + s.pad) == goal
    requires reached ==> exists n: nat :: s.pad == Chars(Spaces(n))
    ensures FirstAt(p0, a0, goal, s.k)
    ensures PlaceAfter(p0, a0[..s.k]) == PlaceAfter(PlaceAfter(p0, a0[..k]), a0[k..s.k])
    ensures reached ==> PlaceAfter(p0, a0[..s.k] + s.pad) == goal == Landing(p0, a0, goal)
  {
    hide PlaceAfter, Landing, FirstAt, NotOver;
    Prefix(p0, a0, k, s.k, s.pad);
    NotInText(p0, a0, goal, k, s.k);
    if reached {
      var n: nat :| s.pad == Chars(Spaces(n));
      LandingReached(p0, a0, s.k, n, goal);
    }
  }

  lemma PaddedStop(p0: Place, goal: Place, a0: seq<Item>, k: nat, n: nat)
    requires k < |a0| && EndsLine(a0[k])
    requires var p := PlaceAfter(p0, a0[..k]); p.line == goal.line && p.column + n == goal.column
    ensures PadOk(a0, Stop(k, Chars(Spaces(n))))
    ensures PlaceAfter(p0, a0[..k] + Chars(Spaces(n))) == goal == Landing(p0, a0, goal)
  {
    PlaceAfterConcat(p0, a0[..k], Chars(Spaces(n)));
    PlaceAfterSpaces(PlaceAfter(p0, a0[..k]), n);
    LandingReached(p0, a0, k, n, goal);
  }

  lemma NoPad(a0: seq<Item>, k: nat)
    requires k <= |a0|
    ensures PadOk(a0, Stop(k, [])) && Chars(Spaces(0)) == []
  {
    assert [] == Chars(Newlines(0)) + Chars(Spaces(0));
  }

  lemma {:induction false} ClosesDoNotMove(p0: Place, a0: seq<Item>, k: nat, j: nat)
    requires k <= j <= |a0| && forall i :: k <= i < j ==> a0[i] == Close
    ensures PlaceAfter(p0, a0[..j]) == PlaceAfter(p0, a0[..k])
    decreases j
  {
    if k < j {
      assert a0[..j] == a0[..j - 1] + [Close];
      PlaceAfterConcat(p0, a0[..j - 1], [Close]);
      ClosesDoNotMove(p0, a0, k, j - 1);
    }
  }

  lemma Extend<T>(b: seq<T>, c: seq<T>, d: seq<T>, e: seq<T>, x: seq<T>, y: seq<T>)
    requires b + c == d + e
    ensures b + (c + x + y) == d + (e + x) + y
  {
    assert b + (c + x + y) == (b + c) + x + y;
  }

  lemma WeightOne(ctx: Ctx, right: seq<Node>)
    requires right != []
    ensures Remaining(ctx, right[1..]) < Remaining(ctx, right)
  {
  }

  lemma PlainText(a0: seq<Item>, k0: nat, s0: string, rest: seq<Item>)
    requires Plain(a0) && k0 <= |a0| && a0[k0..] == Chars(s0) + rest
    ensures Plain(Chars(s0))
  {
    assert a0 == a0[..k0] + (Chars(s0) + rest);
    PlainConcat(a0[..k0], Chars(s0) + rest);
    PlainConcat(Chars(s0), rest);
  }

  /** A text node walked to its end. */
  lemma TextPassed(ctx: Ctx, l: seq<Node>, tail: seq<Node>, b0: seq<Item>, a0: seq<Item>, k0: nat,
      merged: string, start: nat, s0: string)
    requires start <= |merged| && merged[start..] == s0 && k0 <= |a0|
    requires Before(ctx, l) + Chars(merged[..start]) == b0 + a0[..k0]
    requires a0[k0..] == Chars(s0) + After(ctx, tail)
    ensures k0 + |s0| <= |a0| && a0[k0..k0 + |s0|] == Chars(s0)
    ensures Before(ctx, l + [Text(merged)]) == b0 + a0[..k0 + |s0|] && After(ctx, tail) == a0[k0 + |s0|..]
  {
    TextItems(a0, k0, s0, ctx, tail);
    StepOver(ctx, l, Text(merged), tail);
    CharsConcat(merged[..start], s0);
    assert merged == merged[..start] + s0;
    Extend(Before(ctx, l), Chars(merged[..start]), b0, a0[..k0], Chars(s0), []);
    assert Chars(merged[..start]) + Chars(s0) + [] == Chars(merged);
    assert b0 + (a0[..k0] + Chars(s0)) + [] == b0 + a0[..k0 + |s0|];
  }

  /** A text node split at the goal. */
  lemma TextSplit(ctx: Ctx, l: seq<Node>, tail: seq<Node>, b0: seq<Item>, a0: seq<Item>, k0: nat,
      merged: string, start: nat, s0: string, p: Place, goal: Place, text: string, split: int, i: nat, n: nat)
    requires start <= |merged| && merged[start..] == s0 && k0 <= |a0|
    requires Before(ctx, l) + Chars(merged[..start]) == b0 + a0[..k0]
    requires a0[k0..] == Chars(s0) + After(ctx, tail)
    requires SplitAt(merged, start, p, goal, text, split, i, n)
    ensures var stop := Stop(k0 + (i - start), Chars(Spaces(n)));
      && k0 <= stop.k < |a0| && PadOk(a0, stop)
      && Before(ctx, l + [Text(text[..split])]) == b0 + a0[..stop.k] + stop.pad
      && After(ctx, [Text(text[split..])] + tail) == a0[stop.k..]
      && PlaceAfter(p, a0[k0..stop.k] + stop.pad) == goal
  {
    var j, pad := i - start, Chars(Spaces(n));
    TextItems(a0, k0, s0, ctx, tail);
    SplitText(a0, k0, merged, start, s0, i, n);
    StepOver(ctx, l, Text(text[..split]), tail);
    StepOver(ctx, l, Text(text[split..]), tail);
    Extend(Before(ctx, l), Chars(merged[..start]), b0, a0[..k0], Chars(s0[..j]), pad);
  }

  lemma SplitParts(text0: string, start: nat, p: Place, goal: Place, text: string, split: int, k: nat, n: nat)
    requires start <= |text0| && SplitAt(text0, start, p, goal, text, split, k, n)
    ensures start <= k < |text0| && split == k + n <= |text| && NotBefore(text0, start, p, goal, k)
  {
    hide NotBefore, PlaceAfter, NewLine;
  }

  /** The scan of the text node did not pass the goal. */
  lemma NoneBefore(a0: seq<Item>, k0: nat, merged: string, start: nat, s0: string, p: Place, goal: Place, n: nat)
    requires start <= |merged| && merged[start..] == s0 && n <= |s0| && NotBefore(merged, start, p, goal, start + n)
    requires k0 + n <= |a0| && a0[k0..k0 + n] == Chars(s0[..n])
    ensures NotOver(a0, k0, p, goal, k0 + n)
  {
    hide PlaceAfter;
    forall j | k0 <= j < k0 + n ensures PlaceAfter(p, a0[k0..j]) != goal {
      var m := j - k0;
      assert a0[k0..j] == a0[k0..k0 + n][..m] == Chars(s0[..n])[..m] == Chars(s0[..m]);
      assert s0[..m] == merged[start..start + m];
    }
  }

  /** The text node's own characters among the items ahead. */
  lemma TextItems(a0: seq<Item>, k0: nat, s0: string, ctx: Ctx, tail: seq<Node>)
    requires k0 <= |a0| && a0[k0..] == Chars(s0) + After(ctx, tail)
    ensures a0[k0..k0 + |s0|] == Chars(s0) && a0[k0 + |s0|..] == After(ctx, tail)
    ensures a0[..k0 + |s0|] == a0[..k0] + Chars(s0)
  {
    assert a0[k0..k0 + |s0|] == a0[k0..][..|s0|];
    assert a0[k0 + |s0|..] == a0[k0..][|s0|..];
  }

  /** The two halves of a text node split after the n spaces put in at i. */
  lemma SplitText(a0: seq<Item>, k0: nat, merged: string, start: nat, s0: string, i: nat, n: nat)
    requires start <= i < |merged| && merged[start..] == s0 && k0 + |s0| <= |a0| && a0[k0..k0 + |s0|] == Chars(s0)
    ensures var text := merged[..i] + Spaces(n) + merged[i..]; var j := i - start;
      && text[i + n..] == s0[j..] && merged[start..i] == s0[..j]
      && Chars(text[..i + n]) == Chars(merged[..start]) + Chars(s0[..j]) + Chars(Spaces(n))
      && a0[k0..k0 + j] == Chars(s0[..j]) && a0[..k0 + j] == a0[..k0] + Chars(s0[..j])
      && a0[k0 + j] == Ch(merged[i])
      && a0[k0 + j..] == Chars(s0[j..]) + a0[k0 + |s0|..]
  {
    var text, j := merged[..i] + Spaces(n) + merged[i..], i - start;
    assert text[..i + n] == merged[..start] + s0[..j] + Spaces(n);
    CharsConcat(merged[..start] + s0[..j], Spaces(n));
    CharsConcat(merged[..start], s0[..j]);
    assert a0[k0..k0 + j] == a0[k0..k0 + |s0|][..j];
    assert a0[k0 + j] == a0[k0..k0 + |s0|][j];
    assert a0[k0 + j..k0 + |s0|] == a0[k0..k0 + |s0|][j..] == Chars(s0[j..]);
    assert a0[k0 + j..] == a0[k0 + j..k0 + |s0|] + a0[k0 + |s0|..];
  }
}
