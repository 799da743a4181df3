/** `cursorLeft`, `cursorRight` and `cursorDown`.  Moving left usually takes a shortcut that carries characters
    across the input line instead of walking the document; it ends where the walk would. */
module CursorMotion {
  import opened Dom
  import opened Terminal

  // ---------------------------------------------------------------- moving inside the text

  /** Places only grow along a document. */
  lemma {:induction false} PlaceGrows(p: Place, items: seq<Item>)
    ensures var q := PlaceAfter(p, items); p.line < q.line || (p.line == q.line && p.column <= q.column)
    decreases |items|
  {
    if items != [] {
      PlaceGrows(Move(p, items[0]), items[1..]);
    }
  }

  /** A move to a column that the document already has adds nothing. */
  lemma NoPadWithin(doc: seq<Item>, m: nat, goal: Place, s: Stop)
    requires m <= |doc| && PadOk(doc, s) && PlaceAfter(ORIGIN, doc[..s.k] + s.pad) == goal
    requires PlaceAfter(ORIGIN, doc[..m]).line == goal.line && PlaceAfter(ORIGIN, doc[..m]).column >= goal.column
    ensures s.pad == [] && doc[..s.k] + s.pad == doc[..s.k] && doc[..s.k] + s.pad + doc[s.k..] == doc
  {
    hide PlaceAfter;
    PlaceAfterConcat(ORIGIN, doc[..s.k], s.pad);
    var p := PlaceAfter(ORIGIN, doc[..s.k]);
    if s.k < |doc| {
      if s.pad != [] {
        var n: nat :| s.pad == Chars(Spaces(n));
        PlaceAfterSpaces(p, n);
        if m <= s.k {
          Along(doc, m, s.k);
        } else {
          assert doc[..s.k + 1] == doc[..s.k] + [doc[s.k]];
          PlaceAfterConcat(ORIGIN, doc[..s.k], [doc[s.k]]);
          PlaceAfterOne(p, doc[s.k]);
          Along(doc, s.k + 1, m);
        }
      }
    } else {
      var l: nat, n: nat :| s.pad == Chars(Newlines(l)) + Chars(Spaces(n));
      PlaceAfterConcat(p, Chars(Newlines(l)), Chars(Spaces(n)));
      PlaceAfterNewlines(p, l);
      PlaceAfterSpaces(PlaceAfter(p, Chars(Newlines(l))), n);
      Along(doc, m, s.k);
      assert l == 0 && n == 0;
    }
  }

  lemma Along(doc: seq<Item>, i: nat, j: nat)
    requires i <= j <= |doc|
    ensures var p, q := PlaceAfter(ORIGIN, doc[..i]), PlaceAfter(ORIGIN, doc[..j]);
      p.line < q.line || (p.line == q.line && p.column <= q.column)
  {
    assert doc[..j] == doc[..i] + doc[i..j];
    PlaceAfterConcat(ORIGIN, doc[..i], doc[i..j]);
    PlaceGrows(PlaceAfter(ORIGIN, doc[..i]), doc[i..j]);
  }

  // ---------------------------------------------------------------- the shortcut

  /** How many characters at the end of the text have the given width, or -1.  The test for 't' stands where
      one for a tab was meant: a letter t sends the move the long way, and a tab passes as one column. */
  method TrailingChars(text: string, count: nat) returns (tcount: int)
    ensures -1 <= tcount <= |text|
    ensures tcount > 0 ==> ColumnsOf(text[|text| - tcount..]) == count
    ensures tcount >= 0 ==> forall i :: |text| - tcount <= i < |text| ==> !NewLine(text[i])
    ensures tcount == 0 ==> count == 0
  {
    tcount := 0;
    var tcols := 0;
    assert ColumnsOf(text[|text|..]) == 0;
    while tcols != count
      invariant 0 <= tcount <= |text| && 0 <= tcols <= count && ColumnsOf(text[|text| - tcount..]) == tcols
      invariant forall i :: |text| - tcount <= i < |text| ==> !NewLine(text[i])
      decreases |text| - tcount
    {
      if tcount == |text| { return -1; }
      tcount := tcount + 1;
      var ch := text[|text| - tcount];
      var chcols := CharColumns(ch);
      if ch == '\n' || ch == '\r' || ch == '\U{0C}' || ch == 't' || tcols + chcols > count { return -1; }
      assert text[|text| - tcount..] == [ch] + text[|text| - tcount + 1..];
      tcols := tcols + chcols;
    }
  }

  function ColumnsOf(s: string): nat { if s == [] then 0 else CharColumns(s[0]) + ColumnsOf(s[1..]) }

  lemma {:induction false} PlaceAfterColumns(p: Place, s: string)
    requires forall i :: 0 <= i < |s| ==> !NewLine(s[i]) && s[i] != '\t'
    ensures PlaceAfter(p, Chars(s)) == Place(p.line, p.column + ColumnsOf(s))
    decreases |s|
  {
    if s != [] {
      assert Chars(s)[1..] == Chars(s[1..]);
      PlaceAfterColumns(Move(p, Ch(s[0])), s[1..]);
    }
  }

  /** Every tab in the text, which starts in the given column, ends up one column wide. */
  predicate TabsAreNarrow(s: string, column: nat) {
    s == [] || ((s[0] == '\t' ==> column % 8 == 7) && TabsAreNarrow(s[1..], Move(Place(0, column), Ch(s[0])).column))
  }

  /** Where the carried characters start, p, is where the shortcut takes it to be, their width to the left of
      their end, exactly if each tab among them is one column wide; without tabs it always is. */
  lemma {:induction false} ShortcutLandsIff(p: Place, s: string)
    requires forall i :: 0 <= i < |s| ==> !NewLine(s[i])
    ensures var end := PlaceAfter(p, Chars(s));
      && end.line == p.line && end.column >= p.column + ColumnsOf(s)
      && (end.column - ColumnsOf(s) == p.column <==> TabsAreNarrow(s, p.column))
    ensures '\t' !in s ==> TabsAreNarrow(s, p.column)
    decreases |s|
  {
    if s != [] {
      assert Chars(s)[1..] == Chars(s[1..]);
      ShortcutLandsIff(Move(p, Ch(s[0])), s[1..]);
    }
  }

  /** One character and a tab, the cursor behind them in column 8: moving left by one carries the tab, and the
      cache says column 7 while the cursor stands in column 1. */
  lemma CarriedTab()
    ensures PlaceAfter(ORIGIN, Chars("a\t")) == Place(0, 8) && ColumnsOf("\t") == 1
    ensures PlaceAfter(ORIGIN, Chars("a")) == Place(0, 1) && !TabsAreNarrow("\t", 1)
  {
    assert Chars("a\t") == [Ch('a')] + [Ch('\t')] && Chars("a") == [Ch('a')];
    PlaceAfterConcat(ORIGIN, [Ch('a')], [Ch('\t')]);
    PlaceAfterOne(ORIGIN, Ch('a'));
    PlaceAfterOne(Place(0, 1), Ch('\t'));
    assert "\t"[1..] == [];
  }

  /** Moves the last characters of the text in front of the input line behind it. */
  method CarryAcross(t: Terminal, tcount: nat)
    requires t.left != [] && t.left[|t.left| - 1].Text? && tcount <= |t.left[|t.left| - 1].data|
    modifies t`left, t`right
    ensures var s := old(t.left)[|old(t.left)| - 1].data;
      && old(Before(t.ctx, t.left)) == Before(t.ctx, t.left) + Chars(s[|s| - tcount..])
      && After(t.ctx, t.right) == Chars(s[|s| - tcount..]) + old(After(t.ctx, t.right))
  {
    hide Before, After;
    var last := |t.left| - 1;
    var tstr := t.left[last].data;
    var after := tstr[|tstr| - tcount..];
    TextBefore(t.ctx, t.left[..last], tstr[..|tstr| - tcount], after);
    assert t.left == t.left[..last] + [Text(tstr)] && tstr == tstr[..|tstr| - tcount] + after;
    t.left := t.left[..last] + [Text(tstr[..|tstr| - tcount])];
    if t.right != [] && t.right[0].Text? {
      TextAfter(t.ctx, after, t.right[0].data, t.right[1..]);
      assert t.right == [Text(t.right[0].data)] + t.right[1..];
      t.right := [Text(after + t.right[0].data)] + t.right[1..];
    } else {
      StepOver(t.ctx, [], Text(after), t.right);
      t.right := [Text(after)] + t.right;
    }
  }

  lemma TextBefore(ctx: Ctx, l: seq<Node>, a: string, b: string)
    ensures Before(ctx, l + [Text(a + b)]) == Before(ctx, l + [Text(a)]) + Chars(b)
  {
    hide Before, Chars;
    StepOver(ctx, l, Text(a + b), []);
    StepOver(ctx, l, Text(a), []);
    CharsConcat(a, b);
    assert Before(ctx, l) + (Chars(a) + Chars(b)) == (Before(ctx, l) + Chars(a)) + Chars(b);
  }

  lemma TextAfter(ctx: Ctx, a: string, b: string, r: seq<Node>)
    ensures After(ctx, [Text(a + b)] + r) == Chars(a) + After(ctx, [Text(b)] + r)
  {
    hide After, Chars;
    StepOver(ctx, [], Text(a + b), r);
    StepOver(ctx, [], Text(b), r);
    CharsConcat(a, b);
    assert (Chars(a) + Chars(b)) + After(ctx, r) == Chars(a) + (Chars(b) + After(ctx, r));
  }

  /** `cursorLeft`, by the shortcut or the walk: the cursor goes left on its line, the document does not
      change, and the cache is right. */
  method CursorLeft(t: Terminal, count: nat)
    requires t.Valid() && count <= t.Cursor().column
    modifies t
    ensures t.Valid() && t.Doc() == old(t.Doc())
    ensures t.Cursor() == Place(old(t.Cursor()).line, old(t.Cursor()).column - count)
  {
    if count == 0 { return; }
    if t.left != [] && t.left[|t.left| - 1].Text? {
      var ptext := t.left[|t.left| - 1].data;
      var tcount := TrailingChars(ptext, count);
      if tcount > 0 {
        CarryLeft(t, count, tcount);
        return;
      }
    }
    WalkLeft(t, count);
  }

  method CarryLeft(t: Terminal, count: nat, tcount: nat)
    requires t.Valid() && 0 < count <= t.Cursor().column && t.left != [] && t.left[|t.left| - 1].Text?
    requires var s := t.left[|t.left| - 1].data;
      tcount <= |s| && ColumnsOf(s[|s| - tcount..]) == count && forall i :: |s| - tcount <= i < |s| ==> !NewLine(s[i])
    modifies t
    ensures t.Valid() && t.Doc() == old(t.Doc())
    ensures t.Cursor() == Place(old(t.Cursor()).line, old(t.Cursor()).column - count)
  {
    hide Before, After, PlaceAfter, ColumnsOf;
    ghost var s := t.left[|t.left| - 1].data;
    ghost var carried := s[|s| - tcount..];
    ghost var a := After(t.ctx, t.right);
    CarryAcross(t, tcount);
    ghost var b := Before(t.ctx, t.left);
    assert (b + Chars(carried)) + a == b + (Chars(carried) + a);
    PlainConcat(b + Chars(carried), a);
    PlainConcat(b, Chars(carried));
    CharsPlain(carried);
    PlaceAfterConcat(ORIGIN, b, Chars(carried));
    PlaceAfterColumns(PlaceAfter(ORIGIN, b), carried);
    if t.currentCursorColumn > 0 {
      t.currentCursorColumn := t.currentCursorColumn - count;
    }
  }

  method WalkLeft(t: Terminal, count: nat)
    requires t.Valid() && count <= t.Cursor().column
    modifies t
    ensures t.Valid() && t.Doc() == old(t.Doc())
    ensures t.Cursor() == Place(old(t.Cursor()).line, old(t.Cursor()).column - count)
  {
    hide Before, After, PlaceAfter, Plain, PadOk;
    ghost var doc, b := t.Doc(), Before(t.ctx, t.left);
    var line := t.GetCursorLine();
    var column := t.GetCursorColumn();
    assert doc[..|b|] == b;
    Along(doc, |b|, |doc|);
    assert doc[..|doc|] == doc;
    ghost var s := t.MoveTo(line, column - count);
    NoPadWithin(doc, |b|, Place(line, column - count), s);
  }

  /** `cursorRight`: always lands, with spaces where the line is too short. */
  method CursorRight(t: Terminal, count: nat) returns (ghost stop: Stop)
    requires t.Valid()
    modifies t
    ensures t.Valid() && t.Cursor() == Place(old(t.Cursor()).line, old(t.Cursor()).column + count)
    ensures var doc := old(t.Doc()); PadOk(doc, stop) && t.Doc() == doc[..stop.k] + stop.pad + doc[stop.k..]
  {
    hide Before, After, PlaceAfter, Plain, PadOk;
    ghost var doc, b := t.Doc(), Before(t.ctx, t.left);
    var line := t.GetCursorLine();
    var column := t.GetCursorColumn();
    assert doc[..|b|] == b;
    Along(doc, |b|, |doc|);
    assert doc[..|doc|] == doc;
    stop := t.MoveTo(line, column + count);
  }

  /** `cursorDown`: keeps the column, and lands exactly if the line below exists, the column is 0 or the
      document ends at a line start; otherwise cursor and cache disagree. */
  method CursorDown(t: Terminal, deltaLines: int) returns (ghost stop: Stop)
    requires t.Valid() && t.Cursor().line + deltaLines >= 0
    modifies t
    ensures var doc, p := old(t.Doc()), old(t.Cursor());
      var goal := Place(p.line + deltaLines, p.column);
      && PadOk(doc, stop) && t.Doc() == doc[..stop.k] + stop.pad + doc[stop.k..]
      && t.Cursor() == Landing(ORIGIN, doc, goal)
      && (t.Valid() <==> Reachable(ORIGIN, doc, goal))
  {
    hide Before, After, PlaceAfter, Plain, PadOk, Landing, Reachable;
    var line := t.GetCursorLine();
    var column := t.GetCursorColumn();
    stop := t.MoveTo(line + deltaLines, column);
  }
}
