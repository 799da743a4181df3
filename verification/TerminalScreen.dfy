/** The terminal as the screen the output parser talks to: what the parser takes for granted about its screen
    holds of the modelled document and cursor cache. */
module TerminalScreen {
  import opened Dom
  import opened T = Terminal
  import LineEdit
  import O = OutputParser

  /** The document before and after the cursor, and the cached column. */
  datatype Page = Page(before: seq<Item>, after: seq<Item>, column: int)

  /** `getCursorColumn`. */
  function Answer(pg: Page): nat {
    if pg.column >= 0 then pg.column else PlaceAfter(ORIGIN, pg.before).column
  }

  /** What the terminal does on an action: text comes in at the cursor, in place of some that follows, and the
      cache takes the column it is told; going to a line start changes the document by padding only, and
      leaves the column cached on the same line and unknown on the next; a bell does nothing. */
  ghost predicate Follows(pg: Page, e: O.Event, pg': Page) {
    match e
    case Shown(s, _, end) =>
      s != [] && end >= -1 ==>
        && pg'.before == pg.before + Chars(s) && pg'.column == end
        && exists k: nat :: k <= |pg.after| && pg'.after == pg.after[k..]
    case LineStart(d) =>
      0 <= d <= 1 ==>
        && PlaceAfter(ORIGIN, pg'.before) == Place(PlaceAfter(ORIGIN, pg.before).line + d, 0)
        && pg'.column == (if d > 0 then -1 else 0)
        && exists stop :: Padded(pg, stop, pg')
    case Bell => pg' == pg
    case _ => true
  }

  ghost predicate Padded(pg: Page, stop: Stop, pg': Page) {
    var doc := pg.before + pg.after;
    PadOk(doc, stop) && pg'.before == doc[..stop.k] + stop.pad && pg'.after == doc[stop.k..]
  }

  /** A page for every history of actions, each the terminal's page before with the last action done. */
  ghost predicate Plays(f: seq<O.Event> -> Page) {
    && (forall h :: f(h).column >= -1)
    && (forall h, e :: Follows(f(h), e, f(O.Say(h, e))))
  }

  /** What a parser is told by a terminal with these pages, in some modes. */
  function ScreenOf(f: seq<O.Event> -> Page, like: O.Screen): O.Screen {
    like.(column := h => Answer(f(h)), cached := h => f(h).column)
  }

  lemma PlayedScreenIsSound(f: seq<O.Event> -> Page, like: O.Screen)
    requires Plays(f)
    ensures O.Sound(ScreenOf(f, like))
  {
    hide O.Say, PlaceAfter;
    var screen := ScreenOf(f, like);
    forall h, s, k, e: int | s != [] && e >= -1 ensures screen.cached(O.Say(h, O.Shown(s, k, e))) == e {
      assert Follows(f(h), O.Shown(s, k, e), f(O.Say(h, O.Shown(s, k, e))));
    }
    forall h, d: int | 0 <= d <= 1 ensures screen.column(O.Say(h, O.LineStart(d))) == 0 {
      assert Follows(f(h), O.LineStart(d), f(O.Say(h, O.LineStart(d))));
    }
    forall h ensures screen.cached(O.Say(h, O.LineStart(1))) == -1 {
      assert Follows(f(h), O.LineStart(1), f(O.Say(h, O.LineStart(1))));
    }
    forall h ensures screen.column(O.Say(h, O.Bell)) == screen.column(h) {
      assert Follows(f(h), O.Bell, f(O.Say(h, O.Bell)));
    }
  }

  // ---------------------------------------------------------------- the terminal's own methods

  ghost function PageOf(t: Terminal): Page
    reads t
  {
    Page(Before(t.ctx, t.left), After(t.ctx, t.right), t.currentCursorColumn)
  }

  /** `cursorLineStart` does what the parser takes a line start for. */
  method GoToLineStart(t: Terminal, d: nat)
    requires t.Valid() && d <= 1
    modifies t
    ensures t.Valid() && Follows(old(PageOf(t)), O.LineStart(d), PageOf(t))
  {
    hide Before, After, PlaceAfter, Plain, PadOk;
    ghost var pg := PageOf(t);
    ghost var stop := t.CursorLineStart(d);
    assert Padded(pg, stop, PageOf(t));
  }

  /** `insertSimpleOutput` outside insert mode: as many columns as the text is to take are erased, the text
      comes in, and the cache takes the column given.  The cache is right exactly if the text ends there. */
  method InsertSimpleOutput(t: Terminal, s: string, kind: char, endColumn: int)
    requires t.Valid() && LineEdit.FlatItems(t.Doc()) && s != [] && endColumn >= -1
    requires forall i :: 0 <= i < |s| ==> !NewLine(s[i]) && s[i] != '\t'
    modifies t
    ensures Follows(old(PageOf(t)), O.Shown(s, kind, endColumn), PageOf(t))
    ensures var p := old(t.Cursor()); var a := old(After(t.ctx, t.right));
      exists k: nat :: LineEdit.Overwritten(p, a, endColumn - p.column, k) && After(t.ctx, t.right) == a[k..]
    ensures Before(t.ctx, t.left) == old(Before(t.ctx, t.left)) + Chars(s)
    ensures t.Valid() <==> endColumn == -1 || endColumn == t.Cursor().column
  {
    hide Before, After, PlaceAfter, Plain, LineEdit.FlatItems, LineEdit.EraseLen, Chars;
    ghost var pg := PageOf(t);
    ghost var b, after, p := Before(t.ctx, t.left), After(t.ctx, t.right), t.Cursor();
    var column := t.GetCursorColumn();
    LineEdit.EraseCharactersRight(t, endColumn - column);
    ghost var a := After(t.ctx, t.right);
    ghost var k: nat :| LineEdit.Overwritten(p, after, endColumn - column, k) && a == after[k..];
    t.AddText(s);
    TextIn(b, a, s);
    t.currentCursorColumn := endColumn;
    assert p.column == column && After(t.ctx, t.right) == after[k..];
  }

  lemma TextIn(b: seq<Item>, a: seq<Item>, s: string)
    requires Plain(b + a) && Here !in b + a && forall i :: 0 <= i < |s| ==> !NewLine(s[i]) && s[i] != '\t'
    ensures Plain((b + Chars(s)) + a) && Here !in (b + Chars(s)) + a
    ensures PlaceAfter(ORIGIN, b + Chars(s)).line == PlaceAfter(ORIGIN, b).line
  {
    hide PlaceAfter;
    forall i | i in (b + Chars(s)) + a ensures PlainItem(i) && i != Here {
      if i in b || i in a { assert i in b + a; }
    }
    PlaceAfterConcat(ORIGIN, b, Chars(s));
    TextStaysOnLine(PlaceAfter(ORIGIN, b), s);
  }

  lemma {:induction false} TextStaysOnLine(p: Place, s: string)
    requires forall i :: 0 <= i < |s| ==> !NewLine(s[i])
    ensures PlaceAfter(p, Chars(s)).line == p.line
    decreases |s|
  {
    if s != [] {
      assert Chars(s)[1..] == Chars(s[1..]);
      TextStaysOnLine(Move(p, Ch(s[0])), s[1..]);
    }
  }

  // ---------------------------------------------------------------- there are such screens

  /** Where a line that exists starts. */
  function StartOf(doc: seq<Item>, line: nat): (k: nat)
    requires line <= PlaceAfter(ORIGIN, doc).line
    ensures k <= |doc| && PlaceAfter(ORIGIN, doc[..k]) == Place(line, 0)
    decreases |doc|
  {
    assert doc[..|doc|] == doc;
    if PlaceAfter(ORIGIN, doc) == Place(line, 0) then |doc| else
      var init, last := doc[..|doc| - 1], doc[|doc| - 1];
      assert doc == init + [last];
      PlaceAfterConcat(ORIGIN, init, [last]);
      PlaceAfterOne(PlaceAfter(ORIGIN, init), last);
      var k := StartOf(init, line);
      assert init[..k] == doc[..k];
      k
  }

  function AtLineStart(pg: Page, d: int): Page
    requires 0 <= d <= 1
  {
    var doc, line := pg.before + pg.after, PlaceAfter(ORIGIN, pg.before).line + d;
    var column := if d > 0 then -1 else 0;
    if line <= PlaceAfter(ORIGIN, doc).line then
      var k := StartOf(doc, line);
      Page(doc[..k], doc[k..], column)
    else Page(doc + Chars(Newlines(1)), [], column)
  }

  lemma AtLineStartFollows(pg: Page, d: int)
    requires 0 <= d <= 1
    ensures Follows(pg, O.LineStart(d), AtLineStart(pg, d))
  {
    hide PlaceAfter, PadOk;
    var doc, line := pg.before + pg.after, PlaceAfter(ORIGIN, pg.before).line + d;
    var pg' := AtLineStart(pg, d);
    PlaceAfterConcat(ORIGIN, pg.before, pg.after);
    LinesGrow(PlaceAfter(ORIGIN, pg.before), pg.after);
    if line <= PlaceAfter(ORIGIN, doc).line {
      var k := StartOf(doc, line);
      NothingPadded(doc, k);
      assert Padded(pg, Stop(k, []), pg');
    } else {
      PlaceAfterConcat(ORIGIN, doc, Chars(Newlines(1)));
      PlaceAfterNewlines(PlaceAfter(ORIGIN, doc), 1);
      LinePadded(doc);
      assert Padded(pg, Stop(|doc|, Chars(Newlines(1))), pg');
    }
  }

  lemma NothingPadded(doc: seq<Item>, k: nat)
    requires k <= |doc|
    ensures PadOk(doc, Stop(k, [])) && doc[..k] + [] == doc[..k]
  {
    assert Chars(Newlines(0)) + Chars(Spaces(0)) == [];
  }

  lemma LinePadded(doc: seq<Item>)
    ensures PadOk(doc, Stop(|doc|, Chars(Newlines(1)))) && doc[..|doc|] == doc && doc[|doc|..] == []
  {
    assert Chars(Newlines(1)) + Chars(Spaces(0)) == Chars(Newlines(1));
  }

  /** An insert-mode terminal that leaves all other actions alone. */
  function PageAfter(h: seq<O.Event>): (pg: Page)
    ensures pg.column >= -1
  {
    if h == [] then Page([], [], 0) else
      var pg := PageAfter(h[..|h| - 1]);
      match h[|h| - 1]
      case Shown(s, _, end) => Page(pg.before + Chars(s), pg.after, if end >= -1 then end else -1)
      case LineStart(d) => if 0 <= d <= 1 then AtLineStart(pg, d) else pg
      case _ => pg
  }

  lemma PageFollows(h: seq<O.Event>, e: O.Event)
    ensures Follows(PageAfter(h), e, PageAfter(O.Say(h, e)))
  {
    hide PlaceAfter, AtLineStart;
    var pg := PageAfter(h);
    if e.Shown? && h != [] && h[|h| - 1].Shown? && h[|h| - 1].kind == e.kind {
      var init, last := h[..|h| - 1], h[|h| - 1];
      assert (init + [O.Shown(last.s + e.s, e.kind, e.end)])[..|init|] == init;
      CharsConcat(last.s, e.s);
      assert PageAfter(init).before + (Chars(last.s) + Chars(e.s)) == (PageAfter(init).before + Chars(last.s)) + Chars(e.s);
      assert pg.after[0..] == pg.after;
    } else {
      assert (h + [e])[..|h|] == h;
      assert pg.after[0..] == pg.after;
      if e.LineStart? && 0 <= e.delta <= 1 { AtLineStartFollows(pg, e.delta); }
    }
  }

  /** So what the parser assumes of its screen can be met, by a screen with a document and a cursor. */
  lemma TerminalScreensExist(like: O.Screen)
    ensures Plays(PageAfter) && O.Sound(ScreenOf(PageAfter, like))
  {
    hide Follows, O.Say;
    forall h, e ensures Follows(PageAfter(h), e, PageAfter(O.Say(h, e))) { PageFollows(h, e); }
    PlayedScreenIsSound(PageAfter, like);
  }
}
