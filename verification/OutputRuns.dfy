/** What `insertString` guarantees over whole strings: which characters reach the screen as text, when cutting
    the output in two makes no difference, and that control sequences are read back as they were printed. */
module OutputRuns {
  import opened Dom
  import opened OutputParser

  // ---------------------------------------------------------------- every character once

  datatype Mode = Plain | AfterEsc | InCsi | InNumber | InOsc

  function ModeOf(ctl: Ctl): Mode {
    match ctl
    case Initial => Plain
    case Esc => AfterEsc
    case Csi(_, _, _) => InCsi
    case OscNumber(_) => InNumber
    case OscText(_, _) => InOsc
  }

  /** How far a control sequence has got, from its characters alone. */
  function ModeAfter(m: Mode, s: string): Mode
    decreases |s|
  {
    if s == [] then m else
      var c := s[0];
      var next :=
        match m
        case Plain => if c == ESC then AfterEsc else Plain
        case AfterEsc => if c == '[' then InCsi else if c == ']' then InNumber else Plain
        case InCsi => if Digit(c) || c == ';' || c == '?' then InCsi else Plain
        case InNumber => if Digit(c) then InNumber else if c == ';' then InOsc else Plain
        case InOsc => if c == BEL || c == NUL then Plain else InOsc;
      ModeAfter(next, s[1..])
  }

  /** The characters that are neither control characters nor inside a control sequence. */
  function Visible(m: Mode, s: string): string
    decreases |s|
  {
    if s == [] then [] else
      (if m.Plain? && Printing(s[0]) then [s[0]] else []) + Visible(ModeAfter(m, s[..1]), s[1..])
  }

  function TextOf(h: seq<Event>): string {
    if h == [] then [] else TextOf(h[..|h| - 1]) + if h[|h| - 1].Shown? then h[|h| - 1].s else []
  }

  lemma TextOfSay(h: seq<Event>, e: Event)
    ensures TextOf(Say(h, e)) == TextOf(h) + if e.Shown? then e.s else []
  {
    if e.Shown? && h != [] && h[|h| - 1].Shown? && h[|h| - 1].kind == e.kind {
      var init, last := h[..|h| - 1], h[|h| - 1];
      assert (init + [Shown(last.s + e.s, e.kind, e.end)])[..|init|] == init;
      assert TextOf(init) + (last.s + e.s) == (TextOf(init) + last.s) + e.s;
    } else {
      assert (h + [e])[..|h|] == h;
    }
  }

  lemma OneMode(m: Mode, s: string)
    requires s != []
    ensures ModeAfter(m, s) == ModeAfter(ModeAfter(m, s[..1]), s[1..])
  {
    assert s[..1][0] == s[0] && s[..1][1..] == [];
  }

  lemma StepText(screen: Screen, kind: char, p: Parser, c: char)
    ensures var q := Step(screen, kind, p, c); var m := ModeOf(p.ctl);
      && ModeOf(q.ctl) == ModeAfter(m, [c])
      && TextOf(q.history) == TextOf(p.history) + if m.Plain? && Printing(c) then [c] else []
  {
    hide TextOf, Say, UpdateColumn;
    var h := p.history;
    assert [c][1..] == [];
    assert TextOf(h) + [] == TextOf(h);
    match p.ctl {
      case Initial =>
        TextOfSay(h, LineStart(0));
        TextOfSay(h, LineFeed(screen, h));
        TextOfSay(h, CursorLeft);
        TextOfSay(h, Bell);
        TextOfSay(h, CursorRight(NextTabCol(screen.column(h)) - screen.column(h)));
        TextOfSay(h, WrapBreak);
        TextOfSay(h, Shown([c], kind, UpdateColumn(c, if c == '\t' then 0 else p.column)));
        TextOfSay(h, Shown([c], kind, UpdateColumn(c, 0)));
        TextOfSay(Say(h, WrapBreak), Shown([c], kind, UpdateColumn(c, 0)));
      case Esc =>
        TextOfSay(h, SaveCursor);
        TextOfSay(h, RestoreCursor);
        TextOfSay(h, ReverseIndex);
      case Csi(question, prev, cur) => TextOfSay(h, Control(c, question, prev, cur));
      case OscNumber(_) =>
      case OscText(code, text) => TextOfSay(h, OperatingSystem(code, text));
    }
  }

  lemma ReturnFeedHidden(s: string)
    requires |s| >= 2 && s[0] == '\r' && s[1] == '\n'
    ensures Visible(Plain, s) == Visible(Plain, s[2..]) && ModeAfter(Plain, s) == ModeAfter(Plain, s[2..])
  {
    assert s[1..][1..] == s[2..] && s[..1] == ['\r'] && s[1..][..1] == ['\n'];
    assert ['\r'][1..] == [] && ['\n'][1..] == [];
    assert [] + Visible(Plain, s[2..]) == Visible(Plain, s[2..]) && [] + Visible(Plain, s[1..]) == Visible(Plain, s[1..]);
  }

  /** Each character of the output reaches the screen once, in order, or is taken by one control: the screen
      gets just the visible ones, whatever it answers meanwhile. */
  lemma {:induction false} ShowsTheVisible(screen: Screen, kind: char, p: Parser, s: string)
    ensures var q := Run(screen, kind, p, s);
      && TextOf(q.history) == TextOf(p.history) + Visible(ModeOf(p.ctl), s)
      && ModeOf(q.ctl) == ModeAfter(ModeOf(p.ctl), s)
    decreases |s|
  {
    hide Step, TextOf, Say;
    if s == [] {
      assert TextOf(p.history) + [] == TextOf(p.history);
    } else if ReturnsAndFeeds(screen, p, s) {
      var q := Parser(Initial, 0, Say(p.history, LineStart(1)));
      TextOfSay(p.history, LineStart(1));
      assert TextOf(p.history) + [] == TextOf(p.history);
      ReturnFeedHidden(s);
      ShowsTheVisible(screen, kind, q, s[2..]);
    } else {
      var m := ModeOf(p.ctl);
      StepText(screen, kind, p, s[0]);
      assert s[..1] == [s[0]];
      ShowsTheVisible(screen, kind, Step(screen, kind, p, s[0]), s[1..]);
      OneMode(m, s);
      var here := if m.Plain? && Printing(s[0]) then [s[0]] else [];
      assert (TextOf(p.history) + here) + Visible(ModeAfter(m, [s[0]]), s[1..])
          == TextOf(p.history) + (here + Visible(ModeAfter(m, [s[0]]), s[1..]));
    }
  }

  lemma {:induction false} VisibleSplits(m: Mode, a: string, b: string)
    ensures Visible(m, a + b) == Visible(m, a) + Visible(ModeAfter(m, a), b)
    ensures ModeAfter(m, a + b) == ModeAfter(ModeAfter(m, a), b)
    decreases |a|
  {
    if a == [] {
      assert a + b == b;
    } else {
      assert (a + b)[1..] == a[1..] + b && (a + b)[..1] == a[..1];
      VisibleSplits(ModeAfter(m, a[..1]), a[1..], b);
      OneMode(m, a);
      OneMode(m, a + b);
    }
  }

  /** The text on the screen does not depend on how the output was cut into calls. */
  lemma SameTextHoweverSplit(screen: Screen, kind: char, p: Parser, a: string, b: string)
    ensures var q := Run(screen, kind, p, a);
      TextOf(Insert(screen, kind, q.ctl, q.history, b).history) == TextOf(Run(screen, kind, p, a + b).history)
  {
    hide TextOf, Run;
    var q := Run(screen, kind, p, a);
    ShowsTheVisible(screen, kind, p, a);
    ShowsTheVisible(screen, kind, Parser(q.ctl, screen.column(q.history), q.history), b);
    ShowsTheVisible(screen, kind, p, a + b);
    VisibleSplits(ModeOf(p.ctl), a, b);
    var v := Visible(ModeAfter(ModeOf(p.ctl), a), b);
    assert (TextOf(p.history) + Visible(ModeOf(p.ctl), a)) + v == TextOf(p.history) + (Visible(ModeOf(p.ctl), a) + v);
  }

  // ---------------------------------------------------------------- cutting the output in two

  predicate BetweenReturnAndFeed(a: string, b: string) { a != [] && a[|a| - 1] == '\r' && b != [] && b[0] == '\n' }

  lemma {:induction false} RunConcat(screen: Screen, kind: char, p: Parser, a: string, b: string)
    requires !BetweenReturnAndFeed(a, b)
    ensures Run(screen, kind, p, a + b) == Run(screen, kind, Run(screen, kind, p, a), b)
    decreases |a|
  {
    hide Step, Say;
    if a == [] {
      assert a + b == b;
    } else if ReturnsAndFeeds(screen, p, a) {
      assert (a + b)[2..] == a[2..] + b;
      RunConcat(screen, kind, Parser(Initial, 0, Say(p.history, LineStart(1))), a[2..], b);
    } else {
      assert (a + b)[1..] == a[1..] + b && (a + b)[0] == a[0];
      assert |a| >= 2 ==> (a + b)[1] == a[1];
      assert |a| == 1 && b != [] ==> (a + b)[1] == b[0];
      RunConcat(screen, kind, Step(screen, kind, p, a[0]), a[1..], b);
    }
  }

  /** The column the parser carries is the screen's, or unknown. */
  predicate Carries(screen: Screen, p: Parser) {
    p.ctl.Initial? ==> p.column == -1 || p.column == screen.column(p.history)
  }

  lemma CarriesStep(screen: Screen, kind: char, p: Parser, c: char)
    requires Sound(screen) && Carries(screen, p)
    ensures Carries(screen, Step(screen, kind, p, c))
  {
    hide Say;
    var h := p.history;
    if p.ctl.Initial? && Printing(c) {
      var q := Print(screen, kind, p.column, h, c);
      var before := if UpdateColumn(c, p.column) > screen.wrapWidth && screen.wrap then Say(h, WrapBreak) else h;
      assert q.history == Say(before, Shown([c], kind, q.column));
      assert screen.cached(q.history) == q.column;
    }
  }

  lemma {:induction false} CarriesRun(screen: Screen, kind: char, p: Parser, s: string)
    requires Sound(screen) && Carries(screen, p)
    ensures Carries(screen, Run(screen, kind, p, s))
    decreases |s|
  {
    hide Step, Say, Carries, Sound;
    if s != [] {
      if ReturnsAndFeeds(screen, p, s) {
        CarriesReturn(screen, p.history, 1);
        CarriesRun(screen, kind, Parser(Initial, 0, Say(p.history, LineStart(1))), s[2..]);
      } else {
        CarriesStep(screen, kind, p, s[0]);
        CarriesRun(screen, kind, Step(screen, kind, p, s[0]), s[1..]);
      }
    }
  }

  lemma CarriesReturn(screen: Screen, h: seq<Event>, d: int)
    requires Sound(screen) && 0 <= d <= 1
    ensures Carries(screen, Parser(Initial, 0, Say(h, LineStart(d))))
  {
    hide Say;
  }

  /** Inside a control sequence the column does not matter. */
  lemma {:induction false} ColumnUnused(screen: Screen, kind: char, p: Parser, column: int, s: string)
    requires !p.ctl.Initial?
    ensures Same(Run(screen, kind, p, s), Run(screen, kind, p.(column := column), s))
    decreases |s|
  {
    hide Say;
    if s != [] {
      var q := Step(screen, kind, p, s[0]);
      if !q.ctl.Initial? {
        ColumnUnused(screen, kind, q, column, s[1..]);
      }
    }
  }

  /** What a call leaves behind: its column is only a local variable. */
  predicate Same(p: Parser, q: Parser) { p.ctl == q.ctl && p.history == q.history }

  /** The same whether b comes with a or in a call of its own. */
  predicate SplitsAlike(screen: Screen, kind: char, ctl: Ctl, h: seq<Event>, a: string, b: string) {
    var q := Insert(screen, kind, ctl, h, a);
    Same(Insert(screen, kind, ctl, h, a + b), Insert(screen, kind, q.ctl, q.history, b))
  }

  const FF := '\U{0C}'
  const ZWSP := '\U{200B}'

  /** A line feed that comes right after this text is taken together with its last carriage return. */
  predicate EndsInReturn(screen: Screen, kind: char, ctl: Ctl, h: seq<Event>, a: string) {
    a != [] && a[|a| - 1] == '\r' &&
    var q := Insert(screen, kind, ctl, h, a[..|a| - 1]);
    q.ctl.Initial? && screen.line(q.history) != screen.bottom(q.history) - 1
  }

  /** The text leaves the column unknown: outside control sequences, the last character that concerns the
      column is a form feed, or a line feed on its own, a backspace or a tab after which the screen has no
      column cached; bells and characters without width may follow. */
  predicate LosesColumn(screen: Screen, kind: char, ctl: Ctl, h: seq<Event>, a: string)
    decreases |a|
  {
    a != [] &&
    var init, c := a[..|a| - 1], a[|a| - 1];
    && ModeAfter(ModeOf(ctl), init).Plain?
    && (c == FF
        || ((c == BEL || c == ZWSP) && LosesColumn(screen, kind, ctl, h, init))
        || ((c == BS || c == '\t' || (c == '\n' && !EndsInReturn(screen, kind, ctl, h, init)))
            && screen.cached(Insert(screen, kind, ctl, h, a).history) == -1))
  }

  lemma InsertSnoc(screen: Screen, kind: char, ctl: Ctl, h: seq<Event>, init: string, c: char)
    requires !(c == '\n' && EndsInReturn(screen, kind, ctl, h, init))
    ensures Insert(screen, kind, ctl, h, init + [c]) == Step(screen, kind, Insert(screen, kind, ctl, h, init), c)
  {
    hide Run, Step;
    var p := Parser(ctl, screen.column(h), h);
    if c == '\n' && init != [] && init[|init| - 1] == '\r' {
      var before := init[..|init| - 1];
      var q := Run(screen, kind, p, before);
      assert init == before + ['\r'] && init + [c] == before + ['\r', '\n'];
      RunConcat(screen, kind, p, before, ['\r', '\n']);
      RunConcat(screen, kind, p, before, ['\r']);
      RunOne(screen, kind, q, '\r');
      RunApart(screen, kind, q);
    } else {
      RunConcat(screen, kind, p, init, [c]);
      RunOne(screen, kind, Run(screen, kind, p, init), c);
    }
  }

  lemma RunApart(screen: Screen, kind: char, q: Parser)
    requires q.ctl.Initial? ==> screen.line(q.history) == screen.bottom(q.history) - 1
    ensures Run(screen, kind, q, ['\r', '\n']) == Step(screen, kind, Step(screen, kind, q, '\r'), '\n')
  {
    hide Step;
    assert ['\r', '\n'][1..] == ['\n'];
    RunOne(screen, kind, Step(screen, kind, q, '\r'), '\n');
  }

  lemma RunTogether(screen: Screen, kind: char, q: Parser)
    requires q.ctl.Initial? && screen.line(q.history) != screen.bottom(q.history) - 1
    ensures Run(screen, kind, q, ['\r', '\n']) == Parser(Initial, 0, Say(q.history, LineStart(1)))
  {
    assert ['\r', '\n'][2..] == [];
  }

  lemma StepColumn(screen: Screen, kind: char, q: Parser, c: char)
    requires Sound(screen) && Carries(screen, q)
    ensures var r := Step(screen, kind, q, c);
      r.ctl.Initial? && r.column == -1 <==>
        q.ctl.Initial? && (c == FF || ((c == BEL || c == ZWSP) && q.column == -1)
                           || ((c == BS || c == '\t' || c == '\n') && screen.cached(r.history) == -1))
  {
    hide Say, Sound;
  }

  /** The parser has lost the column just when the text says so. */
  lemma {:induction false} LosesColumnIff(screen: Screen, kind: char, ctl: Ctl, h: seq<Event>, a: string)
    requires Sound(screen)
    ensures var q := Insert(screen, kind, ctl, h, a);
      q.ctl.Initial? && q.column == -1 <==> LosesColumn(screen, kind, ctl, h, a)
    decreases |a|
  {
    hide Run, Sound, Step, Carries;
    var p := Parser(ctl, screen.column(h), h);
    if a == [] {
      assert Run(screen, kind, p, a) == p by { RunNothing(screen, kind, p); }
    } else {
      var init, c := a[..|a| - 1], a[|a| - 1];
      assert a == init + [c];
      var q := Insert(screen, kind, ctl, h, init);
      ShowsTheVisible(screen, kind, p, init);
      if c == '\n' && EndsInReturn(screen, kind, ctl, h, init) {
        var before := init[..|init| - 1];
        assert a == before + ['\r', '\n'];
        RunConcat(screen, kind, p, before, ['\r', '\n']);
        RunTogether(screen, kind, Run(screen, kind, p, before));
      } else {
        InsertSnoc(screen, kind, ctl, h, init, c);
        StartCarries(screen, ctl, h);
        CarriesRun(screen, kind, p, init);
        StepColumn(screen, kind, q, c);
        LosesColumnIff(screen, kind, ctl, h, init);
      }
    }
  }

  lemma RunNothing(screen: Screen, kind: char, p: Parser)
    ensures Run(screen, kind, p, []) == p
  {
  }

  lemma StartCarries(screen: Screen, ctl: Ctl, h: seq<Event>)
    ensures Carries(screen, Parser(ctl, screen.column(h), h))
  {
  }

  /** Cutting the output anywhere but between a carriage return and a line feed makes no difference, for all
      that may follow, exactly if the text before the cut does not lose the column. */
  lemma SplitsAlikeIff(screen: Screen, kind: char, ctl: Ctl, h: seq<Event>, a: string)
    requires Sound(screen)
    ensures (forall b :: !BetweenReturnAndFeed(a, b) ==> SplitsAlike(screen, kind, ctl, h, a, b))
       <==> !LosesColumn(screen, kind, ctl, h, a)
  {
    hide Run, Sound;
    LosesColumnIff(screen, kind, ctl, h, a);
    var q := Insert(screen, kind, ctl, h, a);
    StartCarries(screen, ctl, h);
    CarriesRun(screen, kind, Parser(ctl, screen.column(h), h), a);
    if q.ctl.Initial? && q.column == -1 {
      var b := "x";
      RunConcat(screen, kind, Parser(ctl, screen.column(h), h), a, b);
      OneX(screen, kind, q);
      assert !SplitsAlike(screen, kind, ctl, h, a, b);
    } else {
      forall b | !BetweenReturnAndFeed(a, b)
        ensures SplitsAlike(screen, kind, ctl, h, a, b)
      {
        RunConcat(screen, kind, Parser(ctl, screen.column(h), h), a, b);
        if !q.ctl.Initial? { ColumnUnused(screen, kind, q, screen.column(q.history), b); }
      }
    }
  }

  lemma OneX(screen: Screen, kind: char, q: Parser)
    requires q.ctl.Initial? && q.column == -1
    ensures !Same(Run(screen, kind, q, "x"), Insert(screen, kind, q.ctl, q.history, "x"))
  {
    var h := q.history;
    assert "x"[1..] == [];
    var r := Parser(Initial, screen.column(h), h);
    RunOne(screen, kind, q, 'x');
    RunOne(screen, kind, r, 'x');
    LastSaid(h, "x", kind, 0);
    LastSaid(h, "x", kind, UpdateColumn('x', r.column));
    LastSaid(h, "x", kind, 1);
    LastSaid(Say(h, WrapBreak), "x", kind, 1);
  }

  lemma RunOne(screen: Screen, kind: char, p: Parser, c: char)
    ensures Run(screen, kind, p, [c]) == Step(screen, kind, p, c)
  {
    assert [c][1..] == [];
  }

  lemma LastSaid(h: seq<Event>, s: string, kind: char, end: int)
    ensures var h' := Say(h, Shown(s, kind, end)); h' != [] && h'[|h'| - 1].Shown? && h'[|h'| - 1].end == end
  {
  }

  /** Between a carriage return and a line feed it does, except where the two are not taken as one. */
  lemma ReturnFeedSplitsAlikeIff(screen: Screen, kind: char, h: seq<Event>)
    requires Sound(screen)
    ensures SplitsAlike(screen, kind, Initial, h, "\r", "\n") <==> screen.line(h) == screen.bottom(h) - 1
  {
    var p := Parser(Initial, screen.column(h), h);
    RunOne(screen, kind, p, '\r');
    var q := Step(screen, kind, p, '\r');
    var both := "\r" + "\n";
    assert both[0] == '\r' && both[1] == '\n' && both[1..] == "\n" && both[2..] == [];
    assert q.column == screen.column(q.history);
    RunOne(screen, kind, q, '\n');
    assert Run(screen, kind, p, both) == if screen.line(h) == screen.bottom(h) - 1 then Run(screen, kind, q, "\n")
      else Parser(Initial, 0, Say(h, LineStart(1)));
  }

  /** When line feeds return, the column is lost after each of them, though the screen's is 0; text that
      follows in the same call is then placed one column short. */
  lemma LineFeedLosesTheColumn(screen: Screen, kind: char, h: seq<Event>)
    requires Sound(screen) && screen.lineFeedReturns && !screen.insertMode(h) && screen.wrapWidth >= 1
    ensures var q := Insert(screen, kind, Initial, h, "\n"); q.column == -1 && screen.column(q.history) == 0
    ensures Insert(screen, kind, Initial, h, "\n" + "x").column == 0
    ensures var q := Insert(screen, kind, Initial, h, "\n");
      Insert(screen, kind, Initial, q.history, "x").column == 1
  {
    var p := Parser(Initial, screen.column(h), h);
    RunOne(screen, kind, p, '\n');
    var q := Step(screen, kind, p, '\n');
    assert q == Parser(Initial, -1, Say(h, LineStart(1)));
    RunConcat(screen, kind, p, "\n", "x");
    RunOne(screen, kind, q, 'x');
    RunOne(screen, kind, Parser(Initial, 0, q.history), 'x');
  }

  // ---------------------------------------------------------------- control sequences

  function DigitOf(d: nat): (c: char)
    requires d < 10
    ensures Digit(c) && c as int - '0' as int == d
  {
    (d + '0' as int) as char
  }

  function Decimal(n: nat): string {
    if n < 10 then [DigitOf(n)] else Decimal(n / 10) + [DigitOf(n % 10)]
  }

  /** A parameter, or nothing for a missing one. */
  function PrintParameter(n: int): string { if n < 0 then "" else Decimal(n) }

  function PrintParameters(ps: seq<int>): string
    requires ps != []
  {
    if |ps| == 1 then PrintParameter(ps[0]) else PrintParameter(ps[0]) + [';'] + PrintParameters(ps[1..])
  }

  lemma {:induction false} DecimalIsDigits(n: nat)
    ensures Decimal(n) != [] && forall c :: c in Decimal(n) ==> Digit(c)
  {
    if n >= 10 { DecimalIsDigits(n / 10); }
  }

  lemma NextDigit(n: nat, cur: int)
    requires n < 0x8000_0000 && cur == if n < 10 then -1 else n / 10
    ensures AddDigit(cur, DigitOf(n % 10)) == n
  {
  }

  lemma {:induction false} ReadsDecimal(screen: Screen, kind: char, p: Parser, n: nat)
    requires p.ctl.Csi? && p.ctl.cur == -1 && n < 0x8000_0000
    ensures Run(screen, kind, p, Decimal(n)) == p.(ctl := p.ctl.(cur := n))
  {
    hide Run, AddDigit;
    NextDigit(n, if n < 10 then -1 else n / 10);
    if n < 10 {
      RunOne(screen, kind, p, DigitOf(n));
    } else {
      var q := p.(ctl := p.ctl.(cur := n / 10));
      ReadsDecimal(screen, kind, p, n / 10);
      RunConcat(screen, kind, p, Decimal(n / 10), [DigitOf(n % 10)]);
      RunOne(screen, kind, q, DigitOf(n % 10));
    }
  }

  predicate ParameterValue(n: int) { -1 <= n < 0x8000_0000 }

  lemma ReadsParameter(screen: Screen, kind: char, p: Parser, n: int)
    requires p.ctl.Csi? && p.ctl.cur == -1 && ParameterValue(n)
    ensures Run(screen, kind, p, PrintParameter(n)) == p.(ctl := p.ctl.(cur := n))
  {
    if n >= 0 { ReadsDecimal(screen, kind, p, n); }
  }

  lemma {:induction false} ReadsParameters(screen: Screen, kind: char, p: Parser, ps: seq<int>)
    requires p.ctl.Csi? && p.ctl.cur == -1 && ps != [] && forall n :: n in ps ==> ParameterValue(n)
    ensures Run(screen, kind, p, PrintParameters(ps)) ==
      p.(ctl := p.ctl.(prev := p.ctl.prev + ps[..|ps| - 1], cur := ps[|ps| - 1]))
    decreases |ps|
  {
    hide Run;
    var n := ps[0];
    ReadsParameter(screen, kind, p, n);
    if |ps| == 1 {
      assert p.ctl.prev + ps[..0] == p.ctl.prev;
    } else {
      var a, rest := PrintParameter(n), PrintParameters(ps[1..]);
      var q := p.(ctl := p.ctl.(cur := n));
      var r := p.(ctl := p.ctl.(prev := p.ctl.prev + [n]));
      NoReturn(n);
      RunConcat(screen, kind, p, a, [';']);
      RunOne(screen, kind, q, ';');
      RunConcat(screen, kind, p, a + [';'], rest);
      ReadsParameters(screen, kind, r, ps[1..]);
      assert (p.ctl.prev + [n]) + ps[1..][..|ps| - 2] == p.ctl.prev + ps[..|ps| - 1];
    }
  }

  lemma NoReturn(n: int)
    ensures PrintParameter(n) != [] ==> PrintParameter(n)[|PrintParameter(n)| - 1] != '\r'
  {
    if n >= 0 {
      DecimalIsDigits(n);
      assert Decimal(n)[|Decimal(n)| - 1] in Decimal(n);
    }
  }

  /** Parsing the printed form ESC [ n1 ; ... ; nk final gives back the parameters, missing ones too, and whether
      there was a question mark in front of them. */
  lemma ReadsControlSequence(screen: Screen, kind: char, column: int, h: seq<Event>, question: bool, ps: seq<int>, final: char)
    requires ps != [] && (forall n :: n in ps ==> ParameterValue(n))
    requires !Digit(final) && final != ';' && final != '?'
    ensures Run(screen, kind, Parser(Initial, column, h),
                [ESC, '['] + (if question then ['?'] else []) + PrintParameters(ps) + [final])
         == Done(screen, h + [Control(final, question, ps[..|ps| - 1], ps[|ps| - 1])])
  {
    hide Run;
    var p, params := Parser(Initial, column, h), PrintParameters(ps);
    assert [ESC, '['] == [ESC] + ['['];
    RunConcat(screen, kind, p, [ESC], ['[']);
    RunOne(screen, kind, p, ESC);
    RunOne(screen, kind, p.(ctl := Esc), '[');
    var lead := [ESC, '['] + if question then ['?'] else [];
    var q := p.(ctl := Csi(question, [], -1));
    if question {
      RunConcat(screen, kind, p, [ESC, '['], ['?']);
      RunOne(screen, kind, p.(ctl := Csi(false, [], -1)), '?');
    } else {
      assert lead == [ESC, '['];
    }
    RunConcat(screen, kind, p, lead, params);
    ReadsParameters(screen, kind, q, ps);
    assert [] + ps[..|ps| - 1] == ps[..|ps| - 1];
    var r := p.(ctl := Csi(question, ps[..|ps| - 1], ps[|ps| - 1]));
    LastOfParameters(ps);
    if params != [] { assert (lead + params)[|lead + params| - 1] == params[|params| - 1]; }
    RunConcat(screen, kind, p, lead + params, [final]);
    RunOne(screen, kind, r, final);
  }

  lemma {:induction false} LastOfParameters(ps: seq<int>)
    requires ps != []
    ensures PrintParameters(ps) != [] ==> PrintParameters(ps)[|PrintParameters(ps)| - 1] != '\r'
    decreases |ps|
  {
    NoReturn(ps[0]);
    if |ps| > 1 { LastOfParameters(ps[1..]); }
  }
}
