/** What the parser makes of long lines, of the short escape sequences and of single control characters, told by
    the characters alone. */
module OutputActions {
  import opened Dom
  import opened OutputParser
  import opened OutputRuns

  // ---------------------------------------------------------------- long lines

  predicate OneColumn(s: string) { forall c :: c in s ==> Printing(c) && !NewLine(c) && CharColumns(c) == 1 }

  lemma AllButLast(init: string, c: char)
    requires OneColumn(init + [c])
    ensures OneColumn(init) && Printing(c) && !NewLine(c) && CharColumns(c) == 1 && !BetweenReturnAndFeed(init, [c])
  {
    var s := init + [c];
    assert s[|init|] == c && c in s;
    forall d | d in init ensures d in s { }
    if init != [] { assert init[|init| - 1] in s; }
  }

  lemma OneMoreColumn(screen: Screen, kind: char, column: nat, h: seq<Event>, c: char)
    requires Printing(c) && !NewLine(c) && CharColumns(c) == 1 && column < screen.wrapWidth
    ensures Step(screen, kind, Parser(Initial, column, h), c)
         == Parser(Initial, column + 1, Say(h, Shown([c], kind, column + 1)))
  {
  }

  /** Text that fits into the line is one stretch that ends as many columns further. */
  lemma {:induction false} FillsLine(screen: Screen, kind: char, column: nat, h: seq<Event>, s: string)
    requires OneColumn(s) && column + |s| <= screen.wrapWidth
    ensures Run(screen, kind, Parser(Initial, column, h), s)
         == Parser(Initial, column + |s|, Flush(h, s, kind, column + |s|))
    decreases |s|
  {
    hide Run, Flush, Say, Step, Printing, NewLine, CharColumns, OneColumn;
    var p := Parser(Initial, column, h);
    if s == [] {
      RunNothing(screen, kind, p);
      NothingPending(h, [], 0, kind, column);
    } else {
      var init, c := s[..|s| - 1], s[|s| - 1];
      assert s == init + [c];
      AllButLast(init, c);
      FillsLine(screen, kind, column, h, init);
      RunConcat(screen, kind, p, init, [c]);
      RunOne(screen, kind, Parser(Initial, column + |init|, Flush(h, init, kind, column + |init|)), c);
      OneMoreColumn(screen, kind, column + |init|, Flush(h, init, kind, column + |init|), c);
      FlushMore(h, init, kind, column + |init|, c, column + |s|);
    }
  }

  lemma StartsOver(screen: Screen, kind: char, h: seq<Event>, s: string)
    requires OneColumn(s) && s != [] && screen.wrapWidth > 0
    ensures Run(screen, kind, Parser(Initial, screen.wrapWidth, h), s)
         == Run(screen, kind, Parser(Initial, 0, if screen.wrap then Say(h, WrapBreak) else h), s)
  {
    hide Say;
    assert s[0] in s;
    var h' := if screen.wrap then Say(h, WrapBreak) else h;
    assert Step(screen, kind, Parser(Initial, screen.wrapWidth, h), s[0]) == Step(screen, kind, Parser(Initial, 0, h'), s[0]);
  }

  /** Text too long for the line fills it to the last column.  The rest goes on from column 0, behind a break
      exactly if long lines wrap. */
  lemma LongTextWraps(screen: Screen, kind: char, column: nat, h: seq<Event>, s: string)
    requires OneColumn(s) && column <= screen.wrapWidth < column + |s| && screen.wrapWidth > 0
    ensures var n := screen.wrapWidth - column;
      var full := if n == 0 then h else Say(h, Shown(s[..n], kind, screen.wrapWidth));
      Run(screen, kind, Parser(Initial, column, h), s)
        == Run(screen, kind, Parser(Initial, 0, if screen.wrap then Say(full, WrapBreak) else full), s[n..])
  {
    hide Run, Say, Step;
    var n := screen.wrapWidth - column;
    assert s == s[..n] + s[n..];
    assert OneColumn(s[..n]) && OneColumn(s[n..]);
    if n > 0 { assert s[..n][n - 1] in s; }
    RunConcat(screen, kind, Parser(Initial, column, h), s[..n], s[n..]);
    FillsLine(screen, kind, column, h, s[..n]);
    StartsOver(screen, kind, Flush(h, s[..n], kind, screen.wrapWidth), s[n..]);
  }

  // ---------------------------------------------------------------- escape sequences without parameters

  lemma AfterEscape(screen: Screen, kind: char, column: int, h: seq<Event>, c: char)
    ensures Run(screen, kind, Parser(Initial, column, h), [ESC, c]) == Step(screen, kind, Parser(Esc, column, h), c)
  {
    hide Run;
    var p := Parser(Initial, column, h);
    assert [ESC, c] == [ESC] + [c];
    RunConcat(screen, kind, p, [ESC], [c]);
    RunOne(screen, kind, p, ESC);
    RunOne(screen, kind, Parser(Esc, column, h), c);
  }

  /** ESC 7 saves the cursor, ESC 8 restores it, ESC M is a reverse index; after any other character but the two
      brackets nothing has been done.  The column is asked for again each time. */
  lemma ShortSequences(screen: Screen, kind: char, column: int, h: seq<Event>, c: char)
    requires c != '[' && c != ']'
    ensures var p := Run(screen, kind, Parser(Initial, column, h), [ESC, c]);
      && p.ctl == Initial && p.column == screen.column(p.history)
      && (c == '7' ==> p.history == h + [SaveCursor])
      && (c == '8' ==> p.history == h + [RestoreCursor])
      && (c == 'M' ==> p.history == h + [ReverseIndex])
      && (c !in "78M" ==> p.history == h)
  {
    hide Run;
    AfterEscape(screen, kind, column, h, c);
  }

  lemma {:induction false} CollectsText(screen: Screen, kind: char, p: Parser, text: string)
    requires p.ctl.OscText? && BEL !in text && NUL !in text
    ensures Run(screen, kind, p, text) == p.(ctl := OscText(p.ctl.osc, p.ctl.text + text))
    decreases |text|
  {
    if text == [] {
      assert p.ctl.text + text == p.ctl.text;
    } else {
      CollectsText(screen, kind, p.(ctl := OscText(p.ctl.osc, p.ctl.text + [text[0]])), text[1..]);
      assert (p.ctl.text + [text[0]]) + text[1..] == p.ctl.text + text;
    }
  }

  lemma {:induction false} ReadsCode(screen: Screen, kind: char, p: Parser, n: nat)
    requires p.ctl == OscNumber(-1) && n < 0x8000_0000
    ensures Run(screen, kind, p, Decimal(n)) == p.(ctl := OscNumber(n))
  {
    hide Run, AddDigit;
    NextDigit(n, if n < 10 then -1 else n / 10);
    if n < 10 {
      RunOne(screen, kind, p, DigitOf(n));
    } else {
      ReadsCode(screen, kind, p, n / 10);
      RunConcat(screen, kind, p, Decimal(n / 10), [DigitOf(n % 10)]);
      RunOne(screen, kind, p.(ctl := OscNumber(n / 10)), DigitOf(n % 10));
    }
  }

  lemma DecimalNoReturn(n: nat)
    ensures Decimal(n) != [] && Decimal(n)[|Decimal(n)| - 1] != '\r'
  {
    DecimalIsDigits(n);
    assert Decimal(n)[|Decimal(n)| - 1] in Decimal(n);
  }

  /** Parsing the printed form ESC ] n ; text, ended by BEL or NUL, gives back number and text; even a carriage
      return or an escape is part of the text. */
  lemma ReadsOperatingSystemCommand(screen: Screen, kind: char, column: int, h: seq<Event>, n: nat, text: string, end: char)
    requires n < 0x8000_0000 && BEL !in text && NUL !in text && (end == BEL || end == NUL)
    ensures Run(screen, kind, Parser(Initial, column, h), [ESC, ']'] + Decimal(n) + [';'] + text + [end])
         == Done(screen, h + [OperatingSystem(n, text)])
  {
    hide Run, Decimal;
    var p := Parser(Initial, column, h);
    AfterEscape(screen, kind, column, h, ']');
    RunConcat(screen, kind, p, [ESC, ']'], Decimal(n));
    var q := p.(ctl := OscNumber(-1));
    ReadsCode(screen, kind, q, n);
    DecimalNoReturn(n);
    RunConcat(screen, kind, p, [ESC, ']'] + Decimal(n), [';']);
    RunOne(screen, kind, p.(ctl := OscNumber(n)), ';');
    RunConcat(screen, kind, p, [ESC, ']'] + Decimal(n) + [';'], text);
    CollectsText(screen, kind, p.(ctl := OscText(n, "")), text);
    assert "" + text == text;
    RunConcat(screen, kind, p, [ESC, ']'] + Decimal(n) + [';'] + text, [end]);
    RunOne(screen, kind, p.(ctl := OscText(n, text)), end);
  }

  // ---------------------------------------------------------------- control characters

  /** One character, given as a call of its own. */
  function Alone(screen: Screen, h: seq<Event>, c: char): seq<Event> { Insert(screen, 'O', Initial, h, [c]).history }

  /** A return goes to the line start; a backspace one column left, a tab right to the next multiple of eight; a
      bell rings; and a line feed goes to the next line start or, in insert mode, puts in a newline where line
      feeds return, and otherwise scrolls on the last line of the scroll region and goes down elsewhere. */
  lemma ControlCharacters(screen: Screen, h: seq<Event>)
    ensures Alone(screen, h, '\r') == h + [LineStart(0)] && Alone(screen, h, BEL) == h + [Bell]
    ensures Alone(screen, h, BS) == h + [CursorLeft]
    ensures exists n :: 1 <= n <= 8 && (screen.column(h) + n) % 8 == 0 && Alone(screen, h, '\t') == h + [CursorRight(n)]
    ensures screen.lineFeedReturns ==>
      Alone(screen, h, '\n') == h + [if screen.insertMode(h) then RawNewline else LineStart(1)]
    ensures !screen.lineFeedReturns ==>
      Alone(screen, h, '\n') == h + [if screen.line(h) + 1 == screen.bottom(h) then ScrollForward else CursorDown]
  {
    hide Run;
    var p := Parser(Initial, screen.column(h), h);
    RunOne(screen, 'O', p, '\r');
    RunOne(screen, 'O', p, BEL);
    RunOne(screen, 'O', p, BS);
    RunOne(screen, 'O', p, '\t');
    RunOne(screen, 'O', p, '\n');
    assert Alone(screen, h, '\t') == h + [CursorRight(NextTabCol(screen.column(h)) - screen.column(h))];
  }
}
