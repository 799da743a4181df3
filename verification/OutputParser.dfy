/** `insertString`: the escape sequence state machine (section 5.4 of ECMA-48) that cuts the output of the
    application into stretches of text and control actions. */
module OutputParser {
  import opened Dom

  // ---------------------------------------------------------------- what the screen is told

  /** The actions on the screen; Shown is `insertSimpleOutput` with the column it is to end at. */
  datatype Event =
    | Shown(s: string, kind: char, end: int)
    | WrapBreak
    | LineStart(delta: int)
    | ScrollForward
    | CursorDown
    | CursorLeft
    | CursorRight(n: int)
    | RawNewline
    | Bell
    | SaveCursor
    | RestoreCursor
    | ReverseIndex
    | Control(last: char, question: bool, prev: seq<int>, cur: int)
    | OperatingSystem(code: int, text: string)

  /** One more action; text that follows text is one stretch, which ends where its last piece ends. */
  function Say(h: seq<Event>, e: Event): seq<Event> {
    if e.Shown? && h != [] && h[|h| - 1].Shown? && h[|h| - 1].kind == e.kind
    then h[..|h| - 1] + [Shown(h[|h| - 1].s + e.s, e.kind, e.end)]
    else h + [e]
  }

  /** `insertSimpleOutput`, which does nothing with an empty stretch. */
  function Flush(h: seq<Event>, s: string, kind: char, end: int): seq<Event> {
    if s == [] then h else Say(h, Shown(s, kind, end))
  }

  /** What the screen answers after the actions so far: the cursor's line and column, the column as it is
      cached (-1 for unknown), the end of the scroll region, and the modes. */
  datatype Screen = Screen(
    line: seq<Event> -> int,
    column: seq<Event> -> nat,
    cached: seq<Event> -> int,
    bottom: seq<Event> -> int,
    insertMode: seq<Event> -> bool,
    lineFeedReturns: bool,
    wrapWidth: nat,
    wrap: bool)

  /** What is known of every screen: a cached column is the column; text is cached to end where it was told
      to; lines start at column 0, and moving to the next forgets the cached column; a bell moves nothing. */
  ghost predicate Sound(screen: Screen) {
    && (forall h :: screen.cached(h) == -1 || screen.cached(h) == screen.column(h))
    && (forall h, s, k, e: int :: s != [] && e >= -1 ==> screen.cached(Say(h, Shown(s, k, e))) == e)
    && (forall h, d :: 0 <= d <= 1 ==> screen.column(Say(h, LineStart(d))) == 0)
    && (forall h :: screen.cached(Say(h, LineStart(1))) == -1)
    && (forall h :: screen.column(Say(h, Bell)) == screen.column(h))
  }

  // ---------------------------------------------------------------- one character at a time

  const ESC := '\U{1B}'
  const BEL := '\U{07}'
  const BS := '\U{08}'
  const NUL := '\U{00}'

  /** Inside a control sequence: the parameters before the last semicolon, and the one being read, which is
      -1 before its first digit. */
  datatype Ctl =
    | Initial
    | Esc
    | Csi(question: bool, prev: seq<int>, cur: int)
    | OscNumber(code: int)
    | OscText(osc: int, text: string)

  /** The column is the parser's own idea of where the text so far ends. */
  datatype Parser = Parser(ctl: Ctl, column: int, history: seq<Event>)

  predicate Digit(ch: char) { '0' <= ch <= '9' }

  predicate Printing(ch: char) { ch !in {'\r', '\n', BS, BEL, ESC, '\t'} }

  /** A Java int. */
  function Int32(n: int): int { (n + 0x8000_0000) % 0x1_0000_0000 - 0x8000_0000 }

  function AddDigit(cur: int, ch: char): int
    requires Digit(ch)
  {
    Int32((if cur >= 0 then 10 * cur else 0) + (ch as int - '0' as int))
  }

  /** Back to text, from where the screen says the cursor is. */
  function Done(screen: Screen, history: seq<Event>): Parser {
    Parser(Initial, screen.column(history), history)
  }

  function EscapeAction(h: seq<Event>, ch: char): seq<Event> {
    if ch == '7' then Say(h, SaveCursor)
    else if ch == '8' then Say(h, RestoreCursor)
    else if ch == 'M' then Say(h, ReverseIndex)
    else h
  }

  function LineFeed(screen: Screen, h: seq<Event>): Event {
    if screen.lineFeedReturns then (if screen.insertMode(h) then RawNewline else LineStart(1))
    else if screen.line(h) == screen.bottom(h) - 1 then ScrollForward
    else CursorDown
  }

  /** After an action the column is taken from the cache, known or not. */
  function Moved(screen: Screen, h: seq<Event>, e: Event): Parser {
    Parser(Initial, screen.cached(Say(h, e)), Say(h, e))
  }

  function Print(screen: Screen, kind: char, column: int, h: seq<Event>, ch: char): Parser
    requires Printing(ch)
  {
    if UpdateColumn(ch, column) > screen.wrapWidth then
      var end := UpdateColumn(ch, 0);
      var broken := if screen.wrap then Say(h, WrapBreak) else h;
      Parser(Initial, end, Say(broken, Shown([ch], kind, end)))
    else
      var end := UpdateColumn(ch, column);
      Parser(Initial, end, Say(h, Shown([ch], kind, end)))
  }

  function Step(screen: Screen, kind: char, p: Parser, ch: char): Parser {
    var h := p.history;
    match p.ctl
    case Esc =>
      if ch == '[' then p.(ctl := Csi(false, [], -1))
      else if ch == ']' then p.(ctl := OscNumber(-1))
      else Done(screen, EscapeAction(h, ch))
    case Csi(question, prev, cur) =>
      if Digit(ch) then p.(ctl := Csi(question, prev, AddDigit(cur, ch)))
      else if ch == ';' then p.(ctl := Csi(question, prev + [cur], -1))
      else if ch == '?' then p.(ctl := Csi(true, prev, cur))
      else Done(screen, Say(h, Control(ch, question, prev, cur)))
    case OscNumber(code) =>
      if Digit(ch) then p.(ctl := OscNumber(AddDigit(code, ch)))
      else if ch == ';' then p.(ctl := OscText(code, ""))
      else Done(screen, h)
    case OscText(code, text) =>
      if ch == BEL || ch == NUL then Done(screen, Say(h, OperatingSystem(code, text)))
      else p.(ctl := OscText(code, text + [ch]))
    case Initial =>
      if ch == '\r' then Parser(Initial, 0, Say(h, LineStart(0)))
      else if ch == '\n' then Moved(screen, h, LineFeed(screen, h))
      else if ch == BS then Moved(screen, h, CursorLeft)
      else if ch == BEL then p.(history := Say(h, Bell))
      else if ch == ESC then p.(ctl := Esc)
      else if ch == '\t' then Moved(screen, h, CursorRight(NextTabCol(screen.column(h)) - screen.column(h)))
      else Print(screen, kind, p.column, h, ch)
  }

  /** A carriage return and a line feed that are taken as one: not on the last line of the scroll region. */
  predicate ReturnsAndFeeds(screen: Screen, p: Parser, s: string) {
    && p.ctl.Initial? && |s| >= 2 && s[0] == '\r' && s[1] == '\n'
    && screen.line(p.history) != screen.bottom(p.history) - 1
  }

  function Run(screen: Screen, kind: char, p: Parser, s: string): Parser
    decreases |s|
  {
    if s == [] then p
    else if ReturnsAndFeeds(screen, p, s)
    then Run(screen, kind, Parser(Initial, 0, Say(p.history, LineStart(1))), s[2..])
    else Run(screen, kind, Step(screen, kind, p, s[0]), s[1..])
  }

  /** One call: the column is asked for, then the characters are taken. */
  function Insert(screen: Screen, kind: char, ctl: Ctl, history: seq<Event>, s: string): Parser {
    Run(screen, kind, Parser(ctl, screen.column(history), history), s)
  }

  // ---------------------------------------------------------------- the method

  lemma FlushMore(h: seq<Event>, s: string, kind: char, end: int, ch: char, end': int)
    ensures Say(Flush(h, s, kind, end), Shown([ch], kind, end')) == Flush(h, s + [ch], kind, end')
  {
    if s == [] {
      assert s + [ch] == [ch];
    } else if h != [] && h[|h| - 1].Shown? && h[|h| - 1].kind == kind {
      var init, last := h[..|h| - 1], h[|h| - 1].s;
      assert (init + [Shown(last + s, kind, end)])[..|init|] == init;
      assert (last + s) + [ch] == last + (s + [ch]);
    } else {
      assert (h + [Shown(s, kind, end)])[..|h|] == h;
    }
  }

  const INITIAL_STATE := 0
  const SEEN_ESC_STATE := 1
  const SEEN_ESC_LBRACKET_STATE := 2
  const SEEN_ESC_LBRACKET_QUESTION_STATE := 3
  const SEEN_ESC_RBRACKET_STATE := 4
  const SEEN_ESC_BRACKET_TEXT_STATE := 5

  class TerminalOutput {
    const screen: Screen
    var controlSequenceState: int
    var prevParametersCount: int
    var curNumParameter: int
    var prevNumParameters: array?<int>
    var curTextParameter: string
    var history: seq<Event>             // all actions so far

    predicate Collecting()
      reads this
    {
      controlSequenceState == SEEN_ESC_LBRACKET_STATE || controlSequenceState == SEEN_ESC_LBRACKET_QUESTION_STATE
    }

    predicate Valid()
      reads this
    {
      && INITIAL_STATE <= controlSequenceState <= SEEN_ESC_BRACKET_TEXT_STATE
      && (Collecting() ==> 0 <= prevParametersCount)
      && (prevNumParameters == null ==> Collecting() ==> prevParametersCount == 0)
      && (prevNumParameters != null ==>
            Collecting() && prevParametersCount <= prevNumParameters.Length && 4 <= prevNumParameters.Length)
    }

    function Params(): (ps: seq<int>)
      requires Valid() && Collecting()
      reads this, prevNumParameters
      ensures |ps| == prevParametersCount
    {
      if prevNumParameters == null then [] else prevNumParameters[..prevParametersCount]
    }

    function State(): Ctl
      requires Valid()
      reads this, prevNumParameters
    {
      if controlSequenceState == INITIAL_STATE then Initial
      else if controlSequenceState == SEEN_ESC_STATE then Esc
      else if Collecting() then Csi(controlSequenceState == SEEN_ESC_LBRACKET_QUESTION_STATE, Params(), curNumParameter)
      else if controlSequenceState == SEEN_ESC_RBRACKET_STATE then OscNumber(curNumParameter)
      else OscText(curNumParameter, curTextParameter)
    }

    constructor (screen: Screen)
      ensures Valid() && State() == Initial && history == [] && this.screen == screen
    {
      this.screen := screen;
      controlSequenceState, prevParametersCount, curNumParameter := INITIAL_STATE, 0, -1;
      prevNumParameters, curTextParameter, history := null, "", [];
    }

    /** A semicolon: the parameter goes into the array, which doubles when it is full. */
    method PushParameter()
      requires Valid() && Collecting()
      modifies this`prevNumParameters, this`prevParametersCount, this`curNumParameter, prevNumParameters
      ensures Valid() && Collecting() && curNumParameter == -1
      ensures Params() == old(Params()) + [old(curNumParameter)]
      ensures prevNumParameters != null && (prevNumParameters == old(prevNumParameters) || fresh(prevNumParameters))
    {
      ghost var params := Params();
      if prevNumParameters == null {
        prevNumParameters := new int[4](_ => 0);
      } else if prevNumParameters.Length <= prevParametersCount {
        var a := prevNumParameters;
        prevNumParameters := new int[2 * prevParametersCount](i requires 0 <= i reads a => if i < a.Length then a[i] else 0);
      }
      assert prevNumParameters[..prevParametersCount] == params;
      prevNumParameters[prevParametersCount] := curNumParameter;
      assert prevNumParameters[..prevParametersCount + 1] == params + [curNumParameter];
      curNumParameter := -1;
      prevParametersCount := prevParametersCount + 1;
    }

    /** The states inside a control sequence. */
    method InSequence(ch: char, ghost kind: char, ghost column: int) returns (finished: bool)
      requires Valid() && controlSequenceState != INITIAL_STATE
      modifies this, prevNumParameters
      ensures Valid() && (prevNumParameters == old(prevNumParameters) || prevNumParameters == null || fresh(prevNumParameters))
      ensures var q := Step(screen, kind, Parser(old(State()), column, old(history)), ch);
        && State() == q.ctl && history == q.history && (finished <==> q.ctl.Initial?)
        && q.column == if finished then screen.column(history) else column
    {
      finished := false;
      if controlSequenceState == SEEN_ESC_STATE {
        if ch == '[' || ch == ']' {
          controlSequenceState := if ch == '[' then SEEN_ESC_LBRACKET_STATE else SEEN_ESC_RBRACKET_STATE;
          curNumParameter, prevParametersCount := -1, 0;
        } else {
          if ch == '7' { history := Say(history, SaveCursor); }
          else if ch == '8' { history := Say(history, RestoreCursor); }
          else if ch == 'M' { history := Say(history, ReverseIndex); }
          controlSequenceState, finished := INITIAL_STATE, true;
        }
      } else if Collecting() {
        if Digit(ch) {
          curNumParameter := AddDigit(curNumParameter, ch);
        } else if ch == ';' {
          PushParameter();
        } else if ch == '?' {
          controlSequenceState := SEEN_ESC_LBRACKET_QUESTION_STATE;
        } else {
          var question := controlSequenceState == SEEN_ESC_LBRACKET_QUESTION_STATE;
          history := Say(history, Control(ch, question, Params(), curNumParameter));
          prevNumParameters := null;
          controlSequenceState, finished := INITIAL_STATE, true;
        }
      } else if controlSequenceState == SEEN_ESC_RBRACKET_STATE {
        if Digit(ch) {
          curNumParameter := AddDigit(curNumParameter, ch);
        } else if ch == ';' {
          controlSequenceState, curTextParameter := SEEN_ESC_BRACKET_TEXT_STATE, "";
        } else {
          prevNumParameters := null;
          controlSequenceState, finished := INITIAL_STATE, true;
        }
      } else if ch == BEL || ch == NUL {
        history := Say(history, OperatingSystem(curNumParameter, curTextParameter));
        curTextParameter := "";
        controlSequenceState, finished := INITIAL_STATE, true;
        prevNumParameters := null;
      } else {
        curTextParameter := curTextParameter + [ch];
      }
    }

    method InsertSimpleOutput(str: string, beginIndex: nat, endIndex: nat, kind: char, endColumn: int)
      requires beginIndex <= endIndex <= |str|
      modifies this`history
      ensures history == Flush(old(history), str[beginIndex..endIndex], kind, endColumn)
    {
      if beginIndex == endIndex { return; }
      history := Say(history, Shown(str[beginIndex..endIndex], kind, endColumn));
    }

    /** The parser, given the text that is still to be inserted. */
    ghost function Now(pending: string, kind: char, curColumn: int): Parser
      requires Valid()
      reads this, prevNumParameters
    {
      Parser(State(), curColumn,
        if controlSequenceState == INITIAL_STATE then Flush(history, pending, kind, curColumn) else history)
    }

    /** The initial state: a control character ends the stretch of text; any other joins it. */
    method InText(str: string, prevEnd0: nat, i0: nat, kind: char, curColumn0: int)
      returns (prevEnd: nat, i: nat, curColumn: int)
      requires Valid() && controlSequenceState == INITIAL_STATE && prevEnd0 <= i0 < |str|
      modifies this`history, this`controlSequenceState
      ensures Valid() && prevEnd <= i <= |str| && i0 < i
      ensures var p := old(Now(str[prevEnd0..i0], kind, curColumn0));
        if ReturnsAndFeeds(screen, p, str[i0..])
        then i == i0 + 2 && Now(str[prevEnd..i], kind, curColumn) == Parser(Initial, 0, Say(p.history, LineStart(1)))
        else i == i0 + 1 && Now(str[prevEnd..i], kind, curColumn) == Step(screen, kind, p, str[i0])
    {
      var ch := str[i0];
      prevEnd, i, curColumn := prevEnd0, i0, curColumn0;
      ghost var pending := str[prevEnd..i];
      if Printing(ch) {
        FlushMore(history, pending, kind, curColumn, ch, UpdateColumn(ch, curColumn));
        FlushMore(history, pending, kind, curColumn, ch, UpdateColumn(ch, 0));
        var nextColumn := UpdateColumn(ch, curColumn);
        if nextColumn > screen.wrapWidth {
          if screen.wrap {
            InsertSimpleOutput(str, prevEnd, i, kind, curColumn);
            history := Say(history, WrapBreak);
            prevEnd := i;
          }
          nextColumn := UpdateColumn(ch, 0);
        }
        curColumn, i := nextColumn, i + 1;
        assert str[prevEnd0..i0 + 1] == pending + [ch];
        assert str[i0..i0 + 1] == [ch];
      } else {
        InsertSimpleOutput(str, prevEnd, i, kind, curColumn);
        i, curColumn := ControlCharacter(str, i, kind, curColumn);
        prevEnd := i;
      }
    }

    method ControlCharacter(str: string, i0: nat, ghost kind: char, curColumn0: int) returns (i: nat, curColumn: int)
      requires Valid() && controlSequenceState == INITIAL_STATE && i0 < |str| && !Printing(str[i0])
      modifies this`history, this`controlSequenceState
      ensures Valid() && i0 < i <= |str|
      ensures var p := Parser(Initial, curColumn0, old(history));
        var q := if ReturnsAndFeeds(screen, p, str[i0..]) then Parser(Initial, 0, Say(p.history, LineStart(1)))
                 else Step(screen, kind, p, str[i0]);
        i == (if ReturnsAndFeeds(screen, p, str[i0..]) then i0 + 2 else i0 + 1) && Parser(State(), curColumn, history) == q
    {
      i, curColumn := i0 + 1, curColumn0;
      match str[i0]
      case '\r' =>
        if i < |str| && str[i] == '\n' && screen.line(history) != screen.bottom(history) - 1 {
          history, i := Say(history, LineStart(1)), i + 1;
        } else {
          history := Say(history, LineStart(0));
        }
        curColumn := 0;
      case '\n' =>
        if screen.lineFeedReturns {
          history := Say(history, if screen.insertMode(history) then RawNewline else LineStart(1));
        } else if screen.line(history) == screen.bottom(history) - 1 {
          history := Say(history, ScrollForward);
        } else {
          history := Say(history, CursorDown);
        }
        curColumn := screen.cached(history);
      case '\t' =>
        var nextStop := NextTabCol(screen.column(history));
        history := Say(history, CursorRight(nextStop - screen.column(history)));
        curColumn := screen.cached(history);
      case _ =>
        if str[i0] == BS {
          history := Say(history, CursorLeft);
          curColumn := screen.cached(history);
        } else if str[i0] == BEL {
          history := Say(history, Bell);
        } else {
          controlSequenceState := SEEN_ESC_STATE;
        }
    }

    /** The whole string: the stretches of text and the actions are those of taking one character at a time. */
    method InsertString(str: string, kind: char)
      requires Valid()
      modifies this, prevNumParameters
      ensures Valid()
      ensures var p := Insert(screen, kind, old(State()), old(history), str);
        State() == p.ctl && history == p.history
    {
      hide Step, Flush, Say, ReturnsAndFeeds;
      var prevEnd: nat, curColumn, i: nat := 0, screen.column(history), 0;
      ghost var p0 := Parser(State(), curColumn, history);
      assert str[0..] == str;
      NothingPending(history, str, 0, kind, curColumn);
      while i < |str|
        invariant Valid() && prevEnd <= i <= |str|
        invariant Run(screen, kind, Now(str[prevEnd..i], kind, curColumn), str[i..]) == Run(screen, kind, p0, str)
        invariant prevNumParameters == null || prevNumParameters == old(prevNumParameters) || fresh(prevNumParameters)
      {
        assert str[i..][1..] == str[i + 1..] && (i + 2 <= |str| ==> str[i..][2..] == str[i + 2..]);
        if controlSequenceState == INITIAL_STATE {
          prevEnd, i, curColumn := InText(str, prevEnd, i, kind, curColumn);
        } else {
          OnlyInText(screen, Now(str[prevEnd..i], kind, curColumn), str[i..]);
          var finished := InSequence(str[i], kind, curColumn);
          i := i + 1;
          if finished { prevEnd, curColumn := i, screen.column(history); }
          NothingPending(history, str, i, kind, curColumn);
        }
      }
      if controlSequenceState == INITIAL_STATE {
        InsertSimpleOutput(str, prevEnd, i, kind, curColumn);
      }
    }
  }

  lemma OnlyInText(screen: Screen, p: Parser, s: string)
    ensures ReturnsAndFeeds(screen, p, s) ==> p.ctl.Initial? && |s| >= 2
  {
  }

  lemma NothingPending(h: seq<Event>, str: string, i: nat, kind: char, column: int)
    requires i <= |str|
    ensures Flush(h, str[i..i], kind, column) == h
  {
  }
}
