/** `adjustStyle` and `popStyle`: before text is inserted the spans around the cursor are made to match the
    current styles, by leaving spans (which splits them) and entering a new one. */
module AdjustStyle {
  import opened Dom
  import opened T = Terminal
  import S = Styles
  import opened Wrappers

  // ---------------------------------------------------------------- style attributes as text

  predicate Blank(c: char) { c <= ' ' }

  /** `String.trim`. */
  function Trim(s: string): (r: string)
    ensures |r| <= |s| && (r != [] ==> !Blank(r[0]) && !Blank(r[|r| - 1]))
  {
    if s == [] then []
    else if Blank(s[0]) then Trim(s[1..])
    else if Blank(s[|s| - 1]) then Trim(s[..|s| - 1])
    else s
  }

  /** `indexOf(';')`, or the length when there is none. */
  function Semicolon(s: string): (i: nat)
    ensures i <= |s| && ';' !in s[..i] && (i < |s| ==> s[i] == ';')
  {
    if s == [] || s[0] == ';' then 0 else
      assert s[..1 + Semicolon(s[1..])] == [s[0]] + s[1..][..Semicolon(s[1..])];
      1 + Semicolon(s[1..])
  }

  /** The properties a style attribute lists: the pieces between semicolons, without the empty ones. */
  function Props(attr: string): seq<string>
    decreases |attr|
  {
    var p := Trim(attr);
    if p == [] then [] else
      var i := Semicolon(p);
      if i == |p| then [p] else
        var s := Trim(p[..i]);
        (if s == [] then [] else [s]) + Props(p[i + 1..])
  }

  /** What `adjustStyle` writes into a new span. */
  function Join(ss: seq<string>): string
    requires ss != []
  {
    if |ss| == 1 then ss[0] else ss[0] + ";" + Join(ss[1..])
  }

  /** A style as the current list holds them: no blank at either end, and no semicolon. */
  predicate CleanStyle(s: string) {
    s != [] && !Blank(s[0]) && !Blank(s[|s| - 1]) && ';' !in s
  }

  lemma {:induction false} SemicolonAt(s: string, i: nat)
    requires i < |s| && s[i] == ';' && ';' !in s[..i]
    ensures Semicolon(s) == i
  {
    if i > 0 {
      assert s[0] == s[..i][0];
      assert s[1..][..i - 1] == s[..i][1..];
      SemicolonAt(s[1..], i - 1);
    }
  }

  lemma {:induction false} JoinEnds(ss: seq<string>)
    requires ss != [] && forall s :: s in ss ==> CleanStyle(s)
    ensures Join(ss) != [] && !Blank(Join(ss)[0]) && !Blank(Join(ss)[|Join(ss)| - 1])
  {
    assert CleanStyle(ss[0]);
    if |ss| > 1 {
      assert forall s :: s in ss[1..] ==> s in ss;
      JoinEnds(ss[1..]);
    }
  }

  lemma {:induction false} NoSemicolon(s: string)
    requires ';' !in s
    ensures Semicolon(s) == |s|
  {
    if s != [] {
      assert s[0] in s;
      NoSemicolon(s[1..]);
    }
  }

  lemma Trimmed(s: string)
    requires s != [] && !Blank(s[0]) && !Blank(s[|s| - 1])
    ensures Trim(s) == s
  {
  }

  lemma PropsCons(s: string, rest: string)
    requires CleanStyle(s) && rest != [] && !Blank(rest[|rest| - 1])
    ensures Props(s + ";" + rest) == [s] + Props(rest)
  {
    hide Trim, Semicolon;
    var j := s + ";" + rest;
    Trimmed(j);
    Trimmed(s);
    assert j[..|s|] == s && j[|s| + 1..] == rest;
    SemicolonAt(j, |s|);
  }

  lemma PropsOne(s: string)
    requires CleanStyle(s)
    ensures Props(s) == [s]
  {
    hide Trim, Semicolon;
    Trimmed(s);
    NoSemicolon(s);
  }

  /** Reading back what was written gives the same styles. */
  lemma {:induction false} PropsOfJoin(ss: seq<string>)
    requires ss != [] && forall s :: s in ss ==> CleanStyle(s)
    ensures Props(Join(ss)) == ss
    decreases |ss|
  {
    hide Props, Trim, Semicolon, Blank;
    assert CleanStyle(ss[0]);
    if |ss| == 1 {
      PropsOne(ss[0]);
      assert ss == [ss[0]];
    } else {
      var rest := ss[1..];
      assert forall x :: x in rest ==> x in ss;
      JoinEnds(rest);
      PropsCons(ss[0], Join(rest));
      PropsOfJoin(rest);
      assert ss == [ss[0]] + rest;
    }
  }

  predicate AllBlank(s: string) { forall i :: 0 <= i < |s| ==> s[i] as int <= 0x20 }

  predicate Solid(s: string) { s == [] || (s[0] as int > 0x20 && s[|s| - 1] as int > 0x20) }

  /** Trimming takes the blanks off both ends and nothing else. */
  lemma {:induction false} TrimIs(l: string, s: string, r: string)
    requires AllBlank(l) && Solid(s) && AllBlank(r)
    ensures Trim(l + s + r) == s
    decreases |l| + |r|
  {
    var t := l + s + r;
    if l != [] {
      assert t[1..] == l[1..] + s + r;
      TrimIs(l[1..], s, r);
    } else if r != [] {
      if s == [] {
        assert t == r && t[1..] == [] + s + r[1..];
        TrimIs([], s, r[1..]);
      } else {
        assert t[0] == s[0] && t[..|t| - 1] == [] + s + r[..|r| - 1];
        TrimIs([], s, r[..|r| - 1]);
      }
    } else {
      assert t == s;
    }
  }

  lemma NoBlanks()
    ensures AllBlank([])
  {
  }

  lemma MoreBlank(c: char, s: string)
    requires Blank(c) && AllBlank(s)
    ensures AllBlank([c] + s) && AllBlank(s + [c])
  {
  }

  lemma {:induction false} TrimParts(s: string) returns (l: string, r: string)
    ensures s == l + Trim(s) + r && AllBlank(l) && AllBlank(r) && Solid(Trim(s))
    decreases |s|
  {
    hide AllBlank;
    NoBlanks();
    l, r := [], [];
    if s != [] {
      if Blank(s[0]) {
        l, r := TrimParts(s[1..]);
        MoreBlank(s[0], l);
        l := [s[0]] + l;
        assert s == [s[0]] + s[1..];
      } else if Blank(s[|s| - 1]) {
        l, r := TrimParts(s[..|s| - 1]);
        MoreBlank(s[|s| - 1], r);
        r := r + [s[|s| - 1]];
        assert s == s[..|s| - 1] + [s[|s| - 1]];
      }
    }
  }

  /** Only the trimmed attribute counts. */
  lemma SameProps(a: string, b: string)
    requires Trim(a) == Trim(b)
    ensures Props(a) == Props(b)
  {
    hide Trim, Semicolon;
  }

  function Piece(x: string): seq<string> { if Trim(x) == [] then [] else [Trim(x)] }

  /** The attribute is read piece by piece, blanks around the pieces ignored and empty pieces left out. */
  lemma PropsReadPieces(x: string, rest: string)
    requires ';' !in x
    ensures Props(x) == Piece(x) && Props(x + ";" + rest) == Piece(x) + Props(rest)
  {
    hide Trim, Semicolon, Blank, Props, AllBlank, Solid, Piece;
    var l, s, r := Outside(x);
    OnePiece(x, l, r);
    var front, tail, back := Behind(rest);
    var core := s + r + ";" + (front + tail);
    assert x + ";" + rest == l + core + back;
    CoreIsSolid(s, r, front, tail);
    TrimIs(l, core, back);
    forall c | c in s + r ensures c in x { assert c in l + s + r; }
    FirstPiece(x + ";" + rest, core, s + r, front + tail);
    assert s + r == [] + s + r && front + tail == front + tail + [];
    NoBlanks();
    TrimIs([], s, r);
    SamePiece(s + r, x);
    TrimIs(front, tail, []);
    SameProps(front + tail, rest);
  }

  lemma SamePiece(a: string, b: string)
    requires Trim(a) == Trim(b)
    ensures Piece(a) == Piece(b)
  {
  }

  /** The piece between its blanks; a blank piece counts as blanks in front. */
  lemma Outside(x: string) returns (l: string, s: string, r: string)
    ensures x == l + s + r && s == Trim(x) && AllBlank(l) && AllBlank(r) && Solid(s) && (s == [] ==> r == [])
  {
    hide Trim;
    s := Trim(x);
    l, r := TrimParts(x);
    if s == [] {
      BlankOnly(x);
      l, r := x, [];
    }
  }

  /** The same for the rest, where blanks count as blanks behind. */
  lemma Behind(x: string) returns (l: string, s: string, r: string)
    ensures x == l + s + r && s == Trim(x) && AllBlank(l) && AllBlank(r) && Solid(s) && (s == [] ==> l == [])
  {
    hide Trim;
    s := Trim(x);
    l, r := TrimParts(x);
    if s == [] {
      BlankOnly(x);
      l, r := [], x;
    }
  }

  lemma BlankOnly(s: string)
    requires Trim(s) == []
    ensures AllBlank(s)
  {
    hide Trim, Blank;
    var l, r := TrimParts(s);
    assert s == l + r;
  }

  lemma CoreIsSolid(s: string, r: string, front: string, tail: string)
    requires Solid(s) && Solid(tail) && (s == [] ==> r == []) && (tail == [] ==> front == [])
    ensures Solid(s + r + ";" + (front + tail))
  {
    var core := s + r + ";" + (front + tail);
    assert core[0] == if s == [] then ';' else s[0];
    assert core[|core| - 1] == if tail == [] then ';' else tail[|tail| - 1];
  }

  lemma FirstPiece(attr: string, core: string, x: string, end: string)
    requires Trim(attr) == core == x + ";" + end && ';' !in x
    ensures Props(attr) == Piece(x) + Props(end)
  {
    hide Trim, Semicolon;
    assert core[|x|] == ';' && core[..|x|] == x && core[|x| + 1..] == end;
    SemicolonAt(core, |x|);
  }

  lemma OnePiece(x: string, l: string, r: string)
    requires ';' !in x && x == l + Trim(x) + r
    ensures Props(x) == Piece(x)
  {
    hide Trim, Semicolon;
    forall c | c in Trim(x) ensures c in x { assert c in l + Trim(x) + r; }
    if Trim(x) != [] { NoSemicolon(Trim(x)); }
  }

  // ---------------------------------------------------------------- styled documents

  /** The styles in force at a place, outermost first. */
  function Inherited(ctx: Ctx): seq<string> {
    match ctx
    case Home => []
    case In(style, _, _, up) => Inherited(up) + Props(style)
  }

  /** Each character or break with the styles it is shown in. */
  function Styled(ns: seq<Node>, styles: seq<string>): seq<(Item, seq<string>)>
    decreases ns, 0
  {
    if ns == [] then [] else StyledNode(ns[0], styles) + Styled(ns[1..], styles)
  }

  function StyledNode(n: Node, styles: seq<string>): seq<(Item, seq<string>)>
    decreases n, 1
  {
    match n
    case Text(s) => seq(|s|, i requires 0 <= i < |s| => (Ch(s[i]), styles))
    case Br => [(Brk, styles)]
    case Span(style, children) => Styled(children, styles + Props(style))
    case Input => []
  }

  function StyledBefore(ctx: Ctx, left: seq<Node>): seq<(Item, seq<string>)> {
    (if ctx.In? then StyledBefore(ctx.up, ctx.left) else []) + Styled(left, Inherited(ctx))
  }

  function StyledAfter(ctx: Ctx, right: seq<Node>): seq<(Item, seq<string>)> {
    Styled(right, Inherited(ctx)) + if ctx.In? then StyledAfter(ctx.up, ctx.right) else []
  }

  lemma {:induction false} StyledConcat(a: seq<Node>, b: seq<Node>, styles: seq<string>)
    ensures Styled(a + b, styles) == Styled(a, styles) + Styled(b, styles)
    decreases |a|
  {
    if a == [] {
      assert a + b == b;
    } else {
      assert (a + b)[1..] == a[1..] + b;
      StyledConcat(a[1..], b, styles);
    }
  }

  lemma StyledOne(n: Node, styles: seq<string>)
    ensures Styled([n], styles) == StyledNode(n, styles)
  {
  }

  /** The styled document is what is before a place and what is after it. */
  lemma {:induction false} StyledRebuild(ctx: Ctx, left: seq<Node>, right: seq<Node>)
    ensures Styled(Rebuild(ctx, left + right), []) == StyledBefore(ctx, left) + StyledAfter(ctx, right)
    decreases ctx
  {
    hide Styled;
    var inside := Inherited(ctx);
    StyledConcat(left, right, inside);
    match ctx {
      case Home =>
        assert [] + Styled(left, []) == Styled(left, []) && Styled(right, []) + [] == Styled(right, []);
      case In(style, l, r, up) =>
        var span := Span(style, left + right);
        assert l + [span] + r == l + ([span] + r);
        StyledRebuild(up, l, [span] + r);
        StyledConcat([span], r, Inherited(up));
        StyledOne(span, Inherited(up));
        var outer := if up.In? then StyledAfter(up.up, up.right) else [];
        Regroup5(StyledBefore(up, l), Styled(left, inside), Styled(right, inside), Styled(r, Inherited(up)), outer);
    }
  }

  lemma Regroup5<A>(b: seq<A>, x: seq<A>, y: seq<A>, r: seq<A>, o: seq<A>)
    ensures b + (((x + y) + r) + o) == (b + x) + (y + (r + o))
  {
  }

  // ---------------------------------------------------------------- the spans around the cursor

  /** The style attributes of the enclosing spans, outermost first. */
  function Attrs(ctx: Ctx): seq<string> {
    match ctx
    case Home => []
    case In(style, _, _, up) => Attrs(up) + [style]
  }

  function AllProps(attrs: seq<string>): seq<string> {
    if attrs == [] then [] else AllProps(attrs[..|attrs| - 1]) + Props(attrs[|attrs| - 1])
  }

  lemma {:induction false} InheritedIsAllProps(ctx: Ctx)
    ensures Inherited(ctx) == AllProps(Attrs(ctx))
  {
    match ctx {
      case Home =>
      case In(style, _, _, up) =>
        InheritedIsAllProps(up);
        assert Attrs(ctx)[..|Attrs(ctx)| - 1] == Attrs(up);
    }
  }

  /** The attributes of the spans that have one, which are those `adjustStyle` looks at. */
  function StyledOnly(attrs: seq<string>): seq<string> {
    if attrs == [] then [] else
      StyledOnly(attrs[..|attrs| - 1]) + if attrs[|attrs| - 1] == "" then [] else [attrs[|attrs| - 1]]
  }

  /** How far the styled spans, from the outermost, match a prefix of the current styles: the number of
      styles they account for, and the number of spans. */
  function Kept(spans: seq<string>, current: seq<string>, kept: nat, i: nat): (r: (nat, nat))
    requires kept <= |current| && i <= |spans|
    ensures kept <= r.0 <= |current| && i <= r.1 <= |spans|
    decreases |spans| - i
  {
    if i == |spans| || kept == |current| then (kept, i) else
      var ps := Props(spans[i]);
      if ps <= current[kept..] then Kept(spans, current, kept + |ps|, i + 1) else (kept, i)
  }

  /** The first m spans give a beginning of the current styles, and no further span can be kept: none is left,
      or they give all styles, the last of them not in vain, or what the next one gives does not come next. */
  ghost predicate Matches(spans: seq<string>, current: seq<string>, m: nat) {
    && m <= |spans| && AllProps(spans[..m]) <= current
    && (m > 0 ==> AllProps(spans[..m - 1]) < current)
    && (m == |spans| || AllProps(spans[..m]) == current || !(AllProps(spans[..m + 1]) <= current))
  }

  lemma {:induction false} KeptMatches(spans: seq<string>, current: seq<string>, kept: nat, i: nat)
    requires kept <= |current| && i <= |spans| && AllProps(spans[..i]) == current[..kept]
    requires i > 0 ==> AllProps(spans[..i - 1]) < current
    ensures var r := Kept(spans, current, kept, i);
      Matches(spans, current, r.1) && AllProps(spans[..r.1]) == current[..r.0]
    decreases |spans| - i
  {
    hide Props, AllProps;
    if i < |spans| {
      var ps := Props(spans[i]);
      OneMoreSpan(spans, i);
      if ps <= current[kept..] {
        TakeMore(current, kept, ps);
        if kept < |current| { KeptMatches(spans, current, kept + |ps|, i + 1); }
      } else {
        NotNext(current, kept, ps);
      }
    }
  }

  lemma NotNext(current: seq<string>, kept: nat, ps: seq<string>)
    requires kept <= |current| && !(ps <= current[kept..])
    ensures !(current[..kept] + ps <= current)
  {
  }

  lemma {:induction false} OuterGiveFirst(spans: seq<string>, m: nat)
    requires m <= |spans|
    ensures AllProps(spans[..m]) <= AllProps(spans)
    decreases |spans|
  {
    hide Props;
    if m == |spans| {
      assert spans[..m] == spans;
    } else {
      OuterGiveFirst(spans[..|spans| - 1], m);
      assert spans[..|spans| - 1][..m] == spans[..m];
    }
  }

  /** There is one such number only. */
  lemma MatchesOnce(spans: seq<string>, current: seq<string>, m: nat, n: nat)
    requires Matches(spans, current, m) && Matches(spans, current, n)
    ensures m == n
  {
    hide AllProps;
    var lo, hi := if m < n then m else n, if m < n then n else m;
    if lo < hi {
      assert spans[..hi][..lo + 1] == spans[..lo + 1] && spans[..hi - 1][..lo] == spans[..lo];
      OuterGiveFirst(spans[..hi], lo + 1);
      OuterGiveFirst(spans[..hi - 1], lo);
    }
  }

  /** If the spans together give the current styles, all of them are kept unless the innermost gives nothing. */
  lemma KeptWhenCurrent(spans: seq<string>, m: nat)
    requires Matches(spans, AllProps(spans), m)
    ensures m == |spans| <==> (spans != [] ==> Props(spans[|spans| - 1]) != [])
    ensures AllProps(spans[..m]) == AllProps(spans)
  {
    hide Props, AllProps;
    assert spans[..|spans|] == spans;
    if m < |spans| {
      OuterGiveFirst(spans, m + 1);
      assert AllProps(spans[..m]) == AllProps(spans);
      SilentIff(spans, m);
    } else if m > 0 {
      OneMoreSpan(spans, m - 1);
    }
  }

  lemma {:induction false} AllStyledOnly(attrs: seq<string>)
    requires AllStyled(attrs)
    ensures StyledOnly(attrs) == attrs
  {
    if attrs != [] {
      var init := attrs[..|attrs| - 1];
      assert AllStyled(init);
      AllStyledOnly(init);
      assert attrs == init + [attrs[|attrs| - 1]];
    }
  }

  // ---------------------------------------------------------------- leaving a span

  lemma CloseDoesNotMove(items: seq<Item>)
    ensures PlaceAfter(ORIGIN, items + [Close]) == PlaceAfter(ORIGIN, items)
  {
    PlaceAfterConcat(ORIGIN, items, [Close]);
  }

  /** `popStyle`: moves the input line behind the innermost span.  What followed it in the span goes into a
      second span of the same style, so every character keeps its styles, and the cursor its place. */
  method PopStyle(t: Terminal)
    requires t.Valid() && t.ctx.In?
    modifies t`ctx, t`left, t`right
    ensures t.Valid() && t.Cursor() == old(t.Cursor()) && t.ctx == old(t.ctx.up)
    ensures StyledBefore(t.ctx, t.left) == old(StyledBefore(t.ctx, t.left))
    ensures StyledAfter(t.ctx, t.right) == old(StyledAfter(t.ctx, t.right))
  {
    var span1, following := t.ctx, t.right;
    var rest := span1.right;
    if following != [] {
      var children: seq<Node> := [];
      assert children + following == t.right;
      while following != []
        invariant children + following == t.right
        decreases |following|
      {
        assert (children + [following[0]]) + following[1..] == children + following;
        children, following := children + [following[0]], following[1..];
      }
      assert children == t.right;
      rest := [Span(span1.style, children)] + rest;
    }
    SpanLeft(span1, t.left, t.right, rest);
    t.ctx, t.left, t.right := span1.up, span1.left + [Span(span1.style, t.left)], rest;
  }

  lemma SpanLeft(ctx: Ctx, left: seq<Node>, right: seq<Node>, rest: seq<Node>)
    requires ctx.In? && rest == (if right == [] then [] else [Span(ctx.style, right)]) + ctx.right
    ensures var left' := ctx.left + [Span(ctx.style, left)];
      && StyledBefore(ctx.up, left') == StyledBefore(ctx, left)
      && StyledAfter(ctx.up, rest) == StyledAfter(ctx, right)
      && PlaceAfter(ORIGIN, Before(ctx.up, left')) == PlaceAfter(ORIGIN, Before(ctx, left))
    ensures Plain(Before(ctx, left) + After(ctx, right)) && Here !in Before(ctx, left) + After(ctx, right) ==>
      var doc := Before(ctx.up, ctx.left + [Span(ctx.style, left)]) + After(ctx.up, rest);
      Plain(doc) && Here !in doc
  {
    StyledParts(ctx, left, right, rest);
    StepOut(ctx, left);
    CloseDoesNotMove(Before(ctx, left));
    var tail := if right == [] then [] else [Span(ctx.style, right)];
    if right != [] { StepOver(ctx.up, [], tail[0], ctx.right); } else { assert tail + ctx.right == ctx.right; }
    var b, a := Before(ctx, left), After(ctx, right);
    if Plain(b + a) && Here !in b + a {
      var doc := (b + [Close]) + After(ctx.up, rest);
      forall i | i in doc ensures PlainItem(i) && i != Here {
        if !(i in b || i == Close || i == Open(ctx.style)) { assert i in a; }
        if i in b || i in a { assert i in b + a; }
      }
    }
  }

  lemma StyledParts(ctx: Ctx, left: seq<Node>, right: seq<Node>, rest: seq<Node>)
    requires ctx.In? && rest == (if right == [] then [] else [Span(ctx.style, right)]) + ctx.right
    ensures StyledBefore(ctx.up, ctx.left + [Span(ctx.style, left)]) == StyledBefore(ctx, left)
    ensures StyledAfter(ctx.up, rest) == StyledAfter(ctx, right)
  {
    hide Styled;
    var outer := Inherited(ctx.up);
    StyledConcat(ctx.left, [Span(ctx.style, left)], outer);
    StyledOne(Span(ctx.style, left), outer);
    var b := if ctx.up.In? then StyledBefore(ctx.up.up, ctx.up.left) else [];
    assert b + (Styled(ctx.left, outer) + Styled(left, Inherited(ctx)))
        == (b + Styled(ctx.left, outer)) + Styled(left, Inherited(ctx));
    var a := if ctx.up.In? then StyledAfter(ctx.up.up, ctx.up.right) else [];
    if right == [] {
      assert rest == ctx.right;
      NothingStyled(Inherited(ctx));
    } else {
      StyledConcat([Span(ctx.style, right)], ctx.right, outer);
      StyledOne(Span(ctx.style, right), outer);
      assert (Styled(right, Inherited(ctx)) + Styled(ctx.right, outer)) + a
          == Styled(right, Inherited(ctx)) + (Styled(ctx.right, outer) + a);
    }
  }

  lemma NothingStyled(styles: seq<string>)
    ensures Styled([], styles) == []
  {
  }

  // ---------------------------------------------------------------- adjusting

  /** Takes the first piece, up to a semicolon, off an attribute. */
  method TakePiece(attr: string) returns (more: bool, s: string, rest: string)
    ensures !more ==> Props(attr) == []
    ensures more ==> |rest| < |attr| && Props(attr) == (if s == [] then [] else [s]) + Props(rest)
  {
    hide Semicolon;
    var parentStyle := Trim(attr);
    if parentStyle == [] { return false, "", ""; }
    var semi := Semicolon(parentStyle);
    if semi < |parentStyle| {
      return true, Trim(parentStyle[..semi]), parentStyle[semi + 1..];
    }
    assert Props("") == [];
    return true, parentStyle, "";
  }

  /** The inner loop: takes the attribute apart piece by piece, comparing each with the next style wanted.
      The number of styles matched, or -1. */
  method MatchSpan(attr: string, current: seq<string>, kept: nat) returns (k: int)
    requires kept <= |current|
    ensures k == if Props(attr) <= current[kept..] then |Props(attr)| else -1
  {
    hide Props;
    k := 0;
    var parentStyle, more, s := attr, true, "";
    ghost var done: seq<string> := [];
    assert [] + Props(attr) == Props(attr);
    while true
      invariant 0 <= k && kept + k <= |current| && |done| == k && done == current[kept..kept + k]
      invariant Props(attr) == done + Props(parentStyle)
      decreases |parentStyle|
    {
      ghost var was := Props(parentStyle);
      more, s, parentStyle := TakePiece(parentStyle);
      if !more { assert was == []; break; }
      if s == [] { assert was == Props(parentStyle); continue; }
      assert done + ([s] + Props(parentStyle)) == (done + [s]) + Props(parentStyle);
      if kept + k < |current| && s == current[kept + k] {
        assert current[kept..kept + k + 1] == current[kept..kept + k] + [s];
        k, done := k + 1, done + [s];
      } else {
        NoMatch(Props(attr), done, s, Props(parentStyle), current, kept, k);
        return -1;
      }
    }
    assert done + [] == done;
    assert current[kept..][..k] == done;
  }

  lemma NoMatch(all: seq<string>, done: seq<string>, s: string, rest: seq<string>, current: seq<string>, kept: nat, k: nat)
    requires all == (done + [s]) + rest && |done| == k && kept + k <= |current|
    requires kept + k == |current| || s != current[kept + k]
    ensures !(all <= current[kept..])
  {
    assert all[k] == s;
    if kept + k < |current| { assert current[kept..][k] == current[kept + k]; }
  }

  function Reverse(s: seq<string>): (r: seq<string>)
    ensures |r| == |s|
    ensures forall i :: 0 <= i < |s| ==> r[i] == s[|s| - 1 - i]
  {
    if s == [] then [] else [s[|s| - 1]] + Reverse(s[..|s| - 1])
  }

  /** Where the spans the walk has not matched begin, and how many styles the matched ones give. */
  function Match(ctx: Ctx, current: seq<string>): (r: (nat, nat))
    ensures r.0 <= |current| && r.1 <= |StyledOnly(Attrs(ctx))| <= |Attrs(ctx)|
  {
    StyledOnlyShorter(Attrs(ctx));
    Kept(StyledOnly(Attrs(ctx)), current, 0, 0)
  }

  /** The number of spans to leave. */
  function Pops(ctx: Ctx, current: seq<string>): (n: nat)
    ensures n <= |Attrs(ctx)|
  {
    |StyledOnly(Attrs(ctx))| - Match(ctx, current).1
  }

  lemma {:induction false} StyledOnlyShorter(attrs: seq<string>)
    ensures |StyledOnly(attrs)| <= |attrs|
  {
    if attrs != [] { StyledOnlyShorter(attrs[..|attrs| - 1]); }
  }

  /** The spans that stay. */
  function KeptSpans(ctx: Ctx, current: seq<string>): seq<string> { Attrs(ctx)[..|Attrs(ctx)| - Pops(ctx, current)] }

  /** The span for the styles still missing. */
  function NewSpans(styles: seq<string>): seq<string> { if styles == [] then [] else [Join(styles)] }

  method ParentStyles(ctx: Ctx) returns (parentStyles: seq<string>)
    ensures Reverse(parentStyles) == StyledOnly(Attrs(ctx))
  {
    hide StyledOnly, Reverse, Attrs;
    parentStyles := [];
    var n := ctx;
    NoParents(ctx, []);
    while n.In?
      invariant StyledOnly(Attrs(n)) + Reverse(parentStyles) == StyledOnly(Attrs(ctx))
      decreases n
    {
      OneParent(n, parentStyles);
      if n.style != "" {
        parentStyles := parentStyles + [n.style];
      }
      n := n.up;
    }
    NoParents(n, parentStyles);
  }

  lemma NoParents(ctx: Ctx, styles: seq<string>)
    ensures styles == [] ==> StyledOnly(Attrs(ctx)) + Reverse(styles) == StyledOnly(Attrs(ctx))
    ensures ctx.Home? ==> StyledOnly(Attrs(ctx)) + Reverse(styles) == Reverse(styles)
  {
  }

  lemma OneParent(ctx: Ctx, styles: seq<string>)
    requires ctx.In?
    ensures var more := if ctx.style != "" then styles + [ctx.style] else styles;
      StyledOnly(Attrs(ctx.up)) + Reverse(more) == StyledOnly(Attrs(ctx)) + Reverse(styles)
  {
    hide Reverse;
    var outer := StyledOnly(Attrs(ctx.up));
    assert Attrs(ctx)[..|Attrs(ctx)| - 1] == Attrs(ctx.up);
    if ctx.style != "" {
      ReverseSnoc(styles, ctx.style);
      assert (outer + [ctx.style]) + Reverse(styles) == outer + ([ctx.style] + Reverse(styles));
    } else {
      assert outer + [] == outer;
    }
  }

  lemma ReverseSnoc(styles: seq<string>, s: string)
    ensures Reverse(styles + [s]) == [s] + Reverse(styles)
  {
    assert (styles + [s])[..|styles|] == styles;
  }

  /** The outer loop: from the outermost styled span inwards, as long as spans match the styles wanted. */
  method KeepStyles(parentStyles: seq<string>, ghost spans: seq<string>, current: seq<string>)
    returns (kept: nat, popCount: nat)
    requires Reverse(parentStyles) == spans
    ensures popCount <= |spans| && (kept, |spans| - popCount) == Kept(spans, current, 0, 0)
  {
    hide Props, Reverse;
    var j := |parentStyles|;
    kept := 0;
    while j > 0
      invariant 0 <= j <= |parentStyles| == |spans| && kept <= |current|
      invariant Kept(spans, current, kept, |spans| - j) == Kept(spans, current, 0, 0)
      decreases j
    {
      if kept == |current| { break; }
      assert spans[|spans| - j] == parentStyles[j - 1];
      var k := MatchSpan(parentStyles[j - 1], current, kept);
      if k < 0 { break; }
      kept, j := kept + k, j - 1;
    }
    popCount := j;
  }

  /** Leaves the n innermost spans. */
  method PopStyles(t: Terminal, n: nat)
    requires t.Valid() && n <= |Attrs(t.ctx)|
    modifies t`ctx, t`left, t`right
    ensures t.Valid() && t.Cursor() == old(t.Cursor())
    ensures StyledBefore(t.ctx, t.left) == old(StyledBefore(t.ctx, t.left))
    ensures StyledAfter(t.ctx, t.right) == old(StyledAfter(t.ctx, t.right))
    ensures Attrs(t.ctx) == old(Attrs(t.ctx))[..old(|Attrs(t.ctx)|) - n]
    ensures n == 0 ==> t.ctx == old(t.ctx) && t.left == old(t.left) && t.right == old(t.right)
  {
    hide StyledBefore, StyledAfter, Terminal.Valid, Terminal.Cursor;
    ghost var attrs := Attrs(t.ctx);
    assert attrs[..|attrs|] == attrs;
    var popCount := n;
    while popCount > 0
      invariant 0 <= popCount <= n && t.Valid() && t.Cursor() == old(t.Cursor())
      invariant Attrs(t.ctx) == attrs[..|attrs| - (n - popCount)]
      invariant popCount == n ==> t.ctx == old(t.ctx) && t.left == old(t.left) && t.right == old(t.right)
      invariant StyledBefore(t.ctx, t.left) == old(StyledBefore(t.ctx, t.left))
      invariant StyledAfter(t.ctx, t.right) == old(StyledAfter(t.ctx, t.right))
      decreases popCount
    {
      assert Attrs(t.ctx.up) == Attrs(t.ctx)[..|Attrs(t.ctx)| - 1];
      PopStyle(t);
      popCount := popCount - 1;
    }
  }

  /** `adjustStyle`: keeps the outermost spans that match, leaves as many spans as there are styled ones that
      do not, and enters one span for the styles still missing.  No text changes its styles. */
  method Adjust(t: Terminal, current: seq<string>)
    requires t.Valid() && forall s :: s in current ==> CleanStyle(s)
    modifies t`ctx, t`left, t`right
    ensures t.Valid() && t.Cursor() == old(t.Cursor())
    ensures StyledBefore(t.ctx, t.left) == old(StyledBefore(t.ctx, t.left))
    ensures StyledAfter(t.ctx, t.right) == old(StyledAfter(t.ctx, t.right))
    ensures Inherited(t.ctx) == Adjusted(old(t.ctx), current)
    ensures Attrs(t.ctx) == old(KeptSpans(t.ctx, current)) + NewSpans(current[Match(old(t.ctx), current).0..])
    ensures exists m :: AdjustedBy(old(Attrs(t.ctx)), current, m, Attrs(t.ctx))
    ensures old(AllStyled(Attrs(t.ctx)) && Inherited(t.ctx) == current) ==>
      var same := t.ctx == old(t.ctx) && t.left == old(t.left) && t.right == old(t.right);
      same <==> old(t.ctx.In? ==> Props(t.ctx.style) != [])
  {
    hide StyledBefore, StyledAfter, Terminal.Valid, Terminal.Cursor, Kept, Reverse, AllProps, Attrs;
    hide Inherited, StyledOnly, Join, Props, CleanStyle, AdjustedBy, AllStyled;
    ghost var ctx0 := t.ctx;
    MatchAdjusts(ctx0, current);
    if AllStyled(Attrs(ctx0)) && Inherited(ctx0) == current { UnchangedIff(ctx0, current); }
    var parentStyles := ParentStyles(t.ctx);
    var kept, popCount := KeepStyles(parentStyles, StyledOnly(Attrs(t.ctx)), current);
    StyledOnlyShorter(Attrs(ctx0));
    PopStyles(t, popCount);
    assert Attrs(t.ctx) == KeptSpans(ctx0, current);
    InheritedIsAllProps(t.ctx);
    if kept < |current| {
      EnterSpan(t, current[kept..]);
    } else {
      NothingMissing(t.ctx, current, kept);
    }
  }

  /** What adjusting makes of the enclosing spans, told by the spans alone: m of the styled ones are kept, as
      many spans as there are other styled ones are left, and one new span gives the styles still missing. */
  ghost predicate AdjustedBy(attrs: seq<string>, current: seq<string>, m: nat, attrs': seq<string>) {
    var spans := StyledOnly(attrs);
    && Matches(spans, current, m) && |spans| - m <= |attrs|
    && attrs' == attrs[..|attrs| - (|spans| - m)] + NewSpans(current[|AllProps(spans[..m])|..])
  }

  lemma MatchAdjusts(ctx: Ctx, current: seq<string>)
    ensures var (kept, m) := Match(ctx, current);
      AdjustedBy(Attrs(ctx), current, m, KeptSpans(ctx, current) + NewSpans(current[kept..]))
  {
    hide Kept, AllProps, Attrs, StyledOnly, NewSpans;
    var spans := StyledOnly(Attrs(ctx));
    NothingGiven();
    StyledOnlyShorter(Attrs(ctx));
    assert spans[..0] == [] && current[..0] == [];
    KeptMatches(spans, current, 0, 0);
  }

  lemma UnchangedIff(ctx: Ctx, current: seq<string>)
    requires AllStyled(Attrs(ctx)) && Inherited(ctx) == current
    ensures Match(ctx, current).0 == |current|
    ensures Pops(ctx, current) == 0 <==> (ctx.In? ==> Props(ctx.style) != [])
  {
    hide Kept, AllProps, StyledOnly, Props;
    var attrs := Attrs(ctx);
    AllStyledOnly(attrs);
    InheritedIsAllProps(ctx);
    NothingGiven();
    assert attrs[..0] == [] && current[..0] == [];
    KeptMatches(attrs, current, 0, 0);
    KeptWhenCurrent(attrs, Match(ctx, current).1);
  }

  lemma NothingMissing(ctx: Ctx, current: seq<string>, kept: nat)
    requires kept == |current|
    ensures Inherited(ctx) == Inherited(ctx) + current[kept..] && Attrs(ctx) == Attrs(ctx) + NewSpans(current[kept..])
  {
  }

  /** Puts an empty span for the styles around the input line. */
  method EnterSpan(t: Terminal, styles: seq<string>)
    requires t.Valid() && styles != [] && forall s :: s in styles ==> CleanStyle(s)
    modifies t`ctx, t`left, t`right
    ensures t.Valid() && t.Cursor() == old(t.Cursor())
    ensures StyledBefore(t.ctx, t.left) == old(StyledBefore(t.ctx, t.left))
    ensures StyledAfter(t.ctx, t.right) == old(StyledAfter(t.ctx, t.right))
    ensures Inherited(t.ctx) == old(Inherited(t.ctx)) + styles
    ensures Attrs(t.ctx) == old(Attrs(t.ctx)) + [Join(styles)]
  {
    PropsOfJoin(styles);
    ghost var ctx, b, a := t.ctx, Before(t.ctx, t.left), After(t.ctx, t.right);
    t.ctx := In(Join(styles), t.left, t.right, t.ctx);
    t.left, t.right := [], [];
    PlaceAfterConcat(ORIGIN, b, [Open(Join(styles))]);
    NothingStyled(Inherited(t.ctx));
    assert Before(t.ctx, t.left) == b + [Open(Join(styles))] && After(t.ctx, t.right) == [Close] + a;
    forall i | i in t.Doc() ensures PlainItem(i) && i != Here {
      if i in b || i in a { assert i in b + a; }
    }
  }

  /** The styles around the cursor after `adjustStyle`. */
  function Adjusted(ctx: Ctx, current: seq<string>): seq<string> {
    AllProps(KeptSpans(ctx, current)) + current[Match(ctx, current).0..]
  }

  // ---------------------------------------------------------------- when the styles come out right

  lemma OneMoreSpan(spans: seq<string>, i: nat)
    requires i < |spans|
    ensures AllProps(spans[..i + 1]) == AllProps(spans[..i]) + Props(spans[i])
  {
    hide Props;
    assert spans[..i + 1][..i] == spans[..i];
  }

  lemma TakeMore(current: seq<string>, kept: nat, ps: seq<string>)
    requires kept <= |current| && ps <= current[kept..]
    ensures kept + |ps| <= |current| && current[..kept + |ps|] == current[..kept] + ps
  {
    assert ps == current[kept..][..|ps|];
  }

  /** Spans without a style attribute give nothing. */
  lemma {:induction false} OnlyStyledGive(attrs: seq<string>)
    ensures AllProps(attrs) == AllProps(StyledOnly(attrs))
  {
    if attrs != [] {
      var init, last := attrs[..|attrs| - 1], attrs[|attrs| - 1];
      OnlyStyledGive(init);
      if last != "" {
        var spans := StyledOnly(init) + [last];
        OneMoreSpan(spans, |StyledOnly(init)|);
        assert spans[..|StyledOnly(init)|] == StyledOnly(init) && spans[..|spans|] == spans;
      } else {
        assert StyledOnly(init) + [] == StyledOnly(init) && AllProps(init) + [] == AllProps(init);
      }
    }
  }

  predicate AllStyled(attrs: seq<string>) { forall i :: 0 <= i < |attrs| ==> attrs[i] != "" }

  /** The styled spans of an outer part are the first of all; the inner part adds as many as it has spans
      exactly if each of them is styled. */
  lemma {:induction false} StyledOfOuter(attrs: seq<string>, n: nat)
    requires n <= |attrs|
    ensures var outer, all := StyledOnly(attrs[..n]), StyledOnly(attrs);
      && outer <= all && |all| <= |outer| + |attrs| - n
      && (|all| == |outer| + |attrs| - n <==> AllStyled(attrs[n..]))
    decreases |attrs|
  {
    if n == |attrs| {
      assert attrs[..n] == attrs;
    } else {
      var init, last := attrs[..|attrs| - 1], attrs[|attrs| - 1];
      StyledOfOuter(init, n);
      assert init[..n] == attrs[..n];
      assert attrs[n..] == init[n..] + [last];
    }
  }

  /** Every span that is styled gives at least one property. */
  predicate Telling(attrs: seq<string>) { forall i :: 0 <= i < |attrs| && attrs[i] != "" ==> Props(attrs[i]) != [] }

  lemma {:induction false} StyledTell(attrs: seq<string>)
    requires Telling(attrs)
    ensures forall i :: 0 <= i < |StyledOnly(attrs)| ==> Props(StyledOnly(attrs)[i]) != []
  {
    hide Props;
    if attrs != [] { StyledTell(attrs[..|attrs| - 1]); }
  }

  /** The spans from m on give no property. */
  predicate Silent(spans: seq<string>, m: nat) { forall i :: m <= i < |spans| ==> Props(spans[i]) == [] }

  lemma {:induction false} SilentIff(spans: seq<string>, m: nat)
    requires m <= |spans|
    ensures |AllProps(spans[..m])| <= |AllProps(spans)|
    ensures |AllProps(spans[..m])| == |AllProps(spans)| <==> Silent(spans, m)
    ensures Silent(spans, m) ==> AllProps(spans) == AllProps(spans[..m])
    decreases |spans|
  {
    hide Props;
    if m == |spans| {
      assert spans[..m] == spans;
    } else {
      var init := spans[..|spans| - 1];
      SilentIff(init, m);
      assert init[..m] == spans[..m];
      assert AllProps(spans) == AllProps(init) + Props(spans[|spans| - 1]);
      assert Silent(spans, m) <==> Silent(init, m) && Props(spans[|spans| - 1]) == [];
    }
  }

  /** The styles in force after `adjustStyle` are the current ones exactly if the styled spans that stay
      beyond the matching ones give nothing. */
  lemma AdjustedIff(ctx: Ctx, current: seq<string>)
    ensures Match(ctx, current).1 <= |StyledOnly(KeptSpans(ctx, current))|
    ensures Adjusted(ctx, current) == current <==> Silent(StyledOnly(KeptSpans(ctx, current)), Match(ctx, current).1)
  {
    hide Kept, AllProps, StyledOnly, Props, Attrs, Silent, AllStyled;
    var attrs := Attrs(ctx);
    var spans, n := StyledOnly(attrs), |attrs| - Pops(ctx, current);
    var (kept, m) := Match(ctx, current);
    assert AllProps([]) == [] by { NothingGiven(); }
    assert spans[..0] == [] && current[..0] == [];
    KeptMatches(spans, current, 0, 0);
    OnlyStyledGive(attrs[..n]);
    StyledOfOuter(attrs, n);
    var stay := StyledOnly(attrs[..n]);
    SilentIff(stay, m);
    assert stay[..m] == spans[..m];
    assert current == current[..kept] + current[kept..];
    if AllProps(stay) + current[kept..] == current {
      assert |AllProps(stay)| == kept;
    }
  }

  lemma NothingGiven()
    ensures AllProps([]) == []
  {
  }

  /** They are if all the spans it leaves carry a style, and only then when every styled span gives a property:
      `adjustStyle` counts the styled spans that do not match, but leaves that many spans of any kind. */
  lemma AdjustedIsCurrent(ctx: Ctx, current: seq<string>)
    ensures AllStyled(Attrs(ctx)[|Attrs(ctx)| - Pops(ctx, current)..]) ==> Adjusted(ctx, current) == current
    ensures Telling(Attrs(ctx)) ==>
      (Adjusted(ctx, current) == current <==> AllStyled(Attrs(ctx)[|Attrs(ctx)| - Pops(ctx, current)..]))
  {
    hide Kept, AllProps, StyledOnly, Props, Attrs, Telling, AllStyled, Adjusted;
    var attrs := Attrs(ctx);
    var n := |attrs| - Pops(ctx, current);
    var stay, m := StyledOnly(attrs[..n]), Match(ctx, current).1;
    AdjustedIff(ctx, current);
    StyledOfOuter(attrs, n);
    if Telling(attrs) {
      StyledTell(attrs);
      SilentOnlyIfNone(StyledOnly(attrs), stay, m);
    }
  }

  lemma SilentOnlyIfNone(spans: seq<string>, stay: seq<string>, m: nat)
    requires stay <= spans && forall i :: 0 <= i < |spans| ==> Props(spans[i]) != []
    ensures Silent(stay, m) <==> |stay| <= m
  {
    hide Props;
    if m < |stay| { assert stay[m] == spans[m]; }
  }

  /** In particular they always are when every enclosing span is styled. */
  lemma AdjustedAmongStyledSpans(ctx: Ctx, current: seq<string>)
    requires AllStyled(Attrs(ctx))
    ensures Adjusted(ctx, current) == current
  {
    hide Kept, AllProps, StyledOnly, Props, Attrs, Telling, Pops, Adjusted;
    AdjustedIsCurrent(ctx, current);
  }

  /** The spans around the cursor after `adjustStyle` are again styled, and give properties if they did. */
  lemma StaysStyled(attrs: seq<string>, n: nat, styles: seq<string>)
    requires n <= |attrs| && forall s :: s in styles ==> CleanStyle(s)
    ensures AllStyled(attrs) ==> AllStyled(attrs[..n] + NewSpans(styles))
    ensures Telling(attrs) ==> Telling(attrs[..n] + NewSpans(styles))
  {
    hide Props, CleanStyle;
    if styles != [] {
      PropsOfJoin(styles);
      JoinEnds(styles);
    }
  }

  /** An unstyled span inside a red one: turning all styles off leaves the unstyled span only. */
  lemma UnstyledSpanKeepsRed()
    ensures var ctx := In("", [], [], In("color: red", [], [], Home));
      Adjusted(ctx, []) == ["color: red"]
  {
    var red, attrs := "color: red", ["color: red", ""];
    var ctx := In("", [], [], In(red, [], [], Home));
    assert Attrs(ctx.up.up) == [] && Attrs(ctx.up) == [red] && Attrs(ctx) == attrs;
    assert attrs[..1] == [red] && [red][..0] == [];
    assert StyledOnly([]) == [] && StyledOnly([red]) == [red] && StyledOnly(attrs) == [red];
    assert Match(ctx, []) == (0, 0) && Pops(ctx, []) == 1;
    PropsOfJoin([red]);
    assert AllProps([]) == [] && AllProps([red]) == Props(red) == [red];
  }

  // ---------------------------------------------------------------- together with SGR

  /** A default color as a style value holds it. */
  predicate CleanValue(v: string) { v != [] && !Blank(v[|v| - 1]) && ';' !in v }

  predicate CleanChange(c: S.Change) {
    c.Set? && c.value.Some? ==> c.name != [] && !Blank(c.name[0]) && ';' !in c.name && CleanValue(c.value.value)
  }

  lemma CleanEntry(name: string, value: string)
    requires name != [] && !Blank(name[0]) && ';' !in name && CleanValue(value)
    ensures CleanStyle(S.Entry(name, value))
  {
    var e := S.Entry(name, value);
    forall i | 0 <= i < |e| ensures e[i] != ';' {
      if i < |name| { assert e[i] == name[i]; }
      else if i > |name| { assert e[i] == value[i - |name| - 1]; }
    }
  }

  lemma {:induction false} InForceIsClean(changes: seq<S.Change>)
    requires forall c :: c in changes ==> CleanChange(c)
    ensures forall s :: s in S.InForce(changes) ==> CleanStyle(s)
  {
    hide CleanStyle, CleanChange, S.Undone, S.Entry;
    if changes != [] {
      InForceIsClean(changes[1..]);
      var c := changes[0];
      assert CleanChange(c);
      if c.Set? && c.value.Some? { CleanLasting(c); }
    }
  }

  lemma CleanLasting(c: S.Change)
    requires c.Set? && c.value.Some? && CleanChange(c)
    ensures CleanStyle(S.Entry(c.name, c.value.value))
  {
    CleanEntry(c.name, c.value.value);
  }

  lemma SetIsClean(name: string, value: Option<string>)
    requires name in [S.FONT_WEIGHT, S.TEXT_DECORATION, S.COLOR, S.BACKGROUND_COLOR]
    requires value.Some? ==> CleanValue(value.value)
    ensures CleanChange(S.Set(name, value))
  {
  }

  lemma ColorsAreClean()
    ensures forall i :: 0 <= i < 8 ==> CleanValue(S.COLORS[i])
    ensures CleanValue("bold") && CleanValue("underline")
  {
  }

  lemma EffectIsClean(code: int, foreground: string, background: string)
    requires CleanValue(foreground) && CleanValue(background)
    ensures forall c :: c in S.Effect(code, foreground, background) ==> CleanChange(c)
  {
    hide CleanValue;
    ColorsAreClean();
    forall c | c in S.Effect(code, foreground, background) ensures CleanChange(c) {
      if c.Set? { SetIsClean(c.name, c.value); }
    }
  }

  lemma {:induction false} EffectsAreClean(codes: seq<int>, foreground: string, background: string)
    requires CleanValue(foreground) && CleanValue(background)
    ensures forall c :: c in S.Effects(codes, foreground, background) ==> CleanChange(c)
  {
    hide CleanChange, CleanValue, S.Effect;
    if codes != [] {
      EffectsAreClean(codes[..|codes| - 1], foreground, background);
      EffectIsClean(codes[|codes| - 1], foreground, background);
    }
  }

  /** Any run of SGR codes, then adjusting: the text to come gets each property as the codes last set it. */
  method AdjustAfterSgr(t: Terminal, ghost codes: seq<int>, styles: S.StyleList)
    requires t.Valid() && AllStyled(Attrs(t.ctx))
    requires styles.Valid() && CleanValue(styles.defaultForegroundColor) && CleanValue(styles.defaultBackgroundColor)
    requires styles.changes == S.Effects(codes, styles.defaultForegroundColor, styles.defaultBackgroundColor)
    modifies t`ctx, t`left, t`right
    ensures t.Valid() && t.Cursor() == old(t.Cursor())
    ensures StyledBefore(t.ctx, t.left) == old(StyledBefore(t.ctx, t.left))
    ensures StyledAfter(t.ctx, t.right) == old(StyledAfter(t.ctx, t.right))
    ensures Inherited(t.ctx) == S.InForce(styles.changes)
    ensures AllStyled(Attrs(t.ctx)) && (old(Telling(Attrs(t.ctx))) ==> Telling(Attrs(t.ctx)))
  {
    EffectsAreClean(codes, styles.defaultForegroundColor, styles.defaultBackgroundColor);
    InForceIsClean(styles.changes);
    AdjustedAmongStyledSpans(t.ctx, styles.currentStyles);
    ghost var attrs, n := Attrs(t.ctx), |Attrs(t.ctx)| - Pops(t.ctx, styles.currentStyles);
    StaysStyled(attrs, n, styles.currentStyles[Match(t.ctx, styles.currentStyles).0..]);
    Adjust(t, styles.currentStyles);
  }
}
