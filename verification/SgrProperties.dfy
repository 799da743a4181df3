/** Each style property by itself: what the SGR codes of a whole run make of it, told by the last code that
    concerns it (section 8.3.117 of ECMA-48). */
module SgrProperties {
  import opened Wrappers
  import opened Styles

  /** The codes that concern a property: 0 all of them, inverting both colors. */
  predicate Concerns(code: int, name: string) {
    || code <= 0
    || (name == FONT_WEIGHT && code in {1, 22})
    || (name == TEXT_DECORATION && code in {4, 24})
    || (name == COLOR && (30 <= code <= 37 || code in {7, 27, 39}))
    || (name == BACKGROUND_COLOR && (40 <= code <= 47 || code in {7, 27, 49}))
  }

  function Named8(n: int): string
    requires 0 <= n < 8
  {
    match n
    case 0 => "black" case 1 => "red" case 2 => "green" case 3 => "yellow"
    case 4 => "blue" case 5 => "magenta" case 6 => "cyan" case _ => "white"
  }

  /** The value the code gives the property; None for the default. */
  function ValueFor(name: string, code: int, foreground: string, background: string): Option<string> {
    if name == FONT_WEIGHT && code == 1 then Some("bold")
    else if name == TEXT_DECORATION && code == 4 then Some("underline")
    else if name == COLOR && 30 <= code <= 37 then Some(Named8(code % 10))
    else if name == BACKGROUND_COLOR && 40 <= code <= 47 then Some(Named8(code % 10))
    else if name == COLOR && code == 7 then Some(background)
    else if name == BACKGROUND_COLOR && code == 7 then Some(foreground)
    else None
  }

  /** The property has this value in the styles and no other. */
  ghost predicate Has(styles: seq<string>, name: string, value: Option<string>) {
    && (value.Some? ==> Entry(name, value.value) in styles)
    && forall s :: s in styles && StartsWith(s, name) ==> value.Some? && s == Entry(name, value.value)
  }

  lemma {:induction false} WithoutHolds(styles: seq<string>, name: string)
    ensures forall s :: s in Without(styles, name) <==> s in styles && !StartsWith(s, name)
  {
    hide StartsWith;
    if styles != [] {
      WithoutHolds(styles[1..], name);
      assert styles == [styles[0]] + styles[1..];
    }
  }

  /** One more change sets its own property, or all, and leaves the others. */
  lemma ChangeSets(changes: seq<Change>, c: Change, name: string, was: Option<string>)
    requires PropName(name) && Named(c) && forall d :: d in changes ==> Named(d)
    requires Has(InForce(changes), name, was)
    ensures Has(InForce(changes + [c]), name, if c.Clear? then None else if c.name == name then c.value else was)
  {
    hide InForce, PropName, StartsWith, Entry;
    InForceSnoc(changes, c);
    if c.Set? {
      WithoutHolds(InForce(changes), c.name);
      if c.value.Some? { OneNamePerEntry(name, c.name, c.value.value); }
      if was.Some? { OneNamePerEntry(c.name, name, was.value); }
    }
  }

  predicate Property(name: string) { name in [FONT_WEIGHT, TEXT_DECORATION, COLOR, BACKGROUND_COLOR] }

  lemma EffectIsNamed(code: int, foreground: string, background: string)
    ensures forall c :: c in Effect(code, foreground, background) ==> Named(c)
  {
    hide PropName;
    NamesEndInColons();
  }

  lemma CodeSets(changes: seq<Change>, code: int, foreground: string, background: string, name: string, was: Option<string>)
    requires Property(name) && (forall d :: d in changes ==> Named(d)) && Has(InForce(changes), name, was)
    ensures Has(InForce(changes + Effect(code, foreground, background)), name,
      if Concerns(code, name) then ValueFor(name, code, foreground, background) else was)
  {
    hide InForce, PropName, Has, Named;
    NamesEndInColons();
    EffectIsNamed(code, foreground, background);
    var cs := Effect(code, foreground, background);
    if cs == [] {
      assert changes + cs == changes;
    } else {
      assert cs[0] in cs;
      ChangeSets(changes, cs[0], name, was);
      var v := if cs[0].Clear? then None else if cs[0].name == name then cs[0].value else was;
      if |cs| == 1 {
        assert cs == [cs[0]];
      } else {
        assert cs[1] in cs && changes + cs == (changes + [cs[0]]) + [cs[1]];
        ChangeSets(changes + [cs[0]], cs[1], name, v);
      }
    }
  }

  lemma {:induction false} EffectsAreNamed(codes: seq<int>, foreground: string, background: string)
    ensures forall c :: c in Effects(codes, foreground, background) ==> Named(c)
  {
    hide Named, Effect;
    if codes != [] {
      EffectsAreNamed(codes[..|codes| - 1], foreground, background);
      EffectIsNamed(codes[|codes| - 1], foreground, background);
    }
  }

  /** k is the last code that concerns the property; -1 if there is none. */
  ghost predicate LastFor(codes: seq<int>, name: string, k: int) {
    -1 <= k < |codes| && (k >= 0 ==> Concerns(codes[k], name)) && forall j :: k < j < |codes| ==> !Concerns(codes[j], name)
  }

  /** After any codes each property has the value the last code that concerns it gives it, and no entry if there
      was none or it gives the default. */
  lemma {:induction false} EachAsLastSet(codes: seq<int>, foreground: string, background: string, name: string, k: int)
    requires Property(name) && LastFor(codes, name, k)
    ensures Has(InForce(Effects(codes, foreground, background)), name,
      if k < 0 then None else ValueFor(name, codes[k], foreground, background))
    decreases |codes|
  {
    hide InForce, Effect, ValueFor, Concerns, Property, Named;
    if codes == [] {
      NothingSet(name);
    } else {
      var init, last := codes[..|codes| - 1], codes[|codes| - 1];
      EffectsAreNamed(init, foreground, background);
      var j := if k == |codes| - 1 then LastBefore(init, name) else k;
      EachAsLastSet(init, foreground, background, name, j);
      CodeSets(Effects(init, foreground, background), last, foreground, background, name,
        if j < 0 then None else ValueFor(name, init[j], foreground, background));
    }
  }

  lemma NothingSet(name: string)
    ensures Has(InForce([]), name, None)
  {
  }

  ghost function LastBefore(codes: seq<int>, name: string): (k: int)
    ensures LastFor(codes, name, k)
  {
    if codes == [] then -1
    else if Concerns(codes[|codes| - 1], name) then |codes| - 1
    else LastBefore(codes[..|codes| - 1], name)
  }

  /** The four properties as they are written into a style attribute. */
  lemma EntryText()
    ensures Entry(FONT_WEIGHT, "bold") == "font-weight: bold"
    ensures Entry(TEXT_DECORATION, "underline") == "text-decoration: underline"
    ensures Entry(COLOR, "red") == "color: red"
    ensures Entry(BACKGROUND_COLOR, "white") == "background-color: white"
  {
  }
}
