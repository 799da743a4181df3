/** Text styles: the list of current styles that SGR sequences (section 8.3.117 of ECMA-48) maintain. */
module Styles {
  import opened Wrappers

  // ---------------------------------------------------------------- the list of current styles

  /** One change: all styles off, or a property set, or reset to its default (None). */
  datatype Change = Clear | Set(name: string, value: Option<string>)

  /** A property name with its colon. */
  predicate PropName(n: string) { |n| > 0 && n[|n| - 1] == ':' && forall i :: 0 <= i < |n| - 1 ==> n[i] != ':' }

  function Entry(name: string, value: string): string { name + " " + value }

  /** `startsWith`. */
  predicate StartsWith(s: string, name: string) { name <= s }

  lemma FirstColon(name: string, s: string)
    requires PropName(name) && name <= s
    ensures s[|name| - 1] == ':' && forall i :: 0 <= i < |name| - 1 ==> s[i] != ':'
  {
  }

  /** Names end in their only colon, so an entry starts with its own name and no other. */
  lemma OneNamePerEntry(name: string, other: string, value: string)
    requires PropName(name) && PropName(other)
    ensures StartsWith(Entry(other, value), name) <==> name == other
  {
    var e := Entry(other, value);
    assert other <= e;
    FirstColon(other, e);
    if StartsWith(e, name) {
      FirstColon(name, e);
      assert |name| == |other|;
      assert name == e[..|name|] == other;
    }
  }

  /** The change takes the property back or sets it anew. */
  predicate Overrides(c: Change, name: string) { c.Clear? || c.name == name }

  predicate Undone(later: seq<Change>, name: string) { exists k :: 0 <= k < |later| && Overrides(later[k], name) }

  /** What is in force after the changes: each property as it was last set, if nothing undid it since, in
      the order of those last settings. */
  function InForce(changes: seq<Change>): seq<string> {
    if changes == [] then [] else Lasting(changes[0], changes[1..]) + InForce(changes[1..])
  }

  /** The entry a change leaves, given the changes after it. */
  function Lasting(c: Change, later: seq<Change>): seq<string> {
    if c.Set? && c.value.Some? && !Undone(later, c.name) then [Entry(c.name, c.value.value)] else []
  }

  predicate Named(c: Change) { c.Set? ==> PropName(c.name) }

  /** The entries that do not belong to a property. */
  function Without(styles: seq<string>, name: string): seq<string> {
    if styles == [] then [] else
      (if StartsWith(styles[0], name) then [] else [styles[0]]) + Without(styles[1..], name)
  }

  lemma WithoutAt(done: seq<string>, rest: seq<string>, name: string)
    ensures done == [] ==> rest[0..] == rest && done + Without(rest, name) == Without(rest, name)
    ensures rest == [] ==> done + Without(rest, name) == done && done[..|done|] == done
  {
  }

  lemma WithoutStep(styles: seq<string>, i: nat, name: string)
    requires i < |styles|
    ensures StartsWith(styles[i], name) ==>
      var cut := styles[..i] + styles[i + 1..];
      cut[..i] == styles[..i] && Without(styles[i..], name) == Without(cut[i..], name)
    ensures !StartsWith(styles[i], name) ==>
      styles[..i] + Without(styles[i..], name) == styles[..i + 1] + Without(styles[i + 1..], name)
  {
    assert styles[i..][0] == styles[i] && styles[i..][1..] == styles[i + 1..];
    if StartsWith(styles[i], name) {
      var cut := styles[..i] + styles[i + 1..];
      assert cut[i..] == styles[i + 1..];
    } else {
      assert styles[..i + 1] == styles[..i] + [styles[i]];
    }
  }

  lemma WithoutConcat(a: seq<string>, b: seq<string>, name: string)
    ensures Without(a + b, name) == Without(a, name) + Without(b, name)
  {
    if a == [] {
      assert a + b == b;
    } else {
      assert (a + b)[1..] == a[1..] + b;
      WithoutConcat(a[1..], b, name);
    }
  }

  /** A further change keeps an entry, unless it overrides it. */
  lemma LastingSnoc(d: Change, later: seq<Change>, c: Change)
    requires Named(d) && Named(c)
    ensures Lasting(d, later + [c]) == if c.Clear? then [] else Without(Lasting(d, later), c.name)
  {
    var all := later + [c];
    if d.Set? {
      assert Undone(all, d.name) <==> Undone(later, d.name) || Overrides(c, d.name) by {
        assert all[|later|] == c && all[..|later|] == later;
        if k :| 0 <= k < |later| && Overrides(later[k], d.name) { assert all[k] == later[k]; }
      }
      if c.Set? && d.value.Some? { OneNamePerEntry(c.name, d.name, d.value.value); }
    }
  }

  /** One more change takes its property out of the list and, if it sets a value, adds that at the end. */
  lemma {:induction false} InForceSnoc(changes: seq<Change>, c: Change)
    requires Named(c) && forall d :: d in changes ==> Named(d)
    ensures InForce(changes + [c]) ==
      if c.Clear? then []
      else Without(InForce(changes), c.name) + if c.value.Some? then [Entry(c.name, c.value.value)] else []
  {
    hide Undone;
    if changes == [] {
      assert changes + [c] == [c];
      assert !Undone([], if c.Set? then c.name else "") by { NothingUndone(if c.Set? then c.name else ""); }
    } else {
      var d, later := changes[0], changes[1..];
      assert (changes + [c])[1..] == later + [c];
      InForceSnoc(later, c);
      LastingSnoc(d, later, c);
      if c.Set? { WithoutConcat(Lasting(d, later), InForce(later), c.name); }
    }
  }

  lemma NothingUndone(name: string)
    ensures !Undone([], name)
  {
  }

  lemma UndoneLater(changes: seq<Change>, name: string)
    requires changes != []
    ensures Undone(changes[1..], name) ==> Undone(changes, name)
  {
    if k :| 0 <= k < |changes[1..]| && Overrides(changes[1..][k], name) {
      assert Overrides(changes[k + 1], name);
    }
  }

  lemma {:induction false} NoEntryUnlessSet(changes: seq<Change>, name: string)
    requires PropName(name) && (forall d :: d in changes ==> Named(d)) && !Undone(changes, name)
    ensures forall s :: s in InForce(changes) ==> !StartsWith(s, name)
  {
    if changes != [] {
      var d, later := changes[0], changes[1..];
      assert d in changes && !Overrides(changes[0], name);
      UndoneLater(changes, name);
      NoEntryUnlessSet(later, name);
      if d.Set? && d.value.Some? { OneNamePerEntry(name, d.name, d.value.value); }
    }
  }

  /** A property has at most one entry. */
  lemma {:induction false} OneEntryPerProperty(changes: seq<Change>, name: string, i: nat, j: nat)
    requires PropName(name) && forall d :: d in changes ==> Named(d)
    requires i < j < |InForce(changes)|
    ensures !(StartsWith(InForce(changes)[i], name) && StartsWith(InForce(changes)[j], name))
  {
    hide Undone;
    var d, later := changes[0], changes[1..];
    assert d in changes;
    var first := Lasting(d, later);
    if |first| <= i {
      OneEntryPerProperty(later, name, i - |first|, j - |first|);
    } else {
      OneNamePerEntry(name, d.name, d.value.value);
      if name == d.name {
        NoEntryUnlessSet(later, name);
        assert InForce(changes)[j] == InForce(later)[j - 1];
      }
    }
  }

  // ---------------------------------------------------------------- SGR

  const COLORS := ["black", "red", "green", "yellow", "blue", "magenta", "cyan", "white"]

  const FONT_WEIGHT := "font-weight:"
  const TEXT_DECORATION := "text-decoration:"
  const COLOR := "color:"
  const BACKGROUND_COLOR := "background-color:"

  lemma NamesEndInColons()
    ensures PropName(FONT_WEIGHT) && PropName(TEXT_DECORATION) && PropName(COLOR) && PropName(BACKGROUND_COLOR)
  {
  }

  /** The changes of one SGR code; codes the terminal does not know change nothing. */
  function Effect(code: int, foreground: string, background: string): seq<Change> {
    if code <= 0 then [Clear]
    else if code == 1 then [Set(FONT_WEIGHT, Some("bold"))]
    else if code == 22 then [Set(FONT_WEIGHT, None)]
    else if code == 4 then [Set(TEXT_DECORATION, Some("underline"))]
    else if code == 24 then [Set(TEXT_DECORATION, None)]
    else if code == 7 then [Set(COLOR, Some(background)), Set(BACKGROUND_COLOR, Some(foreground))]
    else if code == 27 then [Set(COLOR, None), Set(BACKGROUND_COLOR, None)]
    else if 30 <= code <= 37 then [Set(COLOR, Some(COLORS[code - 30]))]
    else if code == 39 then [Set(COLOR, None)]
    else if 40 <= code <= 47 then [Set(BACKGROUND_COLOR, Some(COLORS[code - 40]))]
    else if code == 49 then [Set(BACKGROUND_COLOR, None)]
    else []
  }

  /** The changes of a sequence of codes. */
  function Effects(codes: seq<int>, foreground: string, background: string): seq<Change> {
    if codes == [] then []
    else Effects(codes[..|codes| - 1], foreground, background) + Effect(codes[|codes| - 1], foreground, background)
  }

  class StyleList {
    const defaultForegroundColor: string
    const defaultBackgroundColor: string
    var currentStyles: seq<string>
    var adjustStyleNeeded: bool
    ghost var changes: seq<Change>   // all changes so far

    ghost predicate Valid()
      reads this
    {
      (forall c :: c in changes ==> Named(c)) && currentStyles == InForce(changes)
    }

    constructor (foreground: string, background: string)
      ensures Valid() && changes == []
      ensures defaultForegroundColor == foreground && defaultBackgroundColor == background
    {
      defaultForegroundColor, defaultBackgroundColor := foreground, background;
      currentStyles, adjustStyleNeeded, changes := [], false, [];
    }

    /** `pushSimpleStyle`: removes the property's entries in place and adds the new one at the end. */
    method PushSimpleStyle(name: string, value: Option<string>)
      requires Valid() && PropName(name)
      modifies this`currentStyles, this`changes
      ensures Valid() && changes == old(changes) + [Set(name, value)]
    {
      hide InForce, StartsWith, Without, PropName;
      ghost var was := currentStyles;
      var i := 0;
      WithoutAt([], was, name);
      while i < |currentStyles|
        invariant i <= |currentStyles| && changes == old(changes)
        invariant currentStyles[..i] + Without(currentStyles[i..], name) == Without(was, name)
        decreases |currentStyles| - i
      {
        WithoutStep(currentStyles, i, name);
        if StartsWith(currentStyles[i], name) {
          currentStyles := currentStyles[..i] + currentStyles[i + 1..];
        } else {
          i := i + 1;
        }
      }
      WithoutAt(currentStyles, currentStyles[i..], name);
      InForceSnoc(changes, Set(name, value));
      if value.Some? {
        currentStyles := currentStyles + [Entry(name, value.value)];
      }
      changes := changes + [Set(name, value)];
    }

    /** The `m` case of `handleControlSequence`: the codes of one SGR sequence in turn. */
    method SelectGraphicRendition(codes: seq<int>)
      requires Valid()
      modifies this
      ensures Valid() && adjustStyleNeeded
      ensures changes == old(changes) + Effects(codes, defaultForegroundColor, defaultBackgroundColor)
    {
      assert codes[..|codes|] == codes;
      for i := 0 to |codes|
        invariant Valid()
        invariant changes == old(changes) + Effects(codes[..i], defaultForegroundColor, defaultBackgroundColor)
      {
        assert codes[..i + 1][..i] == codes[..i];
        ApplyCode(codes[i]);
      }
      adjustStyleNeeded := true;
    }

    method ApplyCode(val: int)
      requires Valid()
      modifies this`currentStyles, this`changes
      ensures Valid() && changes == old(changes) + Effect(val, defaultForegroundColor, defaultBackgroundColor)
    {
      hide PropName, InForce;
      NamesEndInColons();
      if val <= 0 {
        InForceSnoc(changes, Clear);
        currentStyles, changes := [], changes + [Clear];
      } else if val == 1 { PushSimpleStyle(FONT_WEIGHT, Some("bold")); }
      else if val == 22 { PushSimpleStyle(FONT_WEIGHT, None); }
      else if val == 4 { PushSimpleStyle(TEXT_DECORATION, Some("underline")); }
      else if val == 24 { PushSimpleStyle(TEXT_DECORATION, None); }
      else if val == 7 {
        PushSimpleStyle(COLOR, Some(defaultBackgroundColor));
        PushSimpleStyle(BACKGROUND_COLOR, Some(defaultForegroundColor));
      } else if val == 27 {
        PushSimpleStyle(COLOR, None);
        PushSimpleStyle(BACKGROUND_COLOR, None);
      } else if 30 <= val <= 37 { PushSimpleStyle(COLOR, Some(COLORS[val - 30])); }
      else if val == 39 { PushSimpleStyle(COLOR, None); }
      else if 40 <= val <= 47 { PushSimpleStyle(BACKGROUND_COLOR, Some(COLORS[val - 40])); }
      else if val == 49 { PushSimpleStyle(BACKGROUND_COLOR, None); }
    }
  }
}
