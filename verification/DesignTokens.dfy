/** The hex branch of `normalizeColor` in app/scripts/ds-tokens.js: a canonical form for
    hex colours, measured against what section 5.2 of CSS Color Module Level 4 says such a
    colour denotes. */
module Colors {
  import opened Options

  function Lower(c: char): char {
    if 'A' <= c <= 'Z' then (c as int + 32) as char else c
  }

  predicate IsLowerHex(c: char) {
    '0' <= c <= '9' || 'a' <= c <= 'f'
  }

  predicate IsHex(c: char) {
    IsLowerHex(Lower(c))
  }

  function Lowered(s: string): (t: string)
    ensures |t| == |s|
    ensures forall i :: 0 <= i < |s| ==> t[i] == Lower(s[i])
  {
    seq(|s|, i requires 0 <= i < |s| => Lower(s[i]))
  }

  /** `#` and three to eight hex digits. */
  predicate IsHexText(s: string) {
    4 <= |s| <= 9 && s[0] == '#' && forall i :: 1 <= i < |s| ==> IsHex(s[i])
  }

  function Doubled(d: string): (t: string)
    ensures |t| == 2 * |d|
  {
    if d == [] then [] else [d[0], d[0]] + Doubled(d[1..])
  }

  lemma {:induction false} DoubledAt(d: string, i: nat)
    requires i < |d|
    ensures Doubled(d)[2 * i] == d[i] && Doubled(d)[2 * i + 1] == d[i]
  {
    if i > 0 {
      DoubledAt(d[1..], i - 1);
    }
  }

  /** The canonical form of a trimmed text; `None` where the hex pattern does not apply. */
  function NormalizeHex(raw: string): Option<string> {
    var value := Lowered(raw);
    if !IsHexText(value) then None
    else
      var d := value[1..];
      var full := if |d| == 3 || |d| == 4 then Doubled(d) else d;
      Some(['#'] + if |full| == 8 && full[6] == 'f' && full[7] == 'f' then full[..6] else full)
  }

  // ----- what a hex colour denotes -----

  datatype Rgba = Rgba(r: nat, g: nat, b: nat, a: nat)

  function HexValue(c: char): nat
    requires IsHex(c)
  {
    var l := Lower(c);
    if l <= '9' then l as nat - '0' as nat else l as nat - 'a' as nat + 10
  }

  /** Three, four, six or eight digits; the other lengths are not colours. */
  predicate IsColor(s: string) {
    IsHexText(s) && |s| != 6 && |s| != 8
  }

  function Short(s: string, i: nat): nat
    requires IsColor(s) && 1 <= i < |s|
  {
    HexValue(s[i]) * 17
  }

  function Long(s: string, i: nat): nat
    requires IsColor(s) && 1 <= i && i + 1 < |s|
  {
    HexValue(s[i]) * 16 + HexValue(s[i + 1])
  }

  function Denotes(s: string): Rgba
    requires IsColor(s)
  {
    match |s|
    case 4 => Rgba(Short(s, 1), Short(s, 2), Short(s, 3), 255)
    case 5 => Rgba(Short(s, 1), Short(s, 2), Short(s, 3), Short(s, 4))
    case 7 => Rgba(Long(s, 1), Long(s, 3), Long(s, 5), 255)
    case _ => Rgba(Long(s, 1), Long(s, 3), Long(s, 5), Long(s, 7))
  }

  /** Six digits, or eight of which the last two are not `ff`, all in lower case. */
  ghost predicate IsCanonical(s: string) {
    && IsColor(s) && |s| >= 7
    && (forall i :: 1 <= i < |s| ==> IsLowerHex(s[i]))
    && (|s| == 9 ==> s[7] != 'f' || s[8] != 'f')
  }

  /** The digits before a fully opaque alpha is dropped. */
  ghost function FullDigits(raw: string): (full: string)
    requires IsColor(raw)
    ensures |full| == 6 || |full| == 8
    ensures forall i :: 0 <= i < |full| ==> IsLowerHex(full[i])
  {
    var d := Lowered(raw)[1..];
    assert forall i :: 0 <= i < |d| ==> IsLowerHex(d[i]);
    if |d| == 3 || |d| == 4 then DoubledHex(d); Doubled(d) else d
  }

  lemma {:induction false} DoubledHex(d: string)
    requires forall i :: 0 <= i < |d| ==> IsLowerHex(d[i])
    ensures forall i :: 0 <= i < |Doubled(d)| ==> IsLowerHex(Doubled(d)[i])
  {
    if d != [] {
      DoubledHex(d[1..]);
    }
  }

  lemma LowerKeepsValue(raw: string, i: nat)
    requires IsColor(raw) && 1 <= i < |raw|
    ensures IsHex(Lower(raw[i])) && HexValue(Lower(raw[i])) == HexValue(raw[i])
  {
  }

  lemma ShortDigitsDenote(raw: string, s: string)
    requires IsColor(raw) && |raw| <= 5 && s == ['#'] + FullDigits(raw)
    ensures IsColor(s) && Denotes(s) == Denotes(raw)
  {
    var d := Lowered(raw)[1..];
    DoubledAt(d, 0);
    DoubledAt(d, 1);
    DoubledAt(d, 2);
    assert forall i :: 1 <= i < |s| ==> s[i] == Doubled(d)[i - 1];
    assert s[1] == s[2] == Lower(raw[1]) && s[3] == s[4] == Lower(raw[2]) && s[5] == s[6] == Lower(raw[3]);
    LowerKeepsValue(raw, 1);
    LowerKeepsValue(raw, 2);
    LowerKeepsValue(raw, 3);
    if |raw| == 5 {
      DoubledAt(d, 3);
      assert s[7] == s[8] == Lower(raw[4]);
      LowerKeepsValue(raw, 4);
    }
  }

  lemma LongDigitsDenote(raw: string, s: string)
    requires IsColor(raw) && |raw| >= 7 && s == ['#'] + FullDigits(raw)
    ensures IsColor(s) && Denotes(s) == Denotes(raw)
  {
    assert forall i :: 1 <= i < |s| ==> s[i] == Lower(raw[i]);
    forall i | 1 <= i < |raw|
      ensures IsHex(s[i]) && HexValue(s[i]) == HexValue(raw[i])
    {
      LowerKeepsValue(raw, i);
    }
  }

  lemma NormalForm(raw: string)
    requires IsColor(raw)
    ensures NormalizeHex(raw).Some?
    ensures var n := NormalizeHex(raw).value; IsCanonical(n) && Denotes(n) == Denotes(raw)
  {
    var full := FullDigits(raw);
    var s, n := ['#'] + full, NormalizeHex(raw).value;
    if |raw| <= 5 {
      ShortDigitsDenote(raw, s);
    } else {
      LongDigitsDenote(raw, s);
    }
    assert IsHexText(Lowered(raw));
    if |full| == 8 && full[6] == 'f' && full[7] == 'f' {
      assert n == ['#'] + full[..6];
      assert forall i :: 0 <= i < 7 ==> n[i] == s[i];
      assert Long(s, 7) == 255;
    } else {
      assert n == s;
    }
  }

  lemma HexInjective(a: char, b: char)
    requires IsLowerHex(a) && IsLowerHex(b) && HexValue(a) == HexValue(b)
    ensures a == b
  {
  }

  /** Two digits are determined by the channel they spell. */
  lemma LongInjective(x: string, y: string, i: nat)
    requires IsCanonical(x) && IsCanonical(y) && 1 <= i && i + 1 < |x| && i + 1 < |y|
    requires Long(x, i) == Long(y, i)
    ensures x[i] == y[i] && x[i + 1] == y[i + 1]
  {
    assert HexValue(x[i + 1]) < 16 && HexValue(y[i + 1]) < 16;
    HexInjective(x[i], y[i]);
    HexInjective(x[i + 1], y[i + 1]);
  }

  lemma CanonicalIsUnique(x: string, y: string)
    requires IsCanonical(x) && IsCanonical(y) && Denotes(x) == Denotes(y)
    ensures x == y
  {
    LongInjective(x, y, 1);
    LongInjective(x, y, 3);
    LongInjective(x, y, 5);
    OpaqueAlpha(x);
    OpaqueAlpha(y);
    if |x| == 9 {
      LongInjective(x, y, 7);
    }
    assert forall i :: 0 <= i < |x| ==> x[i] == y[i];
  }

  lemma OpaqueAlpha(x: string)
    requires IsCanonical(x)
    ensures Denotes(x).a == 255 <==> |x| == 7
  {
    if |x| == 9 && Long(x, 7) == 255 {
      HexInjective(x[7], 'f');
      HexInjective(x[8], 'f');
    }
  }

  /** Two hex colours have the same canonical form exactly when they are the same colour. */
  lemma NormalizesAlikeIffSameColor(x: string, y: string)
    requires IsColor(x) && IsColor(y)
    ensures NormalizeHex(x) == NormalizeHex(y) <==> Denotes(x) == Denotes(y)
  {
    NormalForm(x);
    NormalForm(y);
    if Denotes(x) == Denotes(y) {
      CanonicalIsUnique(NormalizeHex(x).value, NormalizeHex(y).value);
    }
  }

  lemma NormalizingIsIdempotent(x: string)
    requires IsColor(x)
    ensures NormalizeHex(NormalizeHex(x).value) == NormalizeHex(x)
  {
    NormalForm(x);
    NormalForm(NormalizeHex(x).value);
    CanonicalIsUnique(NormalizeHex(NormalizeHex(x).value).value, NormalizeHex(x).value);
  }
}

/** The scales of `loadTokens` and the suggestions of `checkValue` in
    app/scripts/ds-tokens.js, for spacing, radius and font size. */
module Suggestions {
  import opened Options

  /** A declaration of a custom property of one scale: the pixels, or `None` for an alias or
      any other kind of value.  A suggestion names the property through its accessor, so the
      property stands for it. */
  datatype Decl = Decl(property: string, px: Option<real>)

  /** Pixels to the property suggested for them; later declarations win. */
  ghost function Scale(decls: seq<Decl>): map<real, string> {
    if decls == [] then map[]
    else
      var before, d := Scale(decls[..|decls| - 1]), decls[|decls| - 1];
      if d.px.Some? then before[d.px.value := d.property] else before
  }

  method LoadScale(decls: seq<Decl>) returns (scale: map<real, string>)
    ensures scale == Scale(decls)
  {
    scale := map[];
    for i := 0 to |decls|
      invariant scale == Scale(decls[..i])
    {
      assert decls[..i + 1][..i] == decls[..i];
      if decls[i].px.Some? {
        scale := scale[decls[i].px.value := decls[i].property];
      }
    }
    assert decls[..|decls|] == decls;
  }

  /** What a property renders to: the cascade takes the last declaration. */
  ghost function Rendered(decls: seq<Decl>, property: string): Option<real> {
    if decls == [] then None
    else
      var d := decls[|decls| - 1];
      if d.property == property then d.px else Rendered(decls[..|decls| - 1], property)
  }

  /** One part of a value: `None` for anything but a plain pixel length. */
  type Part = Option<real>

  /** A property, or the negative of one through `mul(step, -1)`. */
  datatype Token = Plain(property: string) | Negated(property: string)

  ghost function RenderedToken(decls: seq<Decl>, t: Token): Option<real> {
    var r := Rendered(decls, t.property);
    if r.None? || t.Plain? then r else Some(-r.value)
  }

  /** A shorthand is replaced part by part, or not at all. */
  method SuggestParts(scale: map<real, string>, parts: seq<Part>) returns (r: Option<seq<Token>>)
    ensures r.None? <==> exists i :: 0 <= i < |parts| && (parts[i].None? || parts[i].value !in scale)
    ensures r.Some? ==> |r.value| == |parts|
                        && forall i :: 0 <= i < |parts| ==> r.value[i] == Plain(scale[parts[i].value])
  {
    var tokens: seq<Token> := [];
    for i := 0 to |parts|
      invariant |tokens| == i
      invariant forall k :: 0 <= k < i ==> parts[k].Some? && parts[k].value in scale
      invariant forall k :: 0 <= k < i ==> tokens[k] == Plain(scale[parts[k].value])
    {
      if parts[i].None? || parts[i].value !in scale {
        return None;
      }
      tokens := tokens + [Plain(scale[parts[i].value])];
    }
    r := Some(tokens);
  }

  const MUI_UNIT: real := 8.0

  function Abs(x: real): real {
    if x < 0.0 then -x else x
  }

  /** A number in MUI spacing units.  `hasStep` says whether a property's accessor ends in
      a numeric step, without which it is not suggested. */
  function SuggestUnits(scale: map<real, string>, hasStep: string -> bool, n: real): Option<Token> {
    var px := Abs(n) * MUI_UNIT;
    if n == 0.0 || px !in scale || !hasStep(scale[px]) then None
    else Some(if n < 0.0 then Negated(scale[px]) else Plain(scale[px]))
  }

  /** The property last declared with some pixels is not declared again after that. */
  ghost predicate NoStaleEntry(decls: seq<Decl>) {
    forall i, j :: 0 <= i < j < |decls| && LastWithPixels(decls, i) ==> decls[j].property != decls[i].property
  }

  ghost predicate LastWithPixels(decls: seq<Decl>, i: nat)
    requires i < |decls|
  {
    decls[i].px.Some? && forall j :: i < j < |decls| ==> decls[j].px != decls[i].px
  }

  /** Every entry of the scale renders to the pixels it is suggested for. */
  ghost predicate Faithful(decls: seq<Decl>) {
    forall px :: px in Scale(decls) ==> Rendered(decls, Scale(decls)[px]) == Some(px)
  }

  lemma {:induction false} ScaleEntry(decls: seq<Decl>, px: real)
    ensures px in Scale(decls) <==> exists i :: 0 <= i < |decls| && decls[i].px == Some(px)
    ensures px in Scale(decls) ==>
              exists i :: 0 <= i < |decls| && decls[i] == Decl(Scale(decls)[px], Some(px)) && LastWithPixels(decls, i)
  {
    if decls != [] {
      var front, d := decls[..|decls| - 1], decls[|decls| - 1];
      ScaleEntry(front, px);
      assert forall i :: 0 <= i < |front| ==> front[i] == decls[i];
      if d.px == Some(px) {
        assert decls[|decls| - 1] == Decl(Scale(decls)[px], Some(px));
      } else if px in Scale(front) {
        var i :| 0 <= i < |front| && front[i] == Decl(Scale(front)[px], Some(px)) && LastWithPixels(front, i);
        assert decls[i] == Decl(Scale(decls)[px], Some(px)) && LastWithPixels(decls, i);
      }
    }
  }

  lemma {:induction false} RendersLast(decls: seq<Decl>, i: nat)
    requires i < |decls|
    ensures exists k :: i <= k < |decls| && decls[k] == Decl(decls[i].property, Rendered(decls, decls[i].property))
                        && forall j :: k < j < |decls| ==> decls[j].property != decls[i].property
  {
    var last := |decls| - 1;
    if decls[last].property == decls[i].property {
      assert decls[last] == Decl(decls[i].property, Rendered(decls, decls[i].property));
    } else {
      var front := decls[..last];
      RendersLast(front, i);
      var k :| i <= k < |front| && front[k] == Decl(decls[i].property, Rendered(front, decls[i].property))
               && forall j :: k < j < |front| ==> front[j].property != decls[i].property;
      assert decls[k] == front[k];
      assert forall j :: k < j < |decls| ==> decls[j].property != decls[i].property;
    }
  }

  /** The scale is faithful if and only if it has no stale entry. */
  lemma FaithfulIff(decls: seq<Decl>)
    ensures Faithful(decls) <==> NoStaleEntry(decls)
  {
    if NoStaleEntry(decls) {
      forall px | px in Scale(decls)
        ensures Rendered(decls, Scale(decls)[px]) == Some(px)
      {
        ScaleEntry(decls, px);
        var i :| 0 <= i < |decls| && decls[i] == Decl(Scale(decls)[px], Some(px)) && LastWithPixels(decls, i);
        RendersLast(decls, i);
      }
    }
    if Faithful(decls) {
      forall i, j | 0 <= i < j < |decls| && LastWithPixels(decls, i)
        ensures decls[j].property != decls[i].property
      {
        ScaleEntry(decls, decls[i].px.value);
        RendersLast(decls, j);
      }
    }
  }

  /** A property declared twice leaves a stale entry: it is still suggested for the first
      pixels and renders to the second. */
  lemma StaleEntry(property: string, first: real, second: real, decls: seq<Decl>)
    requires first != second && decls == [Decl(property, Some(first)), Decl(property, Some(second))]
    ensures !Faithful(decls) && first in Scale(decls) && Scale(decls)[first] == property
    ensures Rendered(decls, property) == Some(second)
  {
    assert LastWithPixels(decls, 0);
    FaithfulIff(decls);
    ScaleEntry(decls, first);
    RendersLast(decls, 1);
  }

  /** It is enough that every property has one declared value. */
  lemma OneValueEach(decls: seq<Decl>)
    requires forall i, j :: 0 <= i < j < |decls| && decls[i].property == decls[j].property ==>
                              decls[i].px == decls[j].px
    ensures Faithful(decls)
  {
    FaithfulIff(decls);
  }

  /** On a faithful scale every suggestion renders to the pixels of the value it replaces:
      each part of a shorthand, and a number of spacing units with its sign. */
  lemma SuggestionsRender(decls: seq<Decl>, hasStep: string -> bool, n: real, px: real)
    requires Faithful(decls)
    ensures px in Scale(decls) ==> RenderedToken(decls, Plain(Scale(decls)[px])) == Some(px)
    ensures var t := SuggestUnits(Scale(decls), hasStep, n);
            t.Some? ==> RenderedToken(decls, t.value) == Some(n * 8.0)
  {
    var scaled := Abs(n) * MUI_UNIT;
    assert scaled in Scale(decls) ==> Rendered(decls, Scale(decls)[scaled]) == Some(scaled);
  }

  /** A number of spacing units gets a suggestion exactly when it is not zero and eight pixels
      for each, whatever its sign, are declared last for a property that has a step. */
  lemma SuggestsUnitsIff(decls: seq<Decl>, hasStep: string -> bool, n: real, px: real)
    requires px == if n < 0.0 then -n * 8.0 else n * 8.0
    ensures SuggestUnits(Scale(decls), hasStep, n).Some?
       <==> n != 0.0 && exists i :: 0 <= i < |decls| && decls[i].px == Some(px) && LastWithPixels(decls, i)
                                    && hasStep(decls[i].property)
  {
    assert px == Abs(n) * MUI_UNIT;
    ScaleEntry(decls, px);
    if px in Scale(decls) {
      var k :| 0 <= k < |decls| && decls[k] == Decl(Scale(decls)[px], Some(px)) && LastWithPixels(decls, k);
      assert forall i :: 0 <= i < |decls| && decls[i].px == Some(px) && LastWithPixels(decls, i) ==> i == k;
    }
  }
}
