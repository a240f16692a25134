/** What `parseColor` accepts and returns, proved against the grammar of
    module Color. */
module ColorProofs {
  import opened Wrappers
  import opened Decimal
  import opened Color

  /** A run followed by a character outside its class is taken whole. */
  lemma {:induction false} RunLengthOf(run: string, rest: string, p: char -> bool)
    requires forall k :: 0 <= k < |run| ==> p(run[k])
    requires |rest| > 0 ==> !p(rest[0])
    ensures RunLength(run + rest, p) == |run|
  {
    if run != [] {
      assert (run + rest)[1..] == run[1..] + rest;
      RunLengthOf(run[1..], rest, p);
    }
  }

  lemma UnsignedOf(digits: string, rest: string)
    requires IsDigits(digits)
    requires |rest| > 0 ==> !IsDigit(rest[0])
    ensures UnsignedPrefix(digits + rest) == Some(Token(Value(digits), rest))
  {
    RunLengthOf(digits, rest, IsDigit);
    assert (digits + rest)[..|digits|] == digits;
  }

  lemma SeparatorOf(space: string, rest: string)
    requires AllSpace(space)
    requires |rest| > 0 ==> !IsSpace(rest[0])
    ensures SeparatorPrefix("," + (space + rest)) == Some(rest)
  {
    RunLengthOf(space, rest, IsSpace);
    assert ("," + (space + rest))[1..] == space + rest;
  }

  lemma TailRendered(t: ColorText, rest: string)
    requires WellFormed(t)
    ensures var m := Meaning(t); TailText(m.r, m.g, m.b, TailThen(t.alpha, rest)) == Some(m)
  {
    if t.alpha.Some? {
      var a := t.alpha.value;
      SeparatorOf(a.space, a.number + (")" + rest));
      RunLengthOf(a.number, ")" + rest, IsAlphaChar);
      assert (a.number + (")" + rest))[..|a.number|] == a.number;
    }
  }

  lemma ChannelsRendered(t: ColorText, rest: string)
    requires WellFormed(t)
    ensures ChannelsText(ChannelsThen(t, rest)) == Some(Meaning(t))
  {
    var tail := TailThen(t.alpha, rest);
    var afterBlue := t.blue + tail;
    var afterGreen := "," + (t.space2 + afterBlue);
    var afterSpace1 := t.green + afterGreen;
    var afterRed := "," + (t.space1 + afterSpace1);
    assert !IsSpace(afterSpace1[0]) by { assert IsDigit(t.green[0]); }
    assert !IsSpace(afterBlue[0]) by { assert IsDigit(t.blue[0]); }
    UnsignedOf(t.red, afterRed);
    SeparatorOf(t.space1, afterSpace1);
    UnsignedOf(t.green, afterGreen);
    SeparatorOf(t.space2, afterBlue);
    UnsignedOf(t.blue, tail);
    TailRendered(t, rest);
  }

  lemma OpenOf(withA: bool, open: string)
    ensures OpenPrefix((if withA then "rgba(" else "rgb(") + open) == Some(open)
  {
    var s := (if withA then "rgba(" else "rgb(") + open;
    if withA {
      assert s[..4] != "rgb(" by { assert s[..4][3] == 'a'; }
      assert s[..5] == "rgba(";
      assert s[5..] == open;
    } else {
      assert s[..4] == "rgb(";
      assert s[4..] == open;
    }
  }

  /** Soundness of the grammar: the text of a well-formed colour, followed by
      anything, is matched with that colour's meaning. */
  lemma MatchRendered(t: ColorText, rest: string)
    requires WellFormed(t)
    ensures MatchText(RenderThen(t, rest)) == Some(Meaning(t))
  {
    OpenOf(t.withA, ChannelsThen(t, rest));
    ChannelsRendered(t, rest);
  }

  // ---------------------------------------------------------------------
  // Completeness: every match is the text of a well-formed colour.

  lemma UnsignedSplit(s: string) returns (digits: string)
    requires UnsignedPrefix(s).Some?
    ensures IsDigits(digits) && s == digits + UnsignedPrefix(s).value.rest
    ensures UnsignedPrefix(s).value.value == Value(digits)
  {
    var n := RunLength(s, IsDigit);
    digits := s[..n];
    assert s == s[..n] + s[n..];
  }

  lemma SeparatorSplit(s: string) returns (space: string)
    requires SeparatorPrefix(s).Some?
    ensures AllSpace(space) && s == "," + (space + SeparatorPrefix(s).value)
  {
    var n := RunLength(s[1..], IsSpace);
    space := s[1..][..n];
    assert s[1..] == space + s[1..][n..];
    assert s == [s[0]] + s[1..];
  }

  /** The alpha component and the closing parenthesis of the tail. */
  lemma AlphaSplit(s: string) returns (number: string, rest: string)
    requires 0 < RunLength(s, IsAlphaChar) < |s| && s[RunLength(s, IsAlphaChar)] == ')'
    ensures number == s[..RunLength(s, IsAlphaChar)]
    ensures IsAlphaText(number) && s == number + (")" + rest)
  {
    var n := RunLength(s, IsAlphaChar);
    number, rest := s[..n], s[n + 1..];
    assert s == s[..n] + s[n..];
    assert s[n..] == [s[n]] + s[n + 1..];
  }

  lemma TailSplit(r: nat, g: nat, b: nat, s: string) returns (alpha: Option<AlphaText>, rest: string)
    requires TailText(r, g, b, s).Some?
    ensures alpha.Some? ==> AllSpace(alpha.value.space) && IsAlphaText(alpha.value.number)
    ensures s == TailThen(alpha, rest)
    ensures TailText(r, g, b, s) == Some(ParsedColor(r, g, b, AlphaMeaning(alpha)))
  {
    if |s| > 0 && s[0] == ')' {
      alpha, rest := None, s[1..];
      assert s == [s[0]] + s[1..];
    } else {
      var space := SeparatorSplit(s);
      var sep3 := SeparatorPrefix(s).value;
      var number, after := AlphaSplit(sep3);
      alpha, rest := Some(AlphaText(space, number)), after;
      assert TailText(r, g, b, s) == Some(ParsedColor(r, g, b, NumberOf(number)));
    }
  }

  lemma ChannelsSplit(withA: bool, s: string) returns (t: ColorText, rest: string)
    requires ChannelsText(s).Some?
    ensures WellFormed(t) && t.withA == withA
    ensures s == ChannelsThen(t, rest)
    ensures ChannelsText(s) == Some(Meaning(t))
  {
    var red := UnsignedPrefix(s).value;
    var redText := UnsignedSplit(s);
    var space1 := SeparatorSplit(red.rest);
    var sep1 := SeparatorPrefix(red.rest).value;
    var green := UnsignedPrefix(sep1).value;
    var greenText := UnsignedSplit(sep1);
    var space2 := SeparatorSplit(green.rest);
    var sep2 := SeparatorPrefix(green.rest).value;
    var blue := UnsignedPrefix(sep2).value;
    var blueText := UnsignedSplit(sep2);
    var alpha;
    alpha, rest := TailSplit(red.value, green.value, blue.value, blue.rest);
    t := ColorText(withA, redText, space1, greenText, space2, blueText, alpha);
  }

  lemma OpenSplit(s: string) returns (withA: bool, open: string)
    requires OpenPrefix(s).Some?
    ensures s == (if withA then "rgba(" else "rgb(") + open
    ensures OpenPrefix(s) == Some(open)
  {
    open := OpenPrefix(s).value;
    withA := !(|s| >= 4 && s[..4] == "rgb(");
    if withA {
      assert s == s[..5] + s[5..];
    } else {
      assert s == s[..4] + s[4..];
    }
  }

  /** Completeness of the grammar: whatever the scanner matches at the start
      of `s` is the text of a well-formed colour, and the result is that
      colour's meaning. */
  lemma MatchSplit(s: string) returns (t: ColorText, rest: string)
    requires MatchText(s).Some?
    ensures WellFormed(t)
    ensures s == RenderThen(t, rest)
    ensures MatchText(s) == Some(Meaning(t))
  {
    var withA, open := OpenSplit(s);
    t, rest := ChannelsSplit(withA, open);
  }

  // ---------------------------------------------------------------------
  // parseColor: the leftmost match anywhere in the string.

  lemma {:induction false} FirstOfLeftmost<T>(f: nat -> Option<T>, i: nat, last: nat)
    ensures FirstOf(f, i, last).None? <==> forall j :: i <= j <= last ==> f(j).None?
    ensures FirstOf(f, i, last).Some? ==>
      exists j :: i <= j <= last && f(j) == FirstOf(f, i, last)
                  && forall k :: i <= k < j ==> f(k).None?
    decreases last - i
  {
    if i <= last && f(i).None? {
      FirstOfLeftmost(f, i + 1, last);
    }
  }

  /** The index of the leftmost match, when there is one. */
  lemma LeftmostIndex(s: string) returns (i: nat)
    requires ParseColor(s).Some?
    ensures i <= |s| && MatchAt(s, i) == ParseColor(s)
    ensures forall k :: 0 <= k < i ==> MatchAt(s, k).None?
  {
    var f := MatchesIn(s);
    FirstOfLeftmost(f, 0, |s|);
    i :| i <= |s| && f(i) == ParseColor(s) && forall k :: 0 <= k < i ==> f(k).None?;
    forall k | 0 <= k < i ensures MatchAt(s, k).None? {
      assert f(k).None?;
    }
  }

  lemma MatchAtSplit(s: string, i: nat) returns (t: ColorText, rest: string)
    requires i <= |s| && MatchAt(s, i).Some?
    ensures WellFormed(t) && s[i..] == RenderThen(t, rest)
    ensures MatchAt(s, i) == Some(Meaning(t))
  {
    t, rest := MatchSplit(s[i..]);
  }

  /** When `parseColor` returns a colour, a well-formed colour text starts at
      some index, no match starts before it, and the result is that text's
      meaning: three digit strings and alpha 1 unless a fourth component is
      written. */
  lemma ParseColorFound(s: string) returns (i: nat, t: ColorText, rest: string)
    requires ParseColor(s).Some?
    ensures i <= |s| && WellFormed(t) && s[i..] == RenderThen(t, rest)
    ensures ParseColor(s) == Some(Meaning(t))
    ensures forall k :: 0 <= k < i ==> MatchAt(s, k).None?
  {
    i := LeftmostIndex(s);
    t, rest := MatchAtSplit(s, i);
  }

  /** No match at any index means no colour text anywhere. */
  lemma NoMatchNoText(s: string)
    requires ParseColor(s).None?
    ensures forall i, t, rest :: 0 <= i <= |s| && WellFormed(t) ==> s[i..] != RenderThen(t, rest)
  {
    var f := MatchesIn(s);
    FirstOfLeftmost(f, 0, |s|);
    forall i | 0 <= i <= |s| ensures MatchText(s[i..]).None? {
      assert f(i).None?;
    }
    forall i, t, rest | 0 <= i <= |s| && WellFormed(t)
      ensures s[i..] != RenderThen(t, rest)
    {
      MatchRendered(t, rest);
    }
  }

  /** `parseColor` returns none exactly when no well-formed colour text
      occurs anywhere in the string. */
  lemma ParseColorNone(s: string)
    ensures ParseColor(s).None? <==>
      forall i, t, rest :: 0 <= i <= |s| && WellFormed(t) ==> s[i..] != RenderThen(t, rest)
  {
    if ParseColor(s).None? {
      NoMatchNoText(s);
    } else {
      var i, t, rest := ParseColorFound(s);
    }
  }

  /** A string that begins with a colour text parses to that colour. */
  lemma ParseRendered(t: ColorText, rest: string)
    requires WellFormed(t)
    ensures ParseColor(RenderThen(t, rest)) == Some(Meaning(t))
  {
    MatchRendered(t, rest);
    assert RenderThen(t, rest)[0..] == RenderThen(t, rest);
  }

  // ---------------------------------------------------------------------
  // Number() of the alpha text.

  /** Every character a digit. Unlike `IsDigits`, the empty text is allowed:
      either side of a decimal point may be empty. */
  predicate DigitsOrEmpty(s: string) {
    forall k :: 0 <= k < |s| ==> IsDigit(s[k])
  }

  /** A decimal with one point: integer part plus fraction, either part
      possibly empty but not both. */
  lemma NumberOfPointed(whole: string, fraction: string)
    requires DigitsOrEmpty(whole) && DigitsOrEmpty(fraction)
    requires |whole| + |fraction| > 0
    ensures NumberOf(whole + "." + fraction) == Finite(PointValue(whole, fraction))
  {
    var t := whole + "." + fraction;
    assert t == whole + ("." + fraction);
    RunLengthOf(whole, "." + fraction, IsDigit);
    assert RunLength(t, IsDigit) == |whole|;
    assert t[..|whole|] == whole;
    assert t[|whole| + 1..] == fraction;
  }

  /** A second point makes the text NaN. */
  lemma NumberOfTwoPoints(a: string, b: string, c: string)
    requires DigitsOrEmpty(a) && DigitsOrEmpty(b) && DigitsOrEmpty(c)
    ensures NumberOf(a + "." + b + "." + c) == NaN
  {
    var t := a + "." + b + "." + c;
    assert t == a + ("." + (b + "." + c));
    RunLengthOf(a, "." + (b + "." + c), IsDigit);
    var frac := t[|a| + 1..];
    assert frac == b + "." + c;
    assert !IsDigit(frac[|b|]);
  }

  lemma NumberZero()
    ensures NumberOf("0") == Finite(0.0)
  {
    assert RunLength("0", IsDigit) == 1;
  }

  lemma NumberHundredths()
    ensures NumberOf("0.05") == Finite(0.05)
  {
    assert Value("05") == 5 by {
      assert "05"[..1] == "0";
    }
    assert "0.05" == "0" + "." + "05";
    NumberOfPointed("0", "05");
    assert Pow10(2) == 100;
    assert PointValue("0", "05") == 0.05;
  }

  lemma NumberTenth()
    ensures NumberOf("0.1") == Finite(0.1)
  {
    TextRoundTrip(0);
    TextRoundTrip(1);
    assert "0.1" == Text(0) + "." + Text(1);
    NumberOfPointed(Text(0), Text(1));
    assert PointValue(Text(0), Text(1)) == 0.1;
  }

  lemma NumberHalf()
    ensures NumberOf("0.5") == Finite(0.5)
  {
    TextRoundTrip(0);
    TextRoundTrip(5);
    assert "0.5" == Text(0) + "." + Text(5);
    NumberOfPointed(Text(0), Text(5));
    assert PointValue(Text(0), Text(5)) == 0.5;
  }

  /** A colour text whose channels are written as decimal numerals parses to
      those numbers, with the alpha of its fourth component, or 1. */
  lemma ParseChannels(withA: bool, r: nat, g: nat, b: nat, space: string, alpha: Option<AlphaText>, s: string)
    requires AllSpace(space)
    requires alpha.Some? ==> AllSpace(alpha.value.space) && IsAlphaText(alpha.value.number)
    requires s == RenderThen(ColorText(withA, Text(r), space, Text(g), space, Text(b), alpha), "")
    ensures ParseColor(s) == Some(ParsedColor(r, g, b, AlphaMeaning(alpha)))
  {
    TextRoundTrip(r);
    TextRoundTrip(g);
    TextRoundTrip(b);
    ParseRendered(ColorText(withA, Text(r), space, Text(g), space, Text(b), alpha), "");
  }

  /** Channels are taken as written, without clamping to 255. */
  lemma ParseUnclamped()
    ensures ParseColor("rgb(300, 0, 0)") == Some(ParsedColor(300, 0, 0, Finite(1.0)))
  {
    ParseChannels(false, 300, 0, 0, " ", None, "rgb(300, 0, 0)");
  }

  /** Opaque white. */
  lemma ParseWhite()
    ensures ParseColor("rgb(255, 255, 255)") == Some(ParsedColor(255, 255, 255, Finite(1.0)))
  {
    ParseChannels(false, 255, 255, 255, " ", None, "rgb(255, 255, 255)");
  }

  /** Opaque black. */
  lemma ParseBlack()
    ensures ParseColor("rgb(0, 0, 0)") == Some(ParsedColor(0, 0, 0, Finite(1.0)))
  {
    ParseChannels(false, 0, 0, 0, " ", None, "rgb(0, 0, 0)");
  }

  /** The `rgb(` prefix also takes a fourth component. */
  lemma ParseRgbWithAlpha()
    ensures ParseColor("rgb(1, 2, 3, 0.5)") == Some(ParsedColor(1, 2, 3, Finite(0.5)))
  {
    NumberHalf();
    RgbWithAlphaText();
    ParseChannels(false, 1, 2, 3, " ", Some(AlphaText(" ", "0.5")), "rgb(1, 2, 3, 0.5)");
  }

  lemma RgbWithAlphaText()
    ensures IsAlphaText("0.5")
    ensures "rgb(1, 2, 3, 0.5)" == RenderThen(ColorText(false, Text(1), " ", Text(2), " ", Text(3), Some(AlphaText(" ", "0.5"))), "")
  {
    assert Text(1) == "1" && Text(2) == "2" && Text(3) == "3";
  }

  /** Black with a given alpha text, as the browser writes it. */
  lemma BlackWithAlpha(number: string, s: string)
    requires IsAlphaText(number)
    requires s == "rgba(0, 0, 0, " + number + ")"
    ensures ParseColor(s) == Some(ParsedColor(0, 0, 0, NumberOf(number)))
  {
    assert Text(0) == "0";
    ParseChannels(true, 0, 0, 0, " ", Some(AlphaText(" ", number)), s);
  }

  /** `rgba(0, 0, 0, 0)`, a transparent computed colour. */
  lemma ParseTransparent()
    ensures ParseColor("rgba(0, 0, 0, 0)") == Some(ParsedColor(0, 0, 0, Finite(0.0)))
  {
    NumberZero();
    BlackWithAlpha("0", "rgba(0, 0, 0, 0)");
  }

  /** Black with alpha 0.05. */
  lemma ParseAlphaHundredths()
    ensures ParseColor("rgba(0, 0, 0, 0.05)") == Some(ParsedColor(0, 0, 0, Finite(0.05)))
  {
    NumberHundredths();
    BlackWithAlpha("0.05", "rgba(0, 0, 0, 0.05)");
  }

  /** Black with alpha 0.1. */
  lemma ParseAlphaTenth()
    ensures ParseColor("rgba(0, 0, 0, 0.1)") == Some(ParsedColor(0, 0, 0, Finite(0.1)))
  {
    NumberTenth();
    BlackWithAlpha("0.1", "rgba(0, 0, 0, 0.1)");
  }

  /** Black with alpha 0.5. */
  lemma ParseAlphaHalf()
    ensures ParseColor("rgba(0, 0, 0, 0.5)") == Some(ParsedColor(0, 0, 0, Finite(0.5)))
  {
    NumberHalf();
    BlackWithAlpha("0.5", "rgba(0, 0, 0, 0.5)");
  }

  /** The `rgba(` prefix also takes three components, and alpha is then 1. */
  lemma ParseRgbaWithoutAlpha()
    ensures ParseColor("rgba(9,8,7)") == Some(ParsedColor(9, 8, 7, Finite(1.0)))
  {
    ParseChannels(true, 9, 8, 7, "", None, "rgba(9,8,7)");
  }

  // ---------------------------------------------------------------------
  // Lightness inversion and protection.

  lemma RoundInteger(k: int)
    ensures Round(k as real) == k
  {
    assert (k as real + 0.5).Floor == k;
  }

  /** A grey of value `v` becomes the grey `255 - v`, whatever the hue path
      (exact arithmetic; the channel is not clamped). */
  lemma InvertGrey(hue: HuePath, v: nat)
    ensures Lightness(v, v, v) == v as real / 255.0
    ensures InvertLightness(hue, v, v, v) == Rgb(255 - v, 255 - v, 255 - v)
  {
    assert Lightness(v, v, v) == v as real / 255.0;
    assert (1.0 - v as real / 255.0) * 255.0 == (255 - v) as real;
    RoundInteger(255 - v);
  }

  /** Inverting a grey twice gives the grey back. */
  lemma InvertGreyTwice(hue: HuePath, v: nat)
    requires v <= 255
    ensures var w := 255 - v; InvertLightness(hue, w, w, w) == Rgb(v, v, v)
  {
    InvertGrey(hue, 255 - v);
  }

  /** White becomes black and black becomes white. */
  lemma InvertBlackWhite(hue: HuePath)
    ensures InvertLightness(hue, 255, 255, 255) == Rgb(0, 0, 0)
    ensures InvertLightness(hue, 0, 0, 0) == Rgb(255, 255, 255)
  {
    InvertGrey(hue, 255);
    InvertGrey(hue, 0);
  }

  /** The tag test is exact: lower-case names are not protected, and an
      empty or `none` background image does not protect. */
  lemma ProtectionExamples()
    ensures IsProtected("IMG", "none") && IsProtected("DIV", "url(a.png)")
    ensures !IsProtected("img", "none") && !IsProtected("svg", "") && !IsProtected("DIV", "none")
  {
  }
}
