/** The pure colour helpers of the dark-mode engine
    (entrypoints/content/dark-mode.ts): parsing a computed colour string,
    inverting lightness, and the protected-element test. */
module Color {
  import opened Wrappers
  import opened Decimal

  /** The value JavaScript's `Number(...)` gives for the alpha text: a finite
      decimal or NaN. */
  datatype JsNumber = Finite(value: real) | NaN

  /** `[r, g, b, a]` as `parseColor` returns it. The channels are the digit
      strings' values, never clamped to 255. */
  datatype ParsedColor = ParsedColor(r: nat, g: nat, b: nat, alpha: JsNumber)

  /** The regular-expression class `\s` of JavaScript: ASCII white space, the
      Unicode space separators, the line and paragraph separators and the
      byte-order mark. */
  predicate IsSpace(c: char) {
    c == ' ' || c == '\t' || c == '\n' || c == '\r' || c == '\U{000B}' || c == '\U{000C}'
    || c == '\U{00A0}' || c == '\U{1680}' || ('\U{2000}' <= c <= '\U{200A}')
    || c == '\U{2028}' || c == '\U{2029}' || c == '\U{202F}' || c == '\U{205F}'
    || c == '\U{3000}' || c == '\U{FEFF}'
  }

  /** The class `[\d.]` of the alpha component. */
  predicate IsAlphaChar(c: char) {
    IsDigit(c) || c == '.'
  }

  /** The length of the longest prefix of `s` whose characters satisfy `p`:
      a greedy `+` or `*` quantifier over a character class. */
  function RunLength(s: string, p: char -> bool): (n: nat)
    ensures n <= |s|
    ensures forall k :: 0 <= k < n ==> p(s[k])
    ensures n < |s| ==> !p(s[n])
  {
    if |s| > 0 && p(s[0]) then 1 + RunLength(s[1..], p) else 0
  }

  /** `Number(t)` for a `[\d.]+` text: a decimal literal with at most one
      point and at least one digit, otherwise NaN ("." or "1.2.3"). */
  function NumberOf(t: string): JsNumber
    requires forall k :: 0 <= k < |t| ==> IsAlphaChar(t[k])
  {
    var p := RunLength(t, IsDigit);
    if p == |t| then Finite(Value(t) as real)
    else
      var frac := t[p + 1..];
      if (forall k :: 0 <= k < |frac| ==> IsDigit(frac[k])) && (p > 0 || |frac| > 0) then
        Finite(PointValue(t[..p], frac))
      else
        NaN
  }

  /** The exact value of the decimal `whole.fraction`. */
  function PointValue(whole: string, fraction: string): real
    requires forall k :: 0 <= k < |whole| ==> IsDigit(whole[k])
    requires forall k :: 0 <= k < |fraction| ==> IsDigit(fraction[k])
  {
    Value(whole) as real + Value(fraction) as real / Pow10(|fraction|) as real
  }

  /** A scanned integer and the text after its last digit. */
  datatype Token = Token(value: nat, rest: string)

  /** `\d+` at the start of `s`. */
  function UnsignedPrefix(s: string): (r: Option<Token>)
    ensures r.Some? ==> |r.value.rest| < |s|
  {
    var n := RunLength(s, IsDigit);
    if n == 0 then None else Some(Token(Value(s[..n]), s[n..]))
  }

  /** `,\s*` at the start of `s`: the text after the comma and the spaces. */
  function SeparatorPrefix(s: string): (r: Option<string>)
    ensures r.Some? ==> |r.value| < |s|
  {
    if |s| > 0 && s[0] == ',' then
      var n := RunLength(s[1..], IsSpace);
      Some(s[1..][n..])
    else
      None
  }

  /** `rgba?\(` at the start of `s`. Giving back the optional `a` cannot
      help, because the parenthesis would then have to be that `a`. */
  function OpenPrefix(s: string): (r: Option<string>)
    ensures r.Some? ==> |r.value| + 4 <= |s|
  {
    if |s| >= 4 && s[..4] == "rgb(" then Some(s[4..])
    else if |s| >= 5 && s[..5] == "rgba(" then Some(s[5..])
    else None
  }

  /** The match of the whole pattern at the start of `s`. Each greedy run
      ends at a character outside its class, so backtracking into a run never
      produces another match: at most one match starts at a given index. */
  function MatchText(s: string): Option<ParsedColor> {
    var open :- OpenPrefix(s);
    ChannelsText(open)
  }

  /** `(\d+),\s*(\d+),\s*(\d+)` followed by the tail of the pattern. */
  function ChannelsText(s: string): Option<ParsedColor> {
    var red :- UnsignedPrefix(s);
    var sep1 :- SeparatorPrefix(red.rest);
    var green :- UnsignedPrefix(sep1);
    var sep2 :- SeparatorPrefix(green.rest);
    var blue :- UnsignedPrefix(sep2);
    TailText(red.value, green.value, blue.value, blue.rest)
  }

  /** `(?:,\s*([\d.]+))?\)` after the third channel. The optional group is
      tried first; when it fails, a `)` must follow the third channel. */
  function TailText(r: nat, g: nat, b: nat, s: string): Option<ParsedColor> {
    if |s| > 0 && s[0] == ')' then
      Some(ParsedColor(r, g, b, Finite(1.0)))
    else
      var sep3 :- SeparatorPrefix(s);
      var n := RunLength(sep3, IsAlphaChar);
      if 0 < n < |sep3| && sep3[n] == ')' then
        Some(ParsedColor(r, g, b, NumberOf(sep3[..n])))
      else
        None
  }

  /** The match starting exactly at index `i` (none past the end). */
  function MatchAt(s: string, i: nat): Option<ParsedColor> {
    if i <= |s| then MatchText(s[i..]) else None
  }

  /** The result at the least index from `i` to `last` where `f` gives one:
      the leftmost match of an unanchored search. */
  function FirstOf<T>(f: nat -> Option<T>, i: nat, last: nat): Option<T>
    decreases last - i
  {
    if i > last then None
    else if f(i).Some? then f(i)
    else FirstOf(f, i + 1, last)
  }

  /** `parseColor`: the unanchored match, so the first occurrence anywhere in
      the string counts. */
  function ParseColor(s: string): Option<ParsedColor> {
    FirstOf(MatchesIn(s), 0, |s|)
  }

  /** The match at each index of `s`. */
  function MatchesIn(s: string): nat -> Option<ParsedColor> {
    (i: nat) => MatchAt(s, i)
  }

  // ---------------------------------------------------------------------
  // The texts the pattern describes, written out as a grammar.

  datatype AlphaText = AlphaText(space: string, number: string)

  /** One text matched by the pattern: prefix `rgb(` or `rgba(`, three digit
      strings with optional spaces after each comma, and an optional fourth
      component. */
  datatype ColorText = ColorText(
    withA: bool,
    red: string, space1: string, green: string, space2: string, blue: string,
    alpha: Option<AlphaText>)

  predicate AllSpace(s: string) {
    forall k :: 0 <= k < |s| ==> IsSpace(s[k])
  }

  predicate IsAlphaText(s: string) {
    |s| > 0 && forall k :: 0 <= k < |s| ==> IsAlphaChar(s[k])
  }

  predicate WellFormed(t: ColorText) {
    IsDigits(t.red) && IsDigits(t.green) && IsDigits(t.blue)
    && AllSpace(t.space1) && AllSpace(t.space2)
    && (t.alpha.Some? ==> AllSpace(t.alpha.value.space) && IsAlphaText(t.alpha.value.number))
  }

  /** The text of `t` followed by `rest`. */
  function RenderThen(t: ColorText, rest: string): string {
    (if t.withA then "rgba(" else "rgb(") + ChannelsThen(t, rest)
  }

  function ChannelsThen(t: ColorText, rest: string): string {
    t.red + ("," + (t.space1 + (t.green + ("," + (t.space2 + (t.blue + TailThen(t.alpha, rest)))))))
  }

  function TailThen(alpha: Option<AlphaText>, rest: string): string {
    if alpha.Some? then "," + (alpha.value.space + (alpha.value.number + (")" + rest)))
    else ")" + rest
  }

  /** What `parseColor` returns for a text of the pattern: the three channel
      values as written and alpha 1 when there is no fourth component. */
  function Meaning(t: ColorText): ParsedColor
    requires WellFormed(t)
  {
    ParsedColor(Value(t.red), Value(t.green), Value(t.blue), AlphaMeaning(t.alpha))
  }

  function AlphaMeaning(alpha: Option<AlphaText>): JsNumber
    requires alpha.Some? ==> IsAlphaText(alpha.value.number)
  {
    if alpha.Some? then NumberOf(alpha.value.number) else Finite(1.0)
  }

  // ---------------------------------------------------------------------
  // Lightness inversion.

  /** Three rounded channels as `hslToRgb` returns them. */
  datatype Rgb = Rgb(r: int, g: int, b: int)

  /** The chromatic path of `invertLightness` (hue and saturation from
      `rgbToHsl`, interpolation in `hslToRgb`), which works in floating
      point. It is a parameter of the model, not a definition. */
  type HuePath = (nat, nat, nat) -> Rgb

  /** `Math.round`: the nearest integer, halves rounded up. */
  function Round(x: real): int {
    (x + 0.5).Floor
  }

  /** The HSL lightness `(max + min) / 2` of channels scaled to [0, 1]. */
  function Lightness(r: nat, g: nat, b: nat): real {
    var hi := if r >= g && r >= b then r else if g >= b then g else b;
    var lo := if r <= g && r <= b then r else if g <= b then g else b;
    ((hi + lo) as real / 2.0) / 255.0
  }

  /** `invertLightness`: lightness `l` becomes `1 - l`. For a grey
      (`r == g == b`) `rgbToHsl` returns saturation 0 and `hslToRgb` takes its
      shortcut `round(l * 255)` for all three channels; any other colour goes
      through the hue path. */
  function InvertLightness(hue: HuePath, r: nat, g: nat, b: nat): Rgb {
    if r == g && g == b then
      var v := Round((1.0 - Lightness(r, g, b)) * 255.0);
      Rgb(v, v, v)
    else
      hue(r, g, b)
  }

  // ---------------------------------------------------------------------
  // Protected elements.

  /** `PROTECTED_TAGS`, compared with `tagName` exactly (upper case). */
  const ProtectedTags: set<string> := {"IMG", "VIDEO", "CANVAS", "SVG", "PICTURE", "SOURCE", "IFRAME"}

  /** `isProtected`: a protected tag, or a computed `background-image` that
      is neither empty nor `none`. */
  predicate IsProtected(tagName: string, backgroundImage: string) {
    tagName in ProtectedTags || (backgroundImage != "" && backgroundImage != "none")
  }
}
