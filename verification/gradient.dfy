/**
  `createBackgroundGradient`: the page background as a 135-degree gradient built
  from the background colour, a lighter and a darker variant of it. The channels
  are read with `parseInt(.., 16)` and shifted by 20, clamped to 0..255.
*/
module Gradient {
  import opened Wrappers
  import opened Text

  /** `parseInt(s, 16)`: leading white space and one sign skipped, an optional
      "0x"/"0X" prefix dropped, then the leading hex digits. `None` is `NaN`. */
  function ParseHex(s: string): (r: Option<int>)
    ensures r.Some? && r.value < 0 ==> '-' in s
  {
    var t := TrimStart(s);
    var negative := |t| > 0 && t[0] == '-';
    var u := if |t| > 0 && (t[0] == '-' || t[0] == '+') then t[1..] else t;
    var v := if |u| >= 2 && u[0] == '0' && (u[1] == 'x' || u[1] == 'X') then u[2..] else u;
    match ParseHexPrefix(v)
    case None => None
    case Some(m) =>
      if negative then
        TrimDropsOnlyWhitespace(s);
        assert t[0] in s;
        Some(-(m as int))
      else Some(m as int)
  }

  /** `s.substr(start, length)` for non-negative arguments. */
  function Substr(s: string, start: nat, length: nat): (r: string)
    ensures |r| <= length
  {
    var a := if start < |s| then start else |s|;
    var b := if a + length < |s| then a + length else |s|;
    s[a..b]
  }

  /** `Math.min(255, c + 20)`, with `NaN` passing through. */
  function Lighten(c: Option<int>): (r: Option<int>)
    ensures r.Some? <==> c.Some?
    ensures c.Some? ==>
      && r.value <= 255 && r.value <= c.value + 20
      && (r.value == 255 || r.value == c.value + 20)
  {
    match c
    case None => None
    case Some(v) => Some(if 255 < v + 20 then 255 else v + 20)
  }

  /** `Math.max(0, c - 20)`, with `NaN` passing through. */
  function Darken(c: Option<int>): (r: Option<int>)
    ensures r.Some? <==> c.Some?
    ensures c.Some? ==>
      && r.value >= 0 && r.value >= c.value - 20
      && (r.value == 0 || r.value == c.value - 20)
  {
    match c
    case None => None
    case Some(v) => Some(if 0 > v - 20 then 0 else v - 20)
  }

  /** `rgb(${r}, ${g}, ${b})`. */
  function Rgb(r: Option<int>, g: Option<int>, b: Option<int>): string {
    "rgb(" + NumberToString(r) + ", " + NumberToString(g) + ", " + NumberToString(b) + ")"
  }

  datatype Channels = Channels(r: Option<int>, g: Option<int>, b: Option<int>)

  /** The red, green and blue channels read from the colour with its first '#'
      removed: two characters each, from offsets 0, 2 and 4. */
  function ChannelsOf(color: string): Channels {
    var hex := ReplaceFirst(color, "#", "");
    Channels(ParseHex(Substr(hex, 0, 2)), ParseHex(Substr(hex, 2, 2)), ParseHex(Substr(hex, 4, 2)))
  }

  const FallbackGradient := "linear-gradient(135deg, #f1f5f9 0%, #e2e8f0 25%, #cbd5e1 50%, #94a3b8 75%, #64748b 100%)"

  /** The gradient text around its three colours: lighter at 0%, the colour at
      25% and 75%, darker at 50% and 100%. */
  function Template(lighter: string, color: string, darker: string): string {
    "linear-gradient(135deg, " + lighter + " 0%, " + color + " 25%, " + darker + " 50%, "
      + color + " 75%, " + darker + " 100%)"
  }

  /** `createBackgroundGradient(color)`: a colour without '#' gets the fixed
      slate gradient. */
  function Gradient(color: string): (r: string)
    ensures !Contains(color, "#") ==> r == FallbackGradient
  {
    if Contains(color, "#") then
      var c := ChannelsOf(color);
      Template(Rgb(Lighten(c.r), Lighten(c.g), Lighten(c.b)), color, Rgb(Darken(c.r), Darken(c.g), Darken(c.b)))
    else FallbackGradient
  }

  /** A channel value forced into 0..255. */
  function Clamp(v: int): (r: int)
    ensures 0 <= r <= 255
    ensures 0 <= v <= 255 ==> r == v
  {
    if v < 0 then 0 else if v > 255 then 255 else v
  }

  /** Two hex digits read as one byte. */
  function HexPair(hi: char, lo: char): (v: nat)
    requires IsHexDigit(hi) && IsHexDigit(lo)
    ensures v <= 255
  {
    16 * HexValue(hi) + HexValue(lo)
  }

  /** `parseInt` in base 16 of two hex digits is their byte value. */
  lemma ParseHexPair(s: string)
    requires |s| == 2 && IsHexDigit(s[0]) && IsHexDigit(s[1])
    ensures ParseHex(s) == Some(HexPair(s[0], s[1]) as int)
  {
    assert !IsWhitespace(s[0]);
    TrimStartStops(s);
    assert HexRunLength(s, 0) == 2 by {
      assert HexRunLength(s, 2) == 0;
    }
    assert HexRun(s, 2) == HexRun(s, 1) * 16 + HexValue(s[1]);
    assert HexRun(s, 1) == HexValue(s[0]);
    assert ParseHexPrefix(s) == Some(HexPair(s[0], s[1]));
  }

  /** Dropping the first '#' of a colour that starts with one. */
  lemma DropLeadingHash(color: string)
    requires |color| > 0 && color[0] == '#'
    ensures ReplaceFirst(color, "#", "") == color[1..]
  {
    assert color[0..1] == "#";
    assert FindFrom(color, "#", 0) == Some(0);
    assert color[..0] + "" + color[1..] == color[1..];
  }

  /** The channel read from characters `i` and `i + 1` of a "#rrggbb" colour. */
  lemma ChannelAt(color: string, i: nat)
    requires |color| == 7 && color[0] == '#' && i in {1, 3, 5}
    requires IsHexDigit(color[i]) && IsHexDigit(color[i + 1])
    ensures ParseHex(Substr(color[1..], i - 1, 2)) == Some(HexPair(color[i], color[i + 1]) as int)
  {
    var piece := Substr(color[1..], i - 1, 2);
    assert piece == color[i..i + 2];
    assert piece[0] == color[i] && piece[1] == color[i + 1];
    ParseHexPair(piece);
  }

  /** A "#rrggbb" colour yields its three bytes, so each lighter channel is the
      byte plus 20 capped at 255 and each darker one the byte minus 20 floored
      at 0. */
  lemma HexColorChannels(color: string)
    requires |color| == 7 && color[0] == '#'
    requires forall i :: 1 <= i < 7 ==> IsHexDigit(color[i])
    ensures ChannelsOf(color) == Channels(
      Some(HexPair(color[1], color[2]) as int),
      Some(HexPair(color[3], color[4]) as int),
      Some(HexPair(color[5], color[6]) as int))
  {
    DropLeadingHash(color);
    ChannelAt(color, 1);
    ChannelAt(color, 3);
    ChannelAt(color, 5);
  }

  /** Shifting a byte by 20 either way is clamping the shifted value to 0..255. */
  lemma ShiftIsClamp(v: int)
    requires 0 <= v <= 255
    ensures Lighten(Some(v)) == Some(Clamp(v + 20))
    ensures Darken(Some(v)) == Some(Clamp(v - 20))
  {
  }

  /** A colour that starts with '#' contains one. */
  lemma LeadingHashContained(color: string)
    requires |color| > 0 && color[0] == '#'
    ensures Contains(color, "#")
  {
    assert OccursAt(color, "#", 0) by {
      assert color[0..1] == "#";
    }
    ContainsIffOccurs(color, "#");
  }

  /** With a '#' present the gradient is the template around the lighter and
      darker colours computed from the channels. */
  lemma GradientOfChannels(color: string)
    requires Contains(color, "#")
    ensures var c := ChannelsOf(color);
      Gradient(color) == Template(Rgb(Lighten(c.r), Lighten(c.g), Lighten(c.b)), color,
                                  Rgb(Darken(c.r), Darken(c.g), Darken(c.b)))
  {
  }

  lemma RgbOfKnown(r: Option<int>, g: Option<int>, b: Option<int>, r': int, g': int, b': int)
    requires r == Some(r') && g == Some(g') && b == Some(b')
    ensures Rgb(r, g, b) == Rgb(Some(r'), Some(g'), Some(b'))
  {
  }

  /** The lighter and darker colours of three known bytes. */
  lemma ShadesOfBytes(c: Channels, r: nat, g: nat, b: nat)
    requires c == Channels(Some(r), Some(g), Some(b)) && r <= 255 && g <= 255 && b <= 255
    ensures Rgb(Lighten(c.r), Lighten(c.g), Lighten(c.b)) == Rgb(Some(Clamp(r + 20)), Some(Clamp(g + 20)), Some(Clamp(b + 20)))
    ensures Rgb(Darken(c.r), Darken(c.g), Darken(c.b)) == Rgb(Some(Clamp(r - 20)), Some(Clamp(g - 20)), Some(Clamp(b - 20)))
  {
    ShiftIsClamp(r);
    ShiftIsClamp(g);
    ShiftIsClamp(b);
    RgbOfKnown(Lighten(c.r), Lighten(c.g), Lighten(c.b), Clamp(r + 20), Clamp(g + 20), Clamp(b + 20));
    RgbOfKnown(Darken(c.r), Darken(c.g), Darken(c.b), Clamp(r - 20), Clamp(g - 20), Clamp(b - 20));
  }

  /** The gradient of a colour with a '#' whose channels read as three bytes. */
  lemma GradientOfBytes(color: string, r: nat, g: nat, b: nat)
    requires Contains(color, "#")
    requires ChannelsOf(color) == Channels(Some(r), Some(g), Some(b)) && r <= 255 && g <= 255 && b <= 255
    ensures Gradient(color) == Template(
      Rgb(Some(Clamp(r + 20)), Some(Clamp(g + 20)), Some(Clamp(b + 20))),
      color,
      Rgb(Some(Clamp(r - 20)), Some(Clamp(g - 20)), Some(Clamp(b - 20))))
  {
    GradientOfChannels(color);
    ShadesOfBytes(ChannelsOf(color), r, g, b);
  }

  /** The gradient of a "#rrggbb" colour whose channels are the bytes `r`, `g`
      and `b`: each channel shifted up by 20 for the lighter colour and down by
      20 for the darker one, kept within 0..255, with the colour itself between
      them. */
  lemma GradientOfHexColor(color: string, r: int, g: int, b: int)
    requires |color| == 7 && color[0] == '#'
    requires forall i :: 1 <= i < 7 ==> IsHexDigit(color[i])
    requires r == HexPair(color[1], color[2]) && g == HexPair(color[3], color[4]) && b == HexPair(color[5], color[6])
    ensures Gradient(color) == Template(
      Rgb(Some(Clamp(r + 20)), Some(Clamp(g + 20)), Some(Clamp(b + 20))),
      color,
      Rgb(Some(Clamp(r - 20)), Some(Clamp(g - 20)), Some(Clamp(b - 20))))
  {
    LeadingHashContained(color);
    HexColorChannels(color);
    GradientOfBytes(color, r, g, b);
  }
}
