/** Raphael's conversions between RGB and HSL, in exact arithmetic. */
module Colour {
  datatype Rgb = Rgb(r: real, g: real, b: real)

  datatype Hsl = Hsl(h: real, s: real, l: real)

  function Max(x: real, y: real): real {
    if x >= y then x else y
  }

  function Min(x: real, y: real): real {
    if x <= y then x else y
  }

  /** The hue in sixths of a turn, before it is brought into [0, 1]. */
  function Sextant(c: Rgb, max: real, delta: real): real
    requires delta > 0.0
  {
    if c.r == max then (c.g - c.b) / delta
    else if c.g == max then 2.0 + (c.b - c.r) / delta
    else 4.0 + (c.r - c.g) / delta
  }

  function Turned(h: real): real {
    var h1 := if h < 0.0 then h + 1.0 else h;
    if h1 > 1.0 then h1 - 1.0 else h1
  }

  predicate InRange(x: real, top: real) {
    0.0 <= x <= top
  }

  predicate IsUnit(c: Rgb) {
    InRange(c.r, 1.0) && InRange(c.g, 1.0) && InRange(c.b, 1.0)
  }

  /** `rgb2hsl` on three numbers: a component above 1 means that all three are out of 255. */
  function RgbToHsl(red: real, green: real, blue: real): Hsl
    requires InRange(red, 255.0) && InRange(green, 255.0) && InRange(blue, 255.0)
  {
    UnitToHsl(Scaled(red, green, blue))
  }

  function Scaled(red: real, green: real, blue: real): (c: Rgb)
    requires InRange(red, 255.0) && InRange(green, 255.0) && InRange(blue, 255.0)
    ensures IsUnit(c)
  {
    if red > 1.0 || green > 1.0 || blue > 1.0 then Rgb(red / 255.0, green / 255.0, blue / 255.0)
    else Rgb(red, green, blue)
  }

  function UnitToHsl(c: Rgb): Hsl
    requires IsUnit(c)
  {
    var max, min := Max(c.r, Max(c.g, c.b)), Min(c.r, Min(c.g, c.b));
    var l := (max + min) / 2.0;
    if min == max then Hsl(0.0, 0.0, l)
    else Hsl(Turned(Sextant(c, max, max - min) / 6.0), Saturation(max, min), l)
  }

  function Saturation(max: real, min: real): real
    requires 0.0 <= min < max <= 1.0
  {
    if (max + min) / 2.0 < 0.5 then (max - min) / (max + min) else (max - min) / (2.0 - max - min)
  }

  /** One turn of the loop of `hsl2rgb`: the channel that is `shift` thirds of a turn ahead of the hue. */
  function Channel(h: real, shift: real, t1: real, t2: real): real {
    ChannelAt(Turned(h + shift / 3.0), t1, t2)
  }

  function ChannelAt(t3: real, t1: real, t2: real): real {
    if t3 * 6.0 < 1.0 then t1 + (t2 - t1) * 6.0 * t3
    else if t3 * 2.0 < 1.0 then t2
    else if t3 * 3.0 < 2.0 then t1 + (t2 - t1) * (2.0 / 3.0 - t3) * 6.0
    else t1
  }

  /** `hsl2rgb` on three numbers: one above 1 means a hue in degrees and percentages. */
  function HslToRgb(h: real, s: real, l: real): Rgb {
    var rgb := HslToUnit(if h > 1.0 || s > 1.0 || l > 1.0 then Hsl(h / 360.0, s / 100.0, l / 100.0) else Hsl(h, s, l));
    Rgb(rgb.r * 255.0, rgb.g * 255.0, rgb.b * 255.0)
  }

  function Highest(l: real, s: real): real {
    if l < 0.5 then l * (1.0 + s) else l + s - l * s
  }

  function HslToUnit(c: Hsl): Rgb {
    if c.s == 0.0 then Rgb(c.l, c.l, c.l)
    else
      var t2 := Highest(c.l, c.s);
      var t1 := 2.0 * c.l - t2;
      Rgb(Channel(c.h, 1.0, t1, t2), Channel(c.h, 0.0, t1, t2), Channel(c.h, -1.0, t1, t2))
  }

  // ----- The round trip -----

  lemma Ratio(a: real, b: real)
    requires 0.0 < a <= b
    ensures 0.0 < a / b <= 1.0 && a / b * b == a
  {
  }

  /** Saturation and lightness determine the largest and the smallest component. */
  lemma Extremes(max: real, min: real)
    requires 0.0 <= min < max <= 1.0
    ensures var l, s := (max + min) / 2.0, Saturation(max, min);
            0.0 < s <= 1.0 && Highest(l, s) == max
  {
    var l, s := (max + min) / 2.0, Saturation(max, min);
    if l < 0.5 {
      Ratio(max - min, max + min);
      assert s * (max + min) == max - min;
    } else {
      Ratio(max - min, 2.0 - max - min);
      assert s * (2.0 - max - min) == max - min;
    }
  }

  /** The height of a channel at p sixths of a turn: up, high, down, low. */
  function Profile(p: real, t1: real, t2: real): real {
    if p < 1.0 then t1 + (t2 - t1) * p
    else if p < 3.0 then t2
    else if p < 4.0 then t1 + (t2 - t1) * (4.0 - p)
    else t1
  }

  lemma ChannelProfile(t3: real, t1: real, t2: real)
    ensures ChannelAt(t3, t1, t2) == Profile(6.0 * t3, t1, t2)
  {
    assert (t2 - t1) * 6.0 * t3 == (t2 - t1) * (6.0 * t3);
    assert (t2 - t1) * (2.0 / 3.0 - t3) * 6.0 == (t2 - t1) * (4.0 - 6.0 * t3);
  }

  /** Turning in sixths. */
  function Sixths(p: real): real {
    if p < 0.0 then p + 6.0 else if p > 6.0 then p - 6.0 else p
  }

  lemma ChannelAtSextant(q: real, shift: real, p: real, t1: real, t2: real)
    requires -1.0 <= q <= 5.0 && p == q + 2.0 * shift && (shift == 1.0 || shift == 0.0 || shift == -1.0)
    ensures Channel(Turned(q / 6.0), shift, t1, t2) == Profile(Sixths(p), t1, t2)
  {
    var t3 := Turned(Turned(q / 6.0) + shift / 3.0);
    assert 6.0 * t3 == Sixths(p);
    ChannelProfile(t3, t1, t2);
  }

  /** A quotient that lies between -1 and 1. */
  lemma Quotient(d: real, delta: real)
    requires delta > 0.0 && -delta <= d <= delta
    ensures var q := d / delta;
            && -1.0 <= q <= 1.0 && delta * q == d
            && (q > 0.0 <==> d > 0.0) && (q < 0.0 <==> d < 0.0)
            && (q == 1.0 <==> d == delta) && (q == -1.0 <==> d == -delta)
  {
    var q := d / delta;
    Sign(q, delta);
    Sign(q - 1.0, delta);
    Sign(q + 1.0, delta);
  }

  lemma Sign(q: real, delta: real)
    requires delta > 0.0
    ensures (q > 0.0 <==> delta * q > 0.0) && (q < 0.0 <==> delta * q < 0.0)
  {
  }

  /** The extremes of three components, and q between them in sixths, when the first is the largest. */
  lemma ProfileAroundPeak(top: real, next: real, last: real, min: real, q: real)
    requires min == Min(top, Min(next, last)) && min < top && next <= top && last <= top
    requires -1.0 <= q <= 1.0 && (top - min) * q == next - last
    requires (q > 0.0 <==> next > last) && (q < 0.0 <==> next < last)
    requires (q == 1.0 <==> next - last == top - min) && (q == -1.0 <==> next - last == min - top)
    ensures Profile(q + 2.0, min, top) == top
    ensures Profile(Sixths(q), min, top) == next
    ensures Profile(Sixths(q + 4.0), min, top) == last
    ensures Profile(6.0, min, top) == Profile(0.0, min, top)
  {
    assert (top - min) * (4.0 - (q + 4.0)) == -(next - last);
    if q == 1.0 {
      assert (top - min) * (4.0 - 3.0) == top - min;
    }
  }

  lemma Peak(top: real, next: real, last: real, min: real)
    requires min == Min(top, Min(next, last)) && min < top && next <= top && last <= top
    ensures var q := (next - last) / (top - min);
            && -1.0 <= q <= 1.0
            && Profile(q + 2.0, min, top) == top
            && Profile(Sixths(q), min, top) == next
            && Profile(Sixths(q + 4.0), min, top) == last
            && Profile(6.0, min, top) == Profile(0.0, min, top)
  {
    hide Profile, Sixths;
    Quotient(next - last, top - min);
    ProfileAroundPeak(top, next, last, min, (next - last) / (top - min));
  }

  /** The sextant and the three channels of a colour whose components are not all equal. */
  lemma Channels(c: Rgb, max: real, min: real)
    requires max == Max(c.r, Max(c.g, c.b)) && min == Min(c.r, Min(c.g, c.b)) && min < max
    ensures var q := Sextant(c, max, max - min);
            && -1.0 <= q <= 5.0
            && Profile(Sixths(q + 2.0), min, max) == c.r
            && Profile(Sixths(q), min, max) == c.g
            && Profile(Sixths(q - 2.0), min, max) == c.b
  {
    hide Profile;
    var q := Sextant(c, max, max - min);
    if c.r == max {
      Peak(c.r, c.g, c.b, min);
      PeakSextants(q, 0.0, min, max);
    } else if c.g == max {
      Peak(c.g, c.b, c.r, min);
      PeakSextants(q - 2.0, 2.0, min, max);
    } else {
      Peak(c.b, c.r, c.g, min);
      PeakSextants(q - 4.0, 4.0, min, max);
    }
  }

  /** Which sixths of the turn the three channels are read at, for a peak at each of them. */
  lemma PeakSextants(q: real, peak: real, min: real, max: real)
    requires -1.0 <= q <= 1.0 && Profile(6.0, min, max) == Profile(0.0, min, max)
    ensures var p := q + peak;
            && (peak == 0.0 ==> Sixths(p + 2.0) == q + 2.0 && Sixths(p - 2.0) == Sixths(q + 4.0))
            && (peak == 2.0 ==> Sixths(p + 2.0) == Sixths(q + 4.0) && Sixths(p) == q + 2.0
                                && Sixths(p - 2.0) == Sixths(q))
            && (peak == 4.0 ==> Profile(Sixths(p + 2.0), min, max) == Profile(Sixths(q), min, max)
                                && Sixths(p) == Sixths(q + 4.0) && Sixths(p - 2.0) == q + 2.0)
  {
    hide Profile;
  }

  lemma UnitRoundTrip(c: Rgb)
    requires IsUnit(c)
    ensures var hsl := UnitToHsl(c);
            InRange(hsl.h, 1.0) && InRange(hsl.s, 1.0) && InRange(hsl.l, 1.0) && HslToUnit(hsl) == c
    ensures c.r == c.g == c.b ==> UnitToHsl(c) == Hsl(0.0, 0.0, c.r)
  {
    hide Channel, Profile, Sextant, Saturation, Highest;
    var max, min := Max(c.r, Max(c.g, c.b)), Min(c.r, Min(c.g, c.b));
    if min < max {
      Extremes(max, min);
      Channels(c, max, min);
      var q := Sextant(c, max, max - min);
      ChannelAtSextant(q, 1.0, q + 2.0, min, max);
      ChannelAtSextant(q, 0.0, q, min, max);
      ChannelAtSextant(q, -1.0, q - 2.0, min, max);
    }
  }

  /** Converting a colour to HSL and back multiplies components in [0, 1] by 255, and gives
      components out of 255 back. */
  lemma RoundTrip(red: real, green: real, blue: real)
    requires InRange(red, 255.0) && InRange(green, 255.0) && InRange(blue, 255.0)
    ensures var c := RgbToHsl(red, green, blue);
            HslToRgb(c.h, c.s, c.l)
            == if red > 1.0 || green > 1.0 || blue > 1.0 then Rgb(red, green, blue)
               else Rgb(red * 255.0, green * 255.0, blue * 255.0)
  {
    hide UnitToHsl, HslToUnit;
    UnitRoundTrip(Scaled(red, green, blue));
  }

  // ----- What the conversion back means -----

  /** The channel of section 7.1 of CSS Color Module Level 4, n twelfths of a turn ahead. */
  function Reference(c: Hsl, n: real): real {
    var k := n + 12.0 * c.h - if n + 12.0 * c.h >= 12.0 then 12.0 else 0.0;
    var a := c.s * Min(c.l, 1.0 - c.l);
    c.l - a * Max(-1.0, Min(k - 3.0, Min(9.0 - k, 1.0)))
  }

  function Tent(p: real): real {
    if p < 1.0 then 1.0 - 2.0 * p else if p < 3.0 then -1.0 else if p < 4.0 then 2.0 * p - 7.0 else 1.0
  }

  lemma ProfileIsTent(p: real, l: real, a: real)
    ensures Profile(p, l - a, l + a) == l - a * Tent(p)
  {
    assert (l + a - (l - a)) * p == 2.0 * (a * p);
    assert (l + a - (l - a)) * (4.0 - p) == 8.0 * a - 2.0 * (a * p);
    assert a * (1.0 - 2.0 * p) == a - 2.0 * (a * p);
    assert a * (2.0 * p - 7.0) == 2.0 * (a * p) - 7.0 * a;
  }

  /** The same height in sixths of a turn: one of them is two of its twelfths, and they are four ahead. */
  lemma TentIsReference(c: Hsl, n: real, p: real)
    requires InRange(c.h, 1.0) && (n == 0.0 || n == 8.0 || n == 4.0)
    requires p == Sixths(6.0 * c.h + if n == 0.0 then 2.0 else if n == 8.0 then 0.0 else -2.0)
    ensures Reference(c, n) == c.l - c.s * Min(c.l, 1.0 - c.l) * Tent(p)
  {
    var k := n + 12.0 * c.h - if n + 12.0 * c.h >= 12.0 then 12.0 else 0.0;
    assert Max(-1.0, Min(k - 3.0, Min(9.0 - k, 1.0))) == Tent(p);
  }

  lemma ChannelIsReference(c: Hsl, shift: real, n: real)
    requires InRange(c.h, 1.0)
    requires (shift == 1.0 && n == 0.0) || (shift == 0.0 && n == 8.0) || (shift == -1.0 && n == 4.0)
    ensures var a := c.s * Min(c.l, 1.0 - c.l);
            Channel(c.h, shift, c.l - a, c.l + a) == Reference(c, n)
  {
    hide Reference, Profile, Tent, ChannelAt;
    var a, t3 := c.s * Min(c.l, 1.0 - c.l), Turned(c.h + shift / 3.0);
    assert 6.0 * t3 == Sixths(6.0 * c.h + 2.0 * shift);
    ChannelProfile(t3, c.l - a, c.l + a);
    ProfileIsTent(6.0 * t3, c.l, a);
    TentIsReference(c, n, 6.0 * t3);
  }

  /** `hsl2rgb` agrees with the reference, channel by channel. */
  lemma HslIsReference(c: Hsl)
    requires InRange(c.h, 1.0) && InRange(c.s, 1.0) && InRange(c.l, 1.0)
    ensures HslToUnit(c) == Rgb(Reference(c, 0.0), Reference(c, 8.0), Reference(c, 4.0))
  {
    hide Channel, Highest, Reference;
    var a := c.s * Min(c.l, 1.0 - c.l);
    if c.s == 0.0 {
      GreyReference(c);
    } else {
      HighestIsSum(c.l, c.s);
      var t2 := Highest(c.l, c.s);
      assert t2 == c.l + a && 2.0 * c.l - t2 == c.l - a;
      ChannelIsReference(c, 1.0, 0.0);
      ChannelIsReference(c, 0.0, 8.0);
      ChannelIsReference(c, -1.0, 4.0);
    }
  }

  lemma GreyReference(c: Hsl)
    requires c.s == 0.0
    ensures Reference(c, 0.0) == Reference(c, 8.0) == Reference(c, 4.0) == c.l
  {
  }

  lemma HighestIsSum(l: real, s: real)
    ensures Highest(l, s) == l + s * Min(l, 1.0 - l)
  {
    assert l * (1.0 + s) == l + s * l;
    assert s * (1.0 - l) == s - l * s;
  }

  /** A hue in degrees with percentages is the same colour. */
  lemma DegreesAndPercent(c: Hsl)
    requires InRange(c.h, 1.0) && InRange(c.s, 1.0) && InRange(c.l, 1.0)
    requires 360.0 * c.h > 1.0 || 100.0 * c.s > 1.0 || 100.0 * c.l > 1.0
    ensures HslToRgb(360.0 * c.h, 100.0 * c.s, 100.0 * c.l)
         == Rgb(255.0 * Reference(c, 0.0), 255.0 * Reference(c, 8.0), 255.0 * Reference(c, 4.0))
  {
    hide HslToUnit, Reference;
    HslIsReference(c);
    assert 360.0 * c.h / 360.0 == c.h && 100.0 * c.s / 100.0 == c.s && 100.0 * c.l / 100.0 == c.l;
  }
}
