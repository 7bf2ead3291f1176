/**
  The HSL colour space of src/color/space/hsl.ts: the three clamp functions,
  the six-sector HSL to RGB encoder and the max/min/delta RGB to HSL decoder.
  The packing of an RGB triple into one number (RGBColorSpace) is not part of
  this model: `Encode` yields the triple that would be packed and `Decode`
  starts from the unpacked triple.
*/
module Hsl {
  import opened Js

  const MIN_H: real := 0.0
  const MAX_H: real := 360.0
  const MIN_S: real := 0.0
  const MAX_S: real := 1.0
  const MIN_L: real := 0.0
  const MAX_L: real := 1.0

  /** An HSL colour as handed to the encoder: components may be non-finite. */
  datatype HSL = HSL(h: Number, s: Number, l: Number, opacity: Number)

  /** An RGB triple with 8-bit channels (before packing / after unpacking). */
  datatype RGB = RGB(r: int, g: int, b: int, opacity: Number)

  predicate IsByte(v: int) {
    0 <= v <= 0xff
  }

  predicate IsByteTriple(c: RGB) {
    IsByte(c.r) && IsByte(c.g) && IsByte(c.b)
  }

  /** Three real channel values. */
  datatype Channels = Channels(r: real, g: real, b: real)

  // ---------------------------------------------------------------------------
  // Clamping

  /**
    `clampH`: non-finite hues become 0; a negative hue is shifted up by 360
    once and the result is reduced with JavaScript's `%`. Hues from -360
    upwards land in [0, 360). A hue below -360 lands in (-360, 0]: on 0 when
    it is a whole number of turns, below 0 otherwise.
  */
  function ClampH(value: Number): (r: real)
    ensures !value.Finite? ==> r == MIN_H
    ensures value.Finite? && value.value >= -MAX_H ==> MIN_H <= r < MAX_H
    ensures value.Finite? && value.value < -MAX_H ==> -MAX_H < r <= 0.0
    ensures value.Finite? && MIN_H <= value.value < MAX_H ==> r == value.value
    ensures value.Finite? && -MAX_H <= value.value < MIN_H ==> r == value.value + MAX_H
  {
    if !value.Finite? then MIN_H
    else
      var normalized := if value.value < MIN_H then value.value + MAX_H else value.value;
      Rem(normalized, MAX_H)
  }

  /** `clampS`: non-finite saturations become 0, others are clamped to [0, 1]. */
  function ClampS(value: Number): (r: real)
    ensures MIN_S <= r <= MAX_S
    ensures !value.Finite? ==> r == MIN_S
    ensures value.Finite? && MIN_S <= value.value <= MAX_S ==> r == value.value
  {
    if !value.Finite? then MIN_S else Clamp(value.value, MIN_S, MAX_S)
  }

  /** `clampL`: non-finite lightnesses become 0, others are clamped to [0, 1]. */
  function ClampL(value: Number): (r: real)
    ensures MIN_L <= r <= MAX_L
    ensures !value.Finite? ==> r == MIN_L
    ensures value.Finite? && MIN_L <= value.value <= MAX_L ==> r == value.value
  {
    if !value.Finite? then MIN_S else Clamp(value.value, MIN_L, MAX_L)
  }

  /** A whole turn does not change a clamped non-negative hue. */
  lemma ClampHPeriodic(v: real)
    requires v >= 0.0
    ensures ClampH(Finite(v + MAX_H)) == ClampH(Finite(v))
  {
    var q := v / MAX_H;
    assert (v + MAX_H) / MAX_H == q + 1.0;
    assert Trunc(q + 1.0) == Trunc(q) + 1;
  }

  // ---------------------------------------------------------------------------
  // Encoding

  /** The chroma `c` of the encoder. */
  function Chroma(s: real, l: real): real {
    (1.0 - Abs(2.0 * l - 1.0)) * s
  }

  /** The factor that turns `c` into the intermediate value `x`. */
  function SectorFactor(h: real): real {
    1.0 - Abs(Rem(h / 60.0, 2.0) - 1.0)
  }

  /** The branch selection of the encoder: which channel gets `c`, `x` or 0. */
  function SectorChannels(h: real, c: real, x: real): Channels {
    if 0.0 <= h < 60.0 then Channels(c, x, 0.0)
    else if 60.0 <= h < 120.0 then Channels(x, c, 0.0)
    else if 120.0 <= h < 180.0 then Channels(0.0, c, x)
    else if 180.0 <= h < 240.0 then Channels(0.0, x, c)
    else if 240.0 <= h < 300.0 then Channels(x, 0.0, c)
    else if 300.0 <= h < 360.0 then Channels(c, 0.0, x)
    else Channels(0.0, 0.0, 0.0)
  }

  /** `Math.round(v * 0xff)` */
  function ToByte(v: real): int {
    Round(v * 255.0)
  }

  /** The channel values of the encoder after `m` is added, before rounding. */
  function EncodeChannels(h: real, s: real, l: real): Channels {
    FromChroma(h, Chroma(s, l), l - Chroma(s, l) / 2.0)
  }

  /** The channels for hue `h`, chroma `c` and offset `m`, with `x = factor * c`. */
  function FromChroma(h: real, c: real, m: real): Channels {
    ShiftedChannels(SectorChannels(h, c, SectorFactor(h) * c), m)
  }

  /** Adds `m` to every channel. */
  function ShiftedChannels(ch: Channels, m: real): Channels {
    Channels(ch.r + m, ch.g + m, ch.b + m)
  }

  /**
    `HSLColorSpace.encode` up to the packing: every input, finite or not,
    yields three 8-bit channels, and the opacity is passed through.
  */
  function Encode(color: HSL): (rgb: RGB)
    ensures IsByteTriple(rgb)
    ensures rgb.opacity == color.opacity
  {
    var h := ClampH(color.h);
    var s := ClampS(color.s);
    var l := ClampL(color.l);
    var ch := EncodeChannels(h, s, l);
    EncodeChannelsInUnit(h, s, l);
    RGB(ToByte(ch.r), ToByte(ch.g), ToByte(ch.b), color.opacity)
  }

  lemma MulUnit(a: real, s: real)
    requires a >= 0.0 && 0.0 <= s <= 1.0
    ensures 0.0 <= a * s <= a
    ensures 0.0 <= s * a <= a
  {
    calc {
      a * s;
    <=
      a * 1.0;
    }
  }

  lemma SectorFactorUnit(h: real)
    requires h >= 0.0
    ensures 0.0 <= SectorFactor(h) <= 1.0
  {
  }

  /** Every channel before rounding lies in [0, 1], so every byte is in range. */
  lemma EncodeChannelsInUnit(h: real, s: real, l: real)
    requires 0.0 <= s <= 1.0 && 0.0 <= l <= 1.0
    ensures var ch := EncodeChannels(h, s, l);
      0.0 <= ch.r <= 1.0 && 0.0 <= ch.g <= 1.0 && 0.0 <= ch.b <= 1.0
    ensures var ch := EncodeChannels(h, s, l);
      IsByte(ToByte(ch.r)) && IsByte(ToByte(ch.g)) && IsByte(ToByte(ch.b))
  {
    ChannelsInUnit(h, s, l);
    var ch := EncodeChannels(h, s, l);
    ToByteInRange(ch.r);
    ToByteInRange(ch.g);
    ToByteInRange(ch.b);
  }

  lemma ChannelsInUnit(h: real, s: real, l: real)
    requires 0.0 <= s <= 1.0 && 0.0 <= l <= 1.0
    ensures var ch := EncodeChannels(h, s, l);
      0.0 <= ch.r <= 1.0 && 0.0 <= ch.g <= 1.0 && 0.0 <= ch.b <= 1.0
  {
    ChromaBounds(s, l);
    FromChromaInUnit(h, Chroma(s, l), l - Chroma(s, l) / 2.0);
  }

  lemma FromChromaInUnit(h: real, c: real, m: real)
    requires 0.0 <= c && 0.0 <= m && c + m <= 1.0
    ensures var ch := FromChroma(h, c, m);
      0.0 <= ch.r <= 1.0 && 0.0 <= ch.g <= 1.0 && 0.0 <= ch.b <= 1.0
  {
    ShiftedSectorInUnit(h, c, m);
  }

  /** `c` is at most the lightness span, so `m` and `c + m` stay in [0, 1]. */
  lemma ChromaBounds(s: real, l: real)
    requires 0.0 <= s <= 1.0 && 0.0 <= l <= 1.0
    ensures 0.0 <= Chroma(s, l)
    ensures 0.0 <= l - Chroma(s, l) / 2.0
    ensures Chroma(s, l) + (l - Chroma(s, l) / 2.0) <= 1.0
  {
    var span := 1.0 - Abs(2.0 * l - 1.0);
    MulUnit(span, s);
    OffsetBounds(span * s, span, l);
  }

  lemma OffsetBounds(c: real, span: real, l: real)
    requires 0.0 <= l <= 1.0 && span == 1.0 - Abs(2.0 * l - 1.0) && 0.0 <= c <= span
    ensures 0.0 <= l - c / 2.0 && c + (l - c / 2.0) <= 1.0
  {
  }

  lemma ShiftedSectorInUnit(h: real, c: real, m: real)
    requires 0.0 <= c && 0.0 <= m && c + m <= 1.0
    ensures var ch := SectorChannels(h, c, SectorFactor(h) * c);
      0.0 <= ch.r + m <= 1.0 && 0.0 <= ch.g + m <= 1.0 && 0.0 <= ch.b + m <= 1.0
  {
    if h >= 0.0 {
      SectorFactorUnit(h);
      MulUnit(c, SectorFactor(h));
      assert 0.0 <= SectorFactor(h) * c <= c;
    }
    SectorChannelsInUnit(h, c, SectorFactor(h) * c, m);
  }

  lemma SectorChannelsInUnit(h: real, c: real, x: real, m: real)
    requires 0.0 <= c && 0.0 <= m && c + m <= 1.0
    requires h >= 0.0 ==> 0.0 <= x <= c
    ensures var ch := SectorChannels(h, c, x);
      0.0 <= ch.r + m <= 1.0 && 0.0 <= ch.g + m <= 1.0 && 0.0 <= ch.b + m <= 1.0
  {
  }

  lemma ToByteInRange(v: real)
    requires 0.0 <= v <= 1.0
    ensures IsByte(ToByte(v))
  {
  }

  /**
    Within a turn, whatever the chroma `c`, intermediate value `x` and offset
    `m`: one channel gets `c`, one gets `x` and one gets 0, and then every
    channel gets `m`.
  */
  lemma EncodeSectorShares(h: real, c: real, x: real, m: real)
    requires MIN_H <= h < MAX_H
    ensures var ch := ShiftedChannels(SectorChannels(h, c, x), m);
      multiset{ch.r, ch.g, ch.b} == multiset{c + m, x + m, m}
  {
  }

  /** A saturation of 0 encodes to a grey whose channels are the lightness. */
  lemma EncodeGrey(color: HSL)
    requires ClampS(color.s) == 0.0
    ensures var rgb := Encode(color);
      rgb.r == rgb.g == rgb.b == ToByte(ClampL(color.l))
  {
  }

  /**
    A hue that `clampH` leaves negative (one below -360 that is not a whole
    number of turns) matches none of the six sectors, so the encoder yields
    a grey of the lightness offset `m`.
  */
  lemma EncodeNegativeHueIsGrey(color: HSL)
    requires ClampH(color.h) < MIN_H
    ensures var rgb := Encode(color);
      var c := Chroma(ClampS(color.s), ClampL(color.l));
      rgb.r == rgb.g == rgb.b == ToByte(ClampL(color.l) - c / 2.0)
  {
  }

  /** A hue of -400 degrees is clamped to -40 rather than to 320. */
  lemma ClampHBelowMinusTurnExample()
    ensures ClampH(Finite(-400.0)) == -40.0
  {
    assert Trunc(-40.0 / MAX_H) == 0;
  }

  /** A hue of -720 degrees, a whole number of turns, is clamped to 0. */
  lemma ClampHWholeTurnsExample()
    ensures ClampH(Finite(-720.0)) == 0.0
  {
    assert Trunc(-360.0 / MAX_H) == -1;
  }

  // ---------------------------------------------------------------------------
  // Decoding

  /** The hue formula of the decoder, before clamping; ties prefer r, then g. */
  function Hue(r: real, g: real, b: real): real {
    var max := Max3(r, g, b);
    var min := Min3(r, g, b);
    var delta := max - min;
    if delta == 0.0 then 0.0
    else if max == r then 60.0 * Rem((g - b) / delta, 6.0)
    else if max == g then 60.0 * ((b - r) / delta + 2.0)
    else 60.0 * ((r - g) / delta + 4.0)
  }

  /** The saturation formula of the decoder, before clamping. */
  function Saturation(delta: real, l: real): real
    requires delta != 0.0 ==> 0.0 < l < 1.0
  {
    if delta != 0.0 then delta / (1.0 - Abs(2.0 * l - 1.0)) else 0.0
  }

  /** `channel / 0xff` */
  function Unit(v: int): real {
    v as real / 255.0
  }

  /**
    `HSLColorSpace.decode` from the unpacked triple: the hue lands in
    [0, 360), saturation and lightness in [0, 1], the lightness is the mean of
    the largest and smallest channel, a grey has hue and saturation 0, and the
    opacity is passed through.
  */
  function Decode(rgb: RGB): (hsl: HSL)
    requires IsByteTriple(rgb)
    ensures hsl.h.Finite? && hsl.s.Finite? && hsl.l.Finite?
    ensures MIN_H <= hsl.h.value < MAX_H
    ensures MIN_S <= hsl.s.value <= MAX_S && MIN_L <= hsl.l.value <= MAX_L
    ensures var r, g, b := Unit(rgb.r), Unit(rgb.g), Unit(rgb.b);
      hsl.l.value == (Max3(r, g, b) + Min3(r, g, b)) / 2.0
    ensures rgb.r == rgb.g == rgb.b ==> hsl.h.value == 0.0 && hsl.s.value == 0.0
    ensures hsl.opacity == rgb.opacity
  {
    var r, g, b := Unit(rgb.r), Unit(rgb.g), Unit(rgb.b);
    var max := Max3(r, g, b);
    var min := Min3(r, g, b);
    var delta := max - min;
    var h := Hue(r, g, b);
    var l := (max + min) / 2.0;
    var s := Saturation(delta, l);
    HueAboveMinusTurn(r, g, b);
    HSL(Finite(ClampH(Finite(h))), Finite(ClampS(Finite(s))), Finite(ClampL(Finite(l))), rgb.opacity)
  }

  /** `-d <= a <= d` gives `-1 <= a / d <= 1` for a positive `d`. */
  lemma DivWithinOne(a: real, d: real)
    requires d > 0.0 && -d <= a <= d
    ensures -1.0 <= a / d <= 1.0
    ensures a == d ==> a / d == 1.0
    ensures a < d ==> a / d < 1.0
    ensures 0.0 <= a ==> 0.0 <= a / d
    ensures a < 0.0 ==> a / d < 0.0
    ensures -d < a ==> -1.0 < a / d
  {
    DivMul(a, d);
    if -d < a && a / d <= -1.0 {
      calc {
        a;
      ==
        d * (a / d);
      <=
        d * -1.0;
      }
      assert false;
    }
  }

  /** The raw hue is never below -360, so clamping puts it in [0, 360). */
  lemma HueAboveMinusTurn(r: real, g: real, b: real)
    ensures Hue(r, g, b) >= -MAX_H
  {
    var max := Max3(r, g, b);
    var min := Min3(r, g, b);
    var delta := max - min;
    if delta != 0.0 && max != r {
      if max == g {
        DivWithinOne(b - r, delta);
      } else {
        DivWithinOne(r - g, delta);
      }
    }
  }

  /**
    Channels that tie for the maximum give the same hue whichever of the tied
    branches is taken, so the priority r, g, b of the decoder is no choice.
  */
  lemma HueTieBreakAgrees(r: real, g: real, b: real)
    requires Max3(r, g, b) - Min3(r, g, b) != 0.0
    ensures var delta := Max3(r, g, b) - Min3(r, g, b);
      r == g == Max3(r, g, b) ==>
        ClampH(Finite(60.0 * Rem((g - b) / delta, 6.0))) == ClampH(Finite(60.0 * ((b - r) / delta + 2.0)))
    ensures var delta := Max3(r, g, b) - Min3(r, g, b);
      r == b == Max3(r, g, b) ==>
        ClampH(Finite(60.0 * Rem((g - b) / delta, 6.0))) == ClampH(Finite(60.0 * ((r - g) / delta + 4.0)))
    ensures var delta := Max3(r, g, b) - Min3(r, g, b);
      g == b == Max3(r, g, b) ==>
        ClampH(Finite(60.0 * ((b - r) / delta + 2.0))) == ClampH(Finite(60.0 * ((r - g) / delta + 4.0)))
  {
    var max := Max3(r, g, b);
    var min := Min3(r, g, b);
    var delta := max - min;
    if r == g == max {
      assert min == b && g - b == delta && b - r == -delta;
      DivSelf(delta);
    }
    if r == b == max {
      assert min == g && g - b == -delta && r - g == delta;
      DivSelf(delta);
    }
    if g == b == max {
      assert min == r && b - r == delta && r - g == -delta;
      DivSelf(delta);
    }
  }

  lemma DivSelf(d: real)
    requires d != 0.0
    ensures d / d == 1.0 && -d / d == -1.0
  {
  }

  // ---------------------------------------------------------------------------
  // Round trip

  /** On the rising half of a sector pair the factor is the offset `q` itself. */
  lemma FactorRising(h: real, q: real, j: nat)
    requires 0.0 <= q <= 1.0 && h == 60.0 * (q + 2.0 * j as real)
    ensures SectorFactor(h) == q
  {
    assert h / 60.0 == q + 2.0 * j as real;
    assert Trunc(h / 60.0 / 2.0) == j;
  }

  /** On the falling half the factor is `-q` for an offset `q` in [-1, 0). */
  lemma FactorFalling(h: real, q: real, j: nat)
    requires -1.0 <= q < 0.0 && j >= 1 && h == 60.0 * (q + 2.0 * j as real)
    ensures SectorFactor(h) == -q
  {
    assert h / 60.0 == q + 2.0 * j as real;
    assert Trunc(h / 60.0 / 2.0) == j - 1;
  }

  /** `Math.round(channel / 0xff * 0xff)` gives the channel back. */
  lemma ToByteUnit(v: int)
    ensures ToByte(Unit(v)) == v
  {
    assert Unit(v) * 255.0 == v as real;
  }

  /**
    Decoding and then encoding an RGB triple gives the triple back: the
    decoder's saturation makes the encoder's chroma equal to the channel
    spread, its lightness makes `m` the smallest channel, and its hue selects
    the sector that puts each channel back in its place.
  */
  lemma EncodeDecode(rgb: RGB)
    requires IsByteTriple(rgb)
    ensures Encode(Decode(rgb)) == rgb
  {
    var r, g, b := Unit(rgb.r), Unit(rgb.g), Unit(rgb.b);
    var max, min := Max3(r, g, b), Min3(r, g, b);
    var hsl := Decode(rgb);
    var h, s, l := hsl.h.value, hsl.s.value, hsl.l.value;
    assert h == ClampH(Finite(Hue(r, g, b)));
    assert l == (max + min) / 2.0;
    SaturationRecoversSpread(max, min);
    assert s == Saturation(max - min, l);
    assert Chroma(s, l) == max - min;
    assert l - Chroma(s, l) / 2.0 == min;
    assert FromChroma(h, max - min, min) == Channels(r, g, b) by {
      if max - min == 0.0 {
        assert r == g == b == min;
      } else if max == r {
        RedSectors(r, g, b, max, min);
      } else if max == g {
        GreenSectors(r, g, b, max, min);
      } else {
        BlueSectors(r, g, b, max, min);
      }
    }
    ToByteUnit(rgb.r);
    ToByteUnit(rgb.g);
    ToByteUnit(rgb.b);
  }

  /**
    For channels in [0, 1] the decoder's saturation lies in [0, 1] and the
    lightness span times it is the spread of the channels again.
  */
  lemma SaturationRecoversSpread(max: real, min: real)
    requires 0.0 <= min <= max <= 1.0
    ensures var l := (max + min) / 2.0;
      (max - min != 0.0 ==> 0.0 < l < 1.0) &&
      0.0 <= Saturation(max - min, l) <= 1.0 &&
      Chroma(Saturation(max - min, l), l) == max - min
  {
    var l := (max + min) / 2.0;
    var delta := max - min;
    if delta != 0.0 {
      var span := 1.0 - Abs(2.0 * l - 1.0);
      assert 0.0 < delta <= span;
      DivWithinOne(delta, span);
      DivMul(delta, span);
    }
  }

  /** Red is largest: the hue is 60 q, or 60 q + 360 for a negative q. */
  lemma RedSectors(r: real, g: real, b: real, max: real, min: real)
    requires max == Max3(r, g, b) == r && min == Min3(r, g, b) && max - min > 0.0
    ensures FromChroma(ClampH(Finite(Hue(r, g, b))), max - min, min) == Channels(r, g, b)
  {
    var delta := max - min;
    var q := (g - b) / delta;
    assert -1.0 <= q <= 1.0 && (q >= 0.0 <==> g >= b) by {
      DivWithinOne(g - b, delta);
    }
    assert q * delta == g - b by {
      DivMul(g - b, delta);
    }
    assert Hue(r, g, b) == 60.0 * q;
    if q >= 0.0 {
      assert ClampH(Finite(60.0 * q)) == 60.0 * q;
      SectorsRising(60.0 * q, q, 0, delta, min, Channels(r, g, b));
    } else {
      assert ClampH(Finite(60.0 * q)) == 60.0 * q + 360.0;
      SectorsFalling(60.0 * q + 360.0, q, 3, delta, min, Channels(r, g, b));
    }
  }

  /** Green is largest and red is not: the hue is 60 (q + 2). */
  lemma GreenSectors(r: real, g: real, b: real, max: real, min: real)
    requires max == Max3(r, g, b) == g != r && min == Min3(r, g, b) && max - min > 0.0
    ensures FromChroma(ClampH(Finite(Hue(r, g, b))), max - min, min) == Channels(r, g, b)
  {
    var delta := max - min;
    var q := (b - r) / delta;
    assert -1.0 <= q <= 1.0 && (q >= 0.0 <==> b >= r) by {
      DivWithinOne(b - r, delta);
    }
    assert q * delta == b - r by {
      DivMul(b - r, delta);
    }
    assert Hue(r, g, b) == 60.0 * (q + 2.0);
    assert ClampH(Finite(60.0 * (q + 2.0))) == 60.0 * (q + 2.0);
    if q >= 0.0 {
      SectorsRising(60.0 * (q + 2.0), q, 1, delta, min, Channels(r, g, b));
    } else {
      SectorsFalling(60.0 * (q + 2.0), q, 1, delta, min, Channels(r, g, b));
    }
  }

  /** Blue is largest and neither red nor green is: the hue is 60 (q + 4). */
  lemma BlueSectors(r: real, g: real, b: real, max: real, min: real)
    requires max == Max3(r, g, b) == b != r && g != max && min == Min3(r, g, b) && max - min > 0.0
    ensures FromChroma(ClampH(Finite(Hue(r, g, b))), max - min, min) == Channels(r, g, b)
  {
    var delta := max - min;
    var q := (r - g) / delta;
    assert -1.0 <= q <= 1.0 && (q >= 0.0 <==> r >= g) by {
      DivWithinOne(r - g, delta);
    }
    assert q * delta == r - g by {
      DivMul(r - g, delta);
    }
    assert Hue(r, g, b) == 60.0 * (q + 4.0);
    assert ClampH(Finite(60.0 * (q + 4.0))) == 60.0 * (q + 4.0);
    if q >= 0.0 {
      SectorsRising(60.0 * (q + 4.0), q, 2, delta, min, Channels(r, g, b));
    } else {
      SectorsFalling(60.0 * (q + 4.0), q, 2, delta, min, Channels(r, g, b));
    }
  }

  /**
    A hue on the rising half of a sector pair: the encoder rebuilds `want`
    when its channels are what the sector gives with `x = q * c`.
  */
  lemma SectorsRising(h: real, q: real, j: nat, c: real, min: real, want: Channels)
    requires 0.0 <= q <= 1.0 && h == 60.0 * (q + 2.0 * j as real)
    requires ShiftedChannels(SectorChannels(h, c, q * c), min) == want
    ensures FromChroma(h, c, min) == want
  {
    FactorRising(h, q, j);
    assert FromChroma(h, c, min) == ShiftedChannels(SectorChannels(h, c, SectorFactor(h) * c), min);
    SameIntermediate(h, c, min, SectorFactor(h), q);
  }

  lemma SectorsFalling(h: real, q: real, j: nat, c: real, min: real, want: Channels)
    requires -1.0 <= q < 0.0 && j >= 1 && h == 60.0 * (q + 2.0 * j as real)
    requires ShiftedChannels(SectorChannels(h, c, -q * c), min) == want
    ensures FromChroma(h, c, min) == want
  {
    FactorFalling(h, q, j);
    assert FromChroma(h, c, min) == ShiftedChannels(SectorChannels(h, c, SectorFactor(h) * c), min);
    SameIntermediate(h, c, min, SectorFactor(h), -q);
  }

  /** Equal factors give equal intermediate values, and so equal channels. */
  lemma SameIntermediate(h: real, c: real, m: real, f: real, g: real)
    requires f == g
    ensures ShiftedChannels(SectorChannels(h, c, f * c), m) == ShiftedChannels(SectorChannels(h, c, g * c), m)
  {
  }
}
