/** The integer skeleton of the colour model and effects of transitons.c: the
    palette and its random draw, the ease-in-out interpolation, the rainbow hue
    accumulator and its six HSV sectors, the breathing frame sequence, the
    dissolve hold time and the dispatcher's choice of effect.
    Floating-point curves are parameters or are computed on reals. */
module Transitions {
  import opened Types

  const NumLeds := 5
  /** FADE_STEPS: a fade runs the steps 0..FadeSteps, i.e. FadeSteps + 1 frames. */
  const FadeSteps := 100
  const HoldMinMs := 1000
  const HoldMaxMs := 3000

  const White := Color(PwmMax, PwmMax, PwmMax)

  /** The palette size; the firmware draws and advances with `% 12`. */
  const PaletteSize := 12

  /** base_colors: the twelve palette entries. */
  const BaseColors: seq<Color> := [
    Color(4095, 0, 0), Color(4095, 1650, 0), Color(4095, 4095, 0), Color(0, 4095, 0),
    Color(0, 0, 4095), Color(75, 0, 130), Color(148, 0, 211), Color(4095, 2048, 0),
    Color(4095, 0, 2048), Color(2048, 4095, 0), Color(0, 4095, 2048), Color(0, 2048, 4095)
  ]

  predicate InGamut(c: Color)
  {
    c.r <= PwmMax && c.g <= PwmMax && c.b <= PwmMax
  }

  /** get_random_color for the random word `draw` (esp_random()). */
  function RandomColor(draw: nat): Color
  {
    BaseColors[draw % PaletteSize]
  }

  /** Every draw is a palette entry, hence within the 12-bit drive range. */
  lemma RandomColorInPalette(draw: nat)
    ensures RandomColor(draw) in BaseColors && InGamut(RandomColor(draw))
  {
  }

  /** Every palette entry is drawn by some random word: the word k draws entry k. */
  lemma EveryPaletteEntryDrawn(k: nat)
    requires k < PaletteSize
    ensures RandomColor(k) == BaseColors[k]
  {
  }

  /** The ease-in-out shaping of interpolate_easeInOut, on reals. */
  function EaseFactor(progress: real): real
  {
    if progress < 0.5 then 2.0 * progress * progress
    else -1.0 + (4.0 - 2.0 * progress) * progress
  }

  /** The factor starts at 0, ends at 1 and stays within [0, 1] in between
      (no clamping happens outside [0, 1]). */
  lemma EaseFactorBounds(progress: real)
    requires 0.0 <= progress <= 1.0
    ensures 0.0 <= EaseFactor(progress) <= 1.0
    ensures progress == 0.0 ==> EaseFactor(progress) == 0.0
    ensures progress == 1.0 ==> EaseFactor(progress) == 1.0
  {
    if progress >= 0.5 {
      var q := 1.0 - progress;
      assert EaseFactor(progress) == 1.0 - 2.0 * q * q;
      MulMono(q, 0.5, q);
    } else {
      MulMono(progress, 0.5, progress);
    }
  }

  lemma MulMono(a: real, b: real, c: real)
    requires 0.0 <= a <= b && 0.0 <= c
    ensures a * c <= b * c
  {
  }

  /** One channel: `start + (int)((end - start) * p)`, stored into a uint16. */
  function Lerp(start: u16, end: u16, factor: real): u16
  {
    (start + Trunc((end - start) as real * factor)) % 0x1_0000
  }

  /** interpolate_easeInOut: at progress 0 the start colour, at progress 1 the end
      colour, and a colour faded to itself stays put at any progress. */
  function Interpolate(start: Color, end: Color, progress: real): (c: Color)
    ensures progress == 0.0 ==> c == start
    ensures progress == 1.0 ==> c == end
    ensures start == end ==> c == start
  {
    var p := EaseFactor(progress);
    Color(Lerp(start.r, end.r, p), Lerp(start.g, end.g, p), Lerp(start.b, end.b, p))
  }

  predicate Between(x: int, a: int, b: int)
  {
    (a <= x <= b) || (b <= x <= a)
  }

  /** With a factor in [0, 1] each channel lands between its endpoints: the
      truncation never overshoots and the uint16 store never wraps. */
  lemma LerpBetween(start: u16, end: u16, factor: real)
    requires 0.0 <= factor <= 1.0
    ensures Between(Lerp(start, end, factor), start, end)
  {
    TruncScaled(end - start, factor);
    var t := Trunc((end - start) as real * factor);
    assert Between(start + t, start, end);
    assert 0 <= start + t < 0x1_0000;
    assert Lerp(start, end, factor) == start + t;
  }

  /** A fraction in [0, 1] of a whole number, truncated, lies between 0 and it. */
  lemma TruncScaled(n: int, factor: real)
    requires 0.0 <= factor <= 1.0
    ensures Between(Trunc(n as real * factor), 0, n)
  {
    ScaleBetween(n, factor);
    TruncWithin(n as real * factor, n);
  }

  /** Truncating a real between 0 and a whole number keeps it between them. */
  lemma TruncWithin(x: real, n: int)
    requires n >= 0 ==> 0.0 <= x <= n as real
    requires n < 0 ==> n as real <= x <= 0.0
    ensures Between(Trunc(x), 0, n)
  {
    var t := Trunc(x);
    if x < 0.0 {
      assert t as real - 1.0 < x <= t as real;
    } else {
      assert t as real <= x < t as real + 1.0;
    }
  }

  /** A fraction in [0, 1] of a whole number lies between 0 and that number. */
  lemma ScaleBetween(n: int, factor: real)
    requires 0.0 <= factor <= 1.0
    ensures n >= 0 ==> 0.0 <= n as real * factor <= n as real
    ensures n < 0 ==> n as real <= n as real * factor <= 0.0
  {
    if n >= 0 {
      MulMono(factor, 1.0, n as real);
    } else {
      MulMono(factor, 1.0, -(n as real));
    }
  }

  /** For progress within [0, 1] the interpolated colour lies channel-wise
      between the two endpoints; in particular it stays in gamut. */
  lemma InterpolateBetween(start: Color, end: Color, progress: real)
    requires 0.0 <= progress <= 1.0
    ensures var c := Interpolate(start, end, progress);
      Between(c.r, start.r, end.r) && Between(c.g, start.g, end.g) && Between(c.b, start.b, end.b)
    ensures InGamut(start) && InGamut(end) ==> InGamut(Interpolate(start, end, progress))
  {
    var p := EaseFactor(progress);
    EaseFactorBounds(progress);
    LerpBetween(start.r, end.r, p);
    LerpBetween(start.g, end.g, p);
    LerpBetween(start.b, end.b, p);
  }

  /** The colours of one fade, steps 0..FadeSteps at progress step / FadeSteps. */
  function Fade(from: Color, to: Color): (frames: seq<Color>)
    ensures |frames| == FadeSteps + 1
    ensures frames[0] == from && frames[FadeSteps] == to
  {
    seq(FadeSteps + 1, step requires 0 <= step <= FadeSteps =>
      Interpolate(from, to, step as real / FadeSteps as real))
  }

  // ---------------------------------------------------------------- rainbow

  /** One frame's advance of the static hue: +3 degrees, minus 360 once it reaches 360. */
  function NextHue(hue: int): int
  {
    if hue + 3 >= 360 then hue + 3 - 360 else hue + 3
  }

  /** The hue after `frames` rainbow frames; it never leaves [0, 360). */
  function HueAfter(hue: int, frames: nat): (h: int)
    requires 0 <= hue < 360
    ensures 0 <= h < 360
  {
    if frames == 0 then hue else NextHue(HueAfter(hue, frames - 1))
  }

  /** The hue after n frames is the start advanced by 3n degrees modulo 360. */
  lemma {:induction false} HueAfterIsModular(hue: int, frames: nat)
    requires 0 <= hue < 360
    ensures HueAfter(hue, frames) == (hue + 3 * frames) % 360
  {
    if frames > 0 {
      HueAfterIsModular(hue, frames - 1);
      NextHueMod(hue + 3 * (frames - 1));
    }
  }

  /** Advancing the residue advances the number. */
  lemma NextHueMod(a: int)
    requires a >= 0
    ensures NextHue(a % 360) == (a + 3) % 360
  {
  }

  /** Every 120 frames the hue is back where it started, and starting from 0 it
      is 0 again exactly after a multiple of 120 frames. */
  lemma HueCycle(hue: int, frames: nat)
    requires 0 <= hue < 360
    ensures HueAfter(hue, 120) == hue
    ensures HueAfter(0, frames) == 0 <==> frames % 120 == 0
  {
    HueAfterIsModular(hue, 120);
    HueAfterIsModular(0, frames);
    TripleMod(frames);
  }

  /** Three degrees a frame: 3n modulo 360 is three times n modulo 120. */
  lemma TripleMod(n: nat)
    ensures (3 * n) % 360 == 3 * (n % 120)
  {
    var q, r := n / 120, n % 120;
    assert 3 * n == 360 * q + 3 * r;
  }

  /** The hue of LED i: `(int)(hue + i * 60) % 360`. */
  function LedHue(hue: int, i: int): (h: int)
    requires 0 <= hue && 0 <= i
    ensures 0 <= h < 360
  {
    CRem(hue + i * 60, 360)
  }

  /** The fully lit level: `(c + m) * 4095` with c = 1 and m = 0. */
  const Full: u16 := PwmMax

  /** The six-sector HSV choice for hue h: one channel full, one dark and the
      third carrying the secondary component x. */
  function SectorColor(h: int, x: u16): Color
    requires 0 <= h < 360
  {
    if h < 60 then Color(Full, x, 0)
    else if h < 120 then Color(x, Full, 0)
    else if h < 180 then Color(0, Full, x)
    else if h < 240 then Color(0, x, Full)
    else if h < 300 then Color(x, 0, Full)
    else Color(Full, 0, x)
  }

  /** Whatever the sector, the three channels are one full, one dark and x. */
  lemma SectorChannels(h: int, x: u16)
    requires 0 <= h < 360
    ensures var c := SectorColor(h, x);
      multiset{c.r, c.g, c.b} == multiset{Full, 0, x}
  {
  }

  /** Channel k of a colour: 0 red, 1 green, 2 blue. */
  function Channel(c: Color, k: int): u16
  {
    if k == 0 then c.r else if k == 1 then c.g else c.b
  }

  /** Standard HSV: in sector s = h / 60 the full channel is ((s + 1) / 2) mod 3
      and the dark channel is (s / 2 + 2) mod 3; the remaining one carries x. */
  lemma SectorIsStandardHsv(h: int, x: u16)
    requires 0 <= h < 360
    ensures var s := h / 60;
      var full, dark := (s + 1) / 2 % 3, (s / 2 + 2) % 3;
      full != dark &&
      Channel(SectorColor(h, x), full) == Full &&
      Channel(SectorColor(h, x), dark) == 0 &&
      Channel(SectorColor(h, x), 3 - full - dark) == x
  {
  }

  /** The five LED colours of one rainbow frame; `secondary` stands for the float
      secondary component of each hue, already scaled to the drive range. */
  function RainbowFrame(hue: int, secondary: int -> u16): seq<Color>
    requires 0 <= hue
  {
    seq(NumLeds, i requires 0 <= i < NumLeds =>
      SectorColor(LedHue(hue, i), secondary(LedHue(hue, i))))
  }

  // -------------------------------------------------------------- breathing

  /** A float curve applied to one channel value at one step, truncated to uint16. */
  type Curve = (u16, nat) -> u16

  function Shade(curve: Curve, c: Color, step: nat): Color
  {
    Color(curve(c.r, step), curve(c.g, step), curve(c.b, step))
  }

  /** One breathing cycle of a colour: the rise over steps 0..100 through the
      `rise` curve, then the fall over steps 100..0 through the `fall` curve. */
  function BreathCycle(c: Color, rise: Curve, fall: Curve): (frames: seq<Color>)
    ensures |frames| == 2 * (FadeSteps + 1)
  {
    seq(2 * (FadeSteps + 1), w requires 0 <= w < 2 * (FadeSteps + 1) =>
      if w <= FadeSteps then Shade(rise, c, w) else Shade(fall, c, 2 * FadeSteps + 1 - w))
  }

  /** Advancing the palette index modulo 12 advances the count it was reduced from. */
  lemma PaletteStep(a: nat)
    ensures (a % PaletteSize + 1) % PaletteSize == (a + 1) % PaletteSize
  {
  }

  // -------------------------------------------------------------- dissolve

  /** The colours an LED shows in its dissolve cycle: a fade from its colour to
      white, then a fade from white to its new colour. */
  function DissolveCycle(from: Color, to: Color): seq<Color>
  {
    Fade(from, White) + Fade(White, to)
  }

  /** The hold after an LED's cycle: `HOLD_TIME_MIN_MS + esp_random() % (MAX - MIN)`. */
  function HoldMs(draw: nat): int
  {
    HoldMinMs + draw % (HoldMaxMs - HoldMinMs)
  }

  /** The hold takes exactly the values 1000..2999 ms: HOLD_TIME_MAX_MS itself is
      never reached. */
  lemma HoldMsRange(ms: int)
    ensures (exists draw: nat :: HoldMs(draw) == ms) <==> HoldMinMs <= ms < HoldMaxMs
  {
    if HoldMinMs <= ms < HoldMaxMs {
      assert HoldMs(ms - HoldMinMs) == ms;
    }
  }

  // ------------------------------------------------------------ dispatcher

  datatype Effect = Dissolve | Rainbow | Breathing

  /** apply_transition_by_mode's switch: any value other than 1 and 2 runs dissolve. */
  function EffectFor(mode: int): Effect
  {
    match mode
    case 0 => Dissolve
    case 1 => Rainbow
    case 2 => Breathing
    case _ => Dissolve
  }

  /** Rainbow runs exactly for mode 1, breathing exactly for mode 2. */
  lemma EffectForModes(mode: int)
    ensures EffectFor(mode) == Rainbow <==> mode == 1
    ensures EffectFor(mode) == Breathing <==> mode == 2
    ensures EffectFor(mode) == Dissolve <==> mode != 1 && mode != 2
  {
  }
}
