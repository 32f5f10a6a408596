/** The effect loops and the dispatcher of transitons.c, run against the board.

    The button task runs at a higher priority than the animation task, so the
    events it receives are handled while an effect sleeps. Each vTaskDelay of an
    effect is therefore a Pause that hands the next entry of a script of arrived
    events to the button task. Past the end of the script no more events arrive,
    and the effects' open-ended outer loops stop there: the model follows a run
    for as long as the script describes its environment.

    Every effect is specified by the list of steps it runs (module Runs): the
    board ends in the control state of that run, and its bus log grows by
    exactly the run's frames, each written at the tier in force at the time. */
module Effects {
  import opened Types
  import opened Globals
  import opened Transitions
  import opened Runs
  import MainApp
  import Buttons

  /** vTaskDelay: the button task handles what arrived in the meantime. */
  method Pause(s: Board, script: seq<seq<int>>, k: nat) returns (next: nat)
    requires s.Valid()
    modifies s`transitionMode, s`ledOn, s`brightnessLevel, s`modeChanged, s`bus
    ensures s.Valid() && next == k + 1
    ensures s.State() == Buttons.HandleAll(old(s.State()), Arrivals(script, k))
    ensures s.bus == old(s.bus) + Buttons.ButtonWrites(old(s.State()), Arrivals(script, k))
    ensures Ran(s, old(s.State()), old(s.bus), [[]], script, k)
  {
    ghost var c0, bus0 := s.State(), s.bus;
    Buttons.ButtonTask(s, Arrivals(script, k));
    next := k + 1;
    DelayedOnly(c0, bus0, script, k);
  }

  /** One frame: LED i shows cs[i], for every LED in index order. */
  method ShowFrame(s: Board, cs: seq<Color>)
    requires s.Valid() && |cs| == NumLeds
    modifies s`bus
    ensures s.bus == old(s.bus) + WriteFrames(AllLeds(cs), s.brightnessLevel)
  {
    hide MainApp.RgbFrames;
    for i := 0 to NumLeds
      invariant s.bus == old(s.bus) + WriteFrames(AllLeds(cs[..i]), s.brightnessLevel)
    {
      MainApp.SetRgbLed(s, i, cs[i].r, cs[i].g, cs[i].b);
      AllLedsNext(cs, i);
      WriteFramesSnoc(AllLeds(cs[..i]), LedWrite(i as u8, cs[i]), s.brightnessLevel);
    }
    assert cs[..NumLeds] == cs;
  }

  /** One frame of one colour on every LED, then a delay. */
  method ShowAndPause(s: Board, c: Color, script: seq<seq<int>>, k: nat) returns (next: nat)
    requires s.Valid()
    modifies s`transitionMode, s`ledOn, s`brightnessLevel, s`modeChanged, s`bus
    ensures s.Valid() && next == k + 1
    ensures Ran(s, old(s.State()), old(s.bus), [AllLeds(Uniform(c))], script, k)
  {
    ghost var c0, bus0 := s.State(), s.bus;
    ShowFrame(s, Uniform(c));
    next := Pause(s, script, k);
    Delayed(c0, bus0, AllLeds(Uniform(c)), script, k);
  }

  /** The steps of one breathing colour and of one dissolve LED cycle: 101
      frames one way, 101 frames back, each followed by a delay, then the hold. */
  const CycleLen := 203

  lemma CycleLenSteps()
    ensures CycleLen == 2 * (FadeSteps + 1) + 1
  {
  }

  // ---------------------------------------------------------------- rainbow

  /** The steps of a rainbow run from `hue`: frame f shows the rainbow frame at
      the hue reached after f frames. */
  function RainbowSteps(hue: int, frames: nat, secondary: int -> u16): (steps: seq<seq<LedWrite>>)
    requires 0 <= hue < 360
    ensures |steps| == frames
  {
    seq(frames, f requires 0 <= f < frames => AllLeds(RainbowFrame(HueAfter(hue, f), secondary)))
  }

  /** A rainbow run one frame longer ends with the frame at the hue reached. */
  lemma RainbowStepsNext(hue: int, frames: nat, secondary: int -> u16)
    requires 0 <= hue < 360
    ensures RainbowSteps(hue, frames + 1, secondary)
      == RainbowSteps(hue, frames, secondary) + [AllLeds(RainbowFrame(HueAfter(hue, frames), secondary))]
  {
  }

  /** The rainbow repeats itself every 120 frames. */
  lemma RainbowRepeats(hue: int, frames: nat, secondary: int -> u16, f: nat)
    requires 0 <= hue < 360 && f + 120 < frames
    ensures RainbowSteps(hue, frames, secondary)[f + 120] == RainbowSteps(hue, frames, secondary)[f]
  {
    HueAfterIsModular(hue, f);
    HueAfterIsModular(hue, f + 120);
    assert hue + 3 * (f + 120) == (hue + 3 * f) + 360;
    FullTurn(hue + 3 * f);
    assert HueAfter(hue, f + 120) == HueAfter(hue, f);
  }

  lemma FullTurn(x: int)
    ensures (x + 360) % 360 == x % 360
  {
  }

  /** Every step started with the power on and in the given mode. */
  predicate PoweredInMode(before: seq<Controls>, mode: int)
  {
    forall f :: 0 <= f < |before| ==> before[f].ledOn && before[f].mode == mode
  }

  /** One rainbow frame at the current hue (the loop body over the LEDs). */
  method ShowRainbowFrame(s: Board, secondary: int -> u16)
    requires s.Valid()
    modifies s`bus
    ensures s.bus == old(s.bus) + WriteFrames(AllLeds(RainbowFrame(s.hue, secondary)), s.brightnessLevel)
  {
    hide MainApp.RgbFrames;
    ghost var frame := RainbowFrame(s.hue, secondary);
    for i := 0 to NumLeds
      invariant s.bus == old(s.bus) + WriteFrames(AllLeds(frame[..i]), s.brightnessLevel)
    {
      var h := LedHue(s.hue, i);
      var c := SectorColor(h, secondary(h));
      assert c == frame[i];
      MainApp.SetRgbLed(s, i, c.r, c.g, c.b);
      AllLedsNext(frame, i);
      WriteFramesSnoc(AllLeds(frame[..i]), LedWrite(i as u8, c), s.brightnessLevel);
    }
    assert frame[..NumLeds] == frame;
  }

  /** One pass of the rainbow loop: show the frame at the current hue, advance
      the hue by 3 degrees with its wrap at 360, then delay. */
  method RainbowStep(s: Board, secondary: int -> u16, script: seq<seq<int>>, k: nat) returns (next: nat)
    requires s.Valid()
    modifies s`transitionMode, s`ledOn, s`brightnessLevel, s`modeChanged, s`bus, s`hue
    ensures s.Valid() && next == k + 1
    ensures s.hue == NextHue(old(s.hue))
    ensures Ran(s, old(s.State()), old(s.bus), [AllLeds(RainbowFrame(old(s.hue), secondary))], script, k)
  {
    ghost var c0, bus0, ws := s.State(), s.bus, AllLeds(RainbowFrame(s.hue, secondary));
    ShowRainbowFrame(s, secondary);
    s.hue := s.hue + 3;
    if s.hue >= 360 {
      s.hue := s.hue - 360;
    }
    next := Pause(s, script, k);
    Delayed(c0, bus0, ws, script, k);
  }

  /** rainbow_transition_mode. It checks only the power flag and the mode, once
      per frame: it runs the frames of the hue sequence from the static hue, each
      started with the power on and the mode still 1, and returns early only when
      one of those two no longer holds. The static hue is left where the run got. */
  method RainbowLoop(s: Board, secondary: int -> u16, script: seq<seq<int>>, k0: nat)
    returns (k: nat, frames: nat)
    requires s.Valid()
    modifies s`transitionMode, s`ledOn, s`brightnessLevel, s`modeChanged, s`bus, s`hue
    ensures s.Valid() && k == k0 + frames
    ensures s.hue == HueAfter(old(s.hue), frames)
    ensures Ran(s, old(s.State()), old(s.bus), RainbowSteps(old(s.hue), frames, secondary), script, k0)
    ensures PoweredInMode(Steps(old(s.State()), RainbowSteps(old(s.hue), frames, secondary), script, k0).before, 1)
    ensures k < |script| ==> !s.ledOn || s.transitionMode != 1
  {
    ghost var c0, bus0, hue0 := s.State(), s.bus, s.hue;
    k, frames := k0, 0;
    Stay(c0, bus0, script, k0);
    while s.ledOn && s.transitionMode == 1 && k < |script|
      invariant s.Valid() && k == k0 + frames
      invariant s.hue == HueAfter(hue0, frames)
      invariant Ran(s, c0, bus0, RainbowSteps(hue0, frames, secondary), script, k0)
      invariant PoweredInMode(Steps(c0, RainbowSteps(hue0, frames, secondary), script, k0).before, 1)
      decreases |script| - k
    {
      ghost var c1, bus1, kb := s.State(), s.bus, k;
      ghost var done, ws := RainbowSteps(hue0, frames, secondary), AllLeds(RainbowFrame(s.hue, secondary));
      k := RainbowStep(s, secondary, script, k);
      Chain(c0, bus0, done, c1, bus1, [ws], s.State(), s.bus, script, k0, kb);
      RainbowStepsNext(hue0, frames, secondary);
      frames := frames + 1;
    }
  }

  // -------------------------------------------------------------- breathing

  /** The steps of one colour of breathing: the 202 frames of its cycle on every
      LED, each followed by a delay, then the 300 ms hold. */
  function BreathRun(color: Color, rise: Curve, fall: Curve): (steps: seq<seq<LedWrite>>)
    ensures |steps| == CycleLen
  {
    Solid(BreathCycle(color, rise, fall)) + [[]]
  }

  /** Colour c of a breathing run from palette index idx: palette entry idx + c
      (mod 12), since the index advances once per complete colour. */
  function BreathOf(idx: int, rise: Curve, fall: Curve): nat -> seq<seq<LedWrite>>
    requires 0 <= idx < PaletteSize
  {
    (c: nat) => BreathRun(BaseColors[(idx + c) % PaletteSize], rise, fall)
  }

  lemma BreathOfLength(idx: int, rise: Curve, fall: Curve)
    requires 0 <= idx < PaletteSize
    ensures forall c: nat :: |BreathOf(idx, rise, fall)(c)| == CycleLen
  {
    forall c: nat
      ensures |BreathOf(idx, rise, fall)(c)| == CycleLen
    {
      var run := BreathRun(BaseColors[(idx + c) % PaletteSize], rise, fall);
      assert BreathOf(idx, rise, fall)(c) == run;
    }
  }

  /** The steps of `cycles` complete colours of breathing from palette index idx. */
  function BreathSteps(idx: int, cycles: nat, rise: Curve, fall: Curve): (steps: seq<seq<LedWrite>>)
    requires 0 <= idx < PaletteSize
    ensures |steps| == CycleLen * cycles
  {
    BreathOfLength(idx, rise, fall);
    ChunksLength(BreathOf(idx, rise, fall), CycleLen, 0, cycles);
    Chunks(BreathOf(idx, rise, fall), 0, cycles)
  }

  /** Colour c of a breathing run sits at steps 203c..203c+202 and shows palette
      entry idx + c (mod 12). */
  lemma BreathStepsCycle(idx: int, cycles: nat, rise: Curve, fall: Curve, c: nat)
    requires 0 <= idx < PaletteSize && c < cycles
    ensures BreathSteps(idx, cycles, rise, fall)[CycleLen * c .. CycleLen * c + CycleLen]
        == BreathRun(BaseColors[(idx + c) % PaletteSize], rise, fall)
  {
    hide BreathRun;
    BreathOfLength(idx, rise, fall);
    ChunkAt(BreathOf(idx, rise, fall), CycleLen, 0, cycles, c);
  }

  /** The board went from c0 with bus log bus0 through `steps` to c1 with bus
      log bus1, writing no frame in a step that started with the cancel flag up. */
  ghost predicate Breathed(c0: Controls, bus0: seq<Frame>, steps: seq<seq<LedWrite>>, script: seq<seq<int>>,
                           k0: nat, c1: Controls, bus1: seq<Frame>)
  {
    Reaches(c0, bus0, steps, script, k0, c1, bus1) && Steps(c0, steps, script, k0).late == 0
  }

  /** One more step of a run, which writes only if it started with the cancel
      flag down. */
  lemma BreathedNext(c0: Controls, bus0: seq<Frame>, pre: seq<seq<LedWrite>>, run: seq<seq<LedWrite>>, i: nat, n: nat,
                     c1: Controls, bus1: seq<Frame>, c2: Controls, bus2: seq<Frame>,
                     script: seq<seq<int>>, k0: nat, k1: nat)
    requires i < |run| && n == i + 1 && k1 == k0 + |pre| + i
    requires Breathed(c0, bus0, pre + run[..i], script, k0, c1, bus1)
    requires Reaches(c1, bus1, [run[i]], script, k1, c2, bus2)
    requires run[i] != [] ==> !c1.modeChanged
    ensures Breathed(c0, bus0, pre + run[..n], script, k0, c2, bus2)
  {
    var done := pre + run[..i];
    Chain(c0, bus0, done, c1, bus1, [run[i]], c2, bus2, script, k0, k1);
    Delayed(c1, bus1, run[i], script, k1);
    ExtendPrefix(pre, run, i);
  }

  /** The rising half of a breathing colour, steps 0..FadeSteps, continuing a run
      `pre`. Before each frame the cancel flag is checked; when it is up the phase
      stops (`cancelled`). It is entered with the flag down, so at least one frame
      is shown. */
  method BreathRise(s: Board, color: Color, rise: Curve, fall: Curve, script: seq<seq<int>>, k0: nat,
                    ghost c0: Controls, ghost bus0: seq<Frame>, ghost pre: seq<seq<LedWrite>>, ghost kStart: nat)
    returns (k: nat, cancelled: bool)
    requires s.Valid() && !s.modeChanged && k0 == kStart + |pre|
    requires Breathed(c0, bus0, pre, script, kStart, s.State(), s.bus)
    modifies s`transitionMode, s`ledOn, s`brightnessLevel, s`modeChanged, s`bus
    ensures s.Valid() && k0 < k <= k0 + FadeSteps + 1
    ensures cancelled ==> s.modeChanged && k < k0 + FadeSteps + 1
    ensures !cancelled ==> k == k0 + FadeSteps + 1
    ensures Breathed(c0, bus0, pre + BreathRun(color, rise, fall)[..k - k0], script, kStart, s.State(), s.bus)
  {
    ghost var run := BreathRun(color, rise, fall);
    k, cancelled := k0, false;
    assert pre + run[..k - k0] == pre;
    for step := 0 to FadeSteps + 1
      invariant s.Valid() && k == k0 + step
      invariant step == 0 ==> !s.modeChanged
      invariant Breathed(c0, bus0, pre + run[..k - k0], script, kStart, s.State(), s.bus)
    {
      if s.modeChanged {
        cancelled := true;
        return;
      }
      var c := Shade(rise, color, step);
      ghost var c1, bus1, kb := s.State(), s.bus, k;
      k := ShowAndPause(s, c, script, k);
      assert run[kb - k0] == AllLeds(Uniform(c));
      BreathedNext(c0, bus0, pre, run, kb - k0, k - k0, c1, bus1, s.State(), s.bus, script, kStart, kb);
    }
  }

  /** The falling half of a breathing colour, steps FadeSteps down to 0, with the
      same check before each frame, continuing a run `pre` followed by the rise,
      the colour having started at kRun. */
  method BreathFall(s: Board, color: Color, rise: Curve, fall: Curve, script: seq<seq<int>>, k0: nat,
                    ghost c0: Controls, ghost bus0: seq<Frame>, ghost pre: seq<seq<LedWrite>>, ghost kStart: nat,
                    ghost kRun: nat)
    returns (k: nat, cancelled: bool)
    requires s.Valid() && kRun == kStart + |pre| && k0 == kRun + FadeSteps + 1
    requires Breathed(c0, bus0, pre + BreathRun(color, rise, fall)[..k0 - kRun], script, kStart, s.State(), s.bus)
    modifies s`transitionMode, s`ledOn, s`brightnessLevel, s`modeChanged, s`bus
    ensures s.Valid() && k0 <= k <= k0 + FadeSteps + 1
    ensures cancelled ==> s.modeChanged && k < k0 + FadeSteps + 1
    ensures !cancelled ==> k == k0 + FadeSteps + 1
    ensures Breathed(c0, bus0, pre + BreathRun(color, rise, fall)[..k - kRun], script, kStart, s.State(), s.bus)
  {
    ghost var run := BreathRun(color, rise, fall);
    k, cancelled := k0, false;
    for step := FadeSteps + 1 downto 0
      invariant s.Valid() && k == k0 + (FadeSteps + 1 - step)
      invariant Breathed(c0, bus0, pre + run[..k - kRun], script, kStart, s.State(), s.bus)
    {
      if s.modeChanged {
        cancelled := true;
        return;
      }
      var c := Shade(fall, color, step);
      ghost var c1, bus1, kb := s.State(), s.bus, k;
      k := ShowAndPause(s, c, script, k);
      assert run[kb - kRun] == AllLeds(Uniform(c));
      BreathedNext(c0, bus0, pre, run, kb - kRun, k - kRun, c1, bus1, s.State(), s.bus, script, kStart, kb);
    }
  }

  /** One colour of breathing_loop_transition, continuing a run `pre`: the rise,
      the fall and the 300 ms hold. It stops at the first frame that finds the
      cancel flag up, having run a proper prefix of the colour's steps that ends
      in a frame; otherwise it runs them all. */
  method BreathColor(s: Board, color: Color, rise: Curve, fall: Curve, script: seq<seq<int>>, k0: nat,
                     ghost c0: Controls, ghost bus0: seq<Frame>, ghost pre: seq<seq<LedWrite>>, ghost kStart: nat)
    returns (k: nat, cancelled: bool)
    requires s.Valid() && !s.modeChanged && k0 == kStart + |pre|
    requires Breathed(c0, bus0, pre, script, kStart, s.State(), s.bus)
    modifies s`transitionMode, s`ledOn, s`brightnessLevel, s`modeChanged, s`bus
    ensures s.Valid() && k0 < k <= k0 + CycleLen
    ensures cancelled ==> s.modeChanged && k < k0 + 2 * (FadeSteps + 1)
    ensures !cancelled ==> k == k0 + CycleLen
    ensures Breathed(c0, bus0, pre + BreathRun(color, rise, fall)[..k - k0], script, kStart, s.State(), s.bus)
  {
    k, cancelled := BreathRise(s, color, rise, fall, script, k0, c0, bus0, pre, kStart);
    if cancelled {
      return;
    }
    k, cancelled := BreathFall(s, color, rise, fall, script, k, c0, bus0, pre, kStart, k0);
    if cancelled {
      return;
    }
    ghost var run := BreathRun(color, rise, fall);
    ghost var c2, bus2, k2 := s.State(), s.bus, k;
    k := Pause(s, script, k);
    assert run[k2 - k0] == [];
    BreathedNext(c0, bus0, pre, run, k2 - k0, k - k0, c2, bus2, s.State(), s.bus, script, kStart, k2);
  }

  /** breathing_loop_transition. It checks the cancel flag before every frame and
      at the top of every colour, so no frame is written in a step that started
      with the flag up, and it returns as soon as it sees the flag. It runs the
      steps of complete colours through the palette from the static index, then
      part of the next colour, which it breaks off only on the cancel flag; the
      static index ends advanced once per complete colour. */
  method BreathingLoop(s: Board, rise: Curve, fall: Curve, script: seq<seq<int>>, k0: nat)
    returns (k: nat, cycles: nat)
    requires s.Valid()
    modifies s`transitionMode, s`ledOn, s`brightnessLevel, s`modeChanged, s`bus, s`colorIdx
    ensures s.Valid()
    ensures s.colorIdx == (old(s.colorIdx) + cycles) % PaletteSize
    ensures CycleLen * cycles <= k - k0 < CycleLen * cycles + CycleLen
    ensures Breathed(old(s.State()), old(s.bus), BreathSteps(old(s.colorIdx), cycles + 1, rise, fall)[..k - k0],
                     script, k0, s.State(), s.bus)
    ensures k - k0 > CycleLen * cycles ==> s.modeChanged
    ensures k < |script| ==> !s.ledOn || s.modeChanged || s.transitionMode != 2
  {
    // The run is reasoned about through the lemmas below only.
    hide Breathed, BreathSteps;
    ghost var c0, bus0, idx0 := s.State(), s.bus, s.colorIdx;
    k, cycles := k0, 0;
    Stay(c0, bus0, script, k0);
    BreathedWhole(c0, bus0, idx0, 0, rise, fall, script, k0, 0, c0, bus0);
    while s.ledOn && s.transitionMode == 2 && k < |script|
      invariant s.Valid() && s.colorIdx == PaletteAt(idx0, cycles)
      invariant k == k0 + CycleLen * cycles
      invariant Breathed(c0, bus0, BreathSteps(idx0, cycles + 1, rise, fall)[..k - k0], script, k0, s.State(), s.bus)
      decreases |script| - k
    {
      if !s.ledOn || s.modeChanged || s.transitionMode != 2 {
        break;
      }
      var cancelled;
      PaletteAtIs(idx0, cycles);
      k, cancelled := BreathNextColor(s, rise, fall, script, k, c0, bus0, idx0, cycles, k0);
      if cancelled {
        break;
      }
      s.colorIdx := (s.colorIdx + 1) % PaletteSize;
      cycles := cycles + 1;
    }
    PaletteAtIs(idx0, cycles);
  }

  /** The static palette index after n complete colours from idx, advanced one
      colour at a time as the loop does. */
  function PaletteAt(idx: int, n: nat): int
  {
    if n == 0 then idx else (PaletteAt(idx, n - 1) + 1) % PaletteSize
  }

  /** Advancing n times is adding n, mod 12. */
  lemma {:induction false} PaletteAtIs(idx: int, n: nat)
    requires 0 <= idx < PaletteSize
    ensures PaletteAt(idx, n) == (idx + n) % PaletteSize
  {
    if n > 0 {
      PaletteAtIs(idx, n - 1);
      PaletteStep(idx + n - 1);
    }
  }

  /** The colour after `cycles` complete colours of a breathing run from palette
      index idx0 (the static index now being idx0 + cycles, mod 12): its steps
      extend the run, all of them unless the cancel flag stopped it first. */
  method BreathNextColor(s: Board, rise: Curve, fall: Curve, script: seq<seq<int>>, k: nat,
                         ghost c0: Controls, ghost bus0: seq<Frame>, ghost idx0: int, ghost cycles: nat, ghost k0: nat)
    returns (next: nat, cancelled: bool)
    requires s.Valid() && !s.modeChanged && 0 <= idx0 < PaletteSize
    requires s.colorIdx == (idx0 + cycles) % PaletteSize
    requires k == k0 + CycleLen * cycles
    requires Breathed(c0, bus0, BreathSteps(idx0, cycles + 1, rise, fall)[..k - k0], script, k0, s.State(), s.bus)
    modifies s`transitionMode, s`ledOn, s`brightnessLevel, s`modeChanged, s`bus
    ensures s.Valid() && k < next <= k + CycleLen
    ensures cancelled ==> s.modeChanged && next < k + 2 * (FadeSteps + 1)
    ensures cancelled ==> Breathed(c0, bus0, BreathSteps(idx0, cycles + 1, rise, fall)[..next - k0], script, k0,
                                   s.State(), s.bus)
    ensures !cancelled ==> next == k + CycleLen
    ensures !cancelled ==> Breathed(c0, bus0, BreathSteps(idx0, cycles + 2, rise, fall)[..next - k0], script, k0,
                                    s.State(), s.bus)
  {
    hide Breathed, BreathSteps, BreathRun;
    var color := BaseColors[s.colorIdx];
    ghost var done := BreathSteps(idx0, cycles, rise, fall);
    BreathStepsNext(idx0, cycles, rise, fall);
    assert BreathSteps(idx0, cycles + 1, rise, fall)[..k - k0] == done;
    next, cancelled := BreathColor(s, color, rise, fall, script, k, c0, bus0, done, k0);
    BreathedColorPart(c0, bus0, idx0, cycles, rise, fall, script, k0, next - k, next - k0, s.State(), s.bus);
    if !cancelled {
      BreathedWhole(c0, bus0, idx0, cycles + 1, rise, fall, script, k0, next - k0, s.State(), s.bus);
    }
  }

  /** Complete colours followed by part of the next one are a prefix of the run
      with one colour more, and all of it when the part is the whole colour. */
  lemma BreathedColorPart(c0: Controls, bus0: seq<Frame>, idx: int, cycles: nat, rise: Curve, fall: Curve,
                          script: seq<seq<int>>, k0: nat, j: nat, n: nat, c1: Controls, bus1: seq<Frame>)
    requires 0 <= idx < PaletteSize && j <= CycleLen && n == |BreathSteps(idx, cycles, rise, fall)| + j
    requires Breathed(c0, bus0, BreathSteps(idx, cycles, rise, fall)
                                + BreathRun(BaseColors[(idx + cycles) % PaletteSize], rise, fall)[..j],
                      script, k0, c1, bus1)
    ensures Breathed(c0, bus0, BreathSteps(idx, cycles + 1, rise, fall)[..n], script, k0, c1, bus1)
    ensures j == CycleLen ==> Breathed(c0, bus0, BreathSteps(idx, cycles + 1, rise, fall), script, k0, c1, bus1)
  {
    hide Breathed, BreathSteps, BreathRun;
    var done, run := BreathSteps(idx, cycles, rise, fall), BreathRun(BaseColors[(idx + cycles) % PaletteSize], rise, fall);
    BreathStepsNext(idx, cycles, rise, fall);
    AppendPrefix(done, run, j);
    if j == CycleLen {
      assert run[..j] == run;
    }
  }

  /** A run of complete colours is a prefix of the run with one colour more. */
  lemma BreathedWhole(c0: Controls, bus0: seq<Frame>, idx: int, cycles: nat, rise: Curve, fall: Curve,
                      script: seq<seq<int>>, k0: nat, n: nat, c1: Controls, bus1: seq<Frame>)
    requires 0 <= idx < PaletteSize && n == |BreathSteps(idx, cycles, rise, fall)|
    requires Breathed(c0, bus0, BreathSteps(idx, cycles, rise, fall), script, k0, c1, bus1)
    ensures Breathed(c0, bus0, BreathSteps(idx, cycles + 1, rise, fall)[..n], script, k0, c1, bus1)
  {
    var last := BreathRun(BaseColors[(idx + cycles) % PaletteSize], rise, fall);
    BreathStepsNext(idx, cycles, rise, fall);
    AppendPrefix(BreathSteps(idx, cycles, rise, fall), last, 0);
    assert last[..0] == [];
    AppendEmpty(BreathSteps(idx, cycles, rise, fall));
  }

  /** One colour more appends that colour's steps. */
  lemma BreathStepsNext(idx: int, cycles: nat, rise: Curve, fall: Curve)
    requires 0 <= idx < PaletteSize
    ensures BreathSteps(idx, cycles + 1, rise, fall)
         == BreathSteps(idx, cycles, rise, fall) + BreathRun(BaseColors[(idx + cycles) % PaletteSize], rise, fall)
  {
    assert BreathOf(idx, rise, fall)(cycles) == BreathRun(BaseColors[(idx + cycles) % PaletteSize], rise, fall);
  }

  // -------------------------------------------------------------- dissolve

  /** The colours of a dissolve run starting at random-word index d0: the shared
      colour of the opening fade is drawn first, then LED cycle c draws its
      colour from word d0 + 1 + 2c and its hold time from the word after. */
  function SharedColor(random: nat -> nat, d0: nat): Color
  {
    RandomColor(random(d0))
  }

  function Drawn(random: nat -> nat, d0: nat, c: nat): Color
  {
    RandomColor(random(d0 + 1 + 2 * c))
  }

  /** The colour LED c % 5 shows when cycle c starts: the colour drawn five
      cycles before, or the shared colour in the first round. */
  function Prev(random: nat -> nat, d0: nat, c: nat): Color
  {
    if c < NumLeds then SharedColor(random, d0) else Drawn(random, d0, c - NumLeds)
  }

  /** One LED cycle: the LED fades from its colour through white to the new one. */
  function CycleSteps(led: u8, from: Color, to: Color): (steps: seq<seq<LedWrite>>)
    ensures |steps| == CycleLen
  {
    OnLed(led, DissolveCycle(from, to)) + [[]]
  }

  /** LED cycle c of a dissolve run: LED c % 5 fades from the colour it shows
      to the colour drawn for cycle c. */
  function CycleOf(random: nat -> nat, d0: nat): nat -> seq<seq<LedWrite>>
  {
    (c: nat) => CycleSteps((c % NumLeds) as u8, Prev(random, d0, c), Drawn(random, d0, c))
  }

  /** LED cycles n..m-1 of a dissolve run. */
  function Cycles(random: nat -> nat, d0: nat, n: nat, m: nat): (steps: seq<seq<LedWrite>>)
    ensures |steps| == if m <= n then 0 else CycleLen * (m - n)
  {
    ChunksLength(CycleOf(random, d0), CycleLen, n, m);
    Chunks(CycleOf(random, d0), n, m)
  }

  /** The steps of a dissolve run with `cycles` LED cycles after the opening fade. */
  function DissolveSteps(random: nat -> nat, d0: nat, cycles: nat): (steps: seq<seq<LedWrite>>)
    ensures |steps| == FadeSteps + 1 + CycleLen * cycles
  {
    Solid(Fade(White, SharedColor(random, d0))) + Cycles(random, d0, 0, cycles)
  }

  /** Cycles n..m-1 followed by cycles m..p-1 are cycles n..p-1. */
  lemma CyclesAppend(random: nat -> nat, d0: nat, n: nat, m: nat, p: nat)
    requires n <= m <= p
    ensures Cycles(random, d0, n, m) + Cycles(random, d0, m, p) == Cycles(random, d0, n, p)
  {
    ChunksAppend(CycleOf(random, d0), n, m, p);
  }

  /** One cycle more appends that cycle's steps. */
  lemma CyclesNext(random: nat -> nat, d0: nat, n: nat, m: nat)
    requires n <= m
    ensures Cycles(random, d0, n, m + 1)
         == Cycles(random, d0, n, m) + CycleSteps((m % NumLeds) as u8, Prev(random, d0, m), Drawn(random, d0, m))
  {
    assert CycleOf(random, d0)(m) == CycleSteps((m % NumLeds) as u8, Prev(random, d0, m), Drawn(random, d0, m));
  }

  /** Cycle c of a run fades LED c % 5 from the colour it shows to the colour
      drawn for it: LEDs are visited in the order 0, 1, 2, 3, 4, 0, ... */
  lemma CycleAt(random: nat -> nat, d0: nat, n: nat, m: nat, c: nat)
    requires n <= c < m
    ensures CycleLen * (c - n) + CycleLen <= |Cycles(random, d0, n, m)|
    ensures Cycles(random, d0, n, m)[CycleLen * (c - n) .. CycleLen * (c - n) + CycleLen]
         == CycleSteps((c % NumLeds) as u8, Prev(random, d0, c), Drawn(random, d0, c))
  {
    CycleOfLength(random, d0);
    ChunkAt(CycleOf(random, d0), CycleLen, n, m, c);
  }

  lemma CycleOfLength(random: nat -> nat, d0: nat)
    ensures forall c: nat :: |CycleOf(random, d0)(c)| == CycleLen
  {
  }

  /** No LED jumps: every cycle starts from the colour its LED was left showing,
      by the opening fade in the first round and by its previous cycle after. */
  lemma LedContinuity(random: nat -> nat, d0: nat, c: nat)
    ensures DissolveCycle(Prev(random, d0, c), Drawn(random, d0, c))[0] == Prev(random, d0, c)
    ensures c < NumLeds ==> Prev(random, d0, c) == Fade(White, SharedColor(random, d0))[FadeSteps]
    ensures c >= NumLeds ==>
      var before := DissolveCycle(Prev(random, d0, c - NumLeds), Drawn(random, d0, c - NumLeds));
      Prev(random, d0, c) == before[|before| - 1]
  {
  }

  /** The control state at the start of each of the first n LED cycles. */
  function CycleStarts(before: seq<Controls>, n: nat): (starts: seq<Controls>)
    requires CycleLen * n <= |before|
    ensures |starts| == n
  {
    seq(n, c requires 0 <= c < n => before[CycleLen * c])
  }

  lemma StartsAppend(x: seq<Controls>, y: seq<Controls>, n: nat, m: nat)
    requires |x| == CycleLen * n && CycleLen * m <= |y|
    ensures CycleStarts(x + y, n + m) == CycleStarts(x, n) + CycleStarts(y, m)
  {
  }

  /** What the dissolve checks: every LED cycle started with the power on, and
      every round of five started in mode 0. */
  predicate DissolveChecked(before: seq<Controls>, cycles: nat)
  {
    FadeSteps + 1 + CycleLen * cycles <= |before| &&
    var starts := CycleStarts(before[FadeSteps + 1..], cycles);
    forall c :: 0 <= c < cycles ==> starts[c].ledOn && (c % NumLeds == 0 ==> starts[c].mode == 0)
  }

  /** A fade of one LED over steps 0..FadeSteps, one write and one delay per step,
      with no check of any flag. */
  method FadeLed(s: Board, led: int, from: Color, to: Color, script: seq<seq<int>>, k0: nat)
    returns (k: nat)
    requires s.Valid() && 0 <= led < NumLeds
    modifies s`transitionMode, s`ledOn, s`brightnessLevel, s`modeChanged, s`bus
    ensures s.Valid() && k == k0 + FadeSteps + 1
    ensures Ran(s, old(s.State()), old(s.bus), OnLed(led as u8, Fade(from, to)), script, k0)
  {
    ghost var c0, bus0, fade := s.State(), s.bus, Fade(from, to);
    k := k0;
    Stay(c0, bus0, script, k0);
    for step := 0 to FadeSteps + 1
      invariant s.Valid() && k == k0 + step
      invariant Ran(s, c0, bus0, OnLed(led as u8, fade[..step]), script, k0)
    {
      ghost var c1, bus1, kb := s.State(), s.bus, k;
      k := FadeLedStep(s, led, from, to, step, script, k);
      Chain(c0, bus0, OnLed(led as u8, fade[..step]), c1, bus1, [[LedWrite(led as u8, fade[step])]],
            s.State(), s.bus, script, k0, kb);
      OnLedNext(led as u8, fade, step);
    }
    assert fade[..FadeSteps + 1] == fade;
  }

  /** One step of a single-LED fade: write the interpolated colour, then delay. */
  method FadeLedStep(s: Board, led: int, from: Color, to: Color, step: int, script: seq<seq<int>>, k0: nat)
    returns (k: nat)
    requires s.Valid() && 0 <= led < NumLeds && 0 <= step <= FadeSteps
    modifies s`transitionMode, s`ledOn, s`brightnessLevel, s`modeChanged, s`bus
    ensures s.Valid() && k == k0 + 1
    ensures Ran(s, old(s.State()), old(s.bus), [[LedWrite(led as u8, Fade(from, to)[step])]], script, k0)
  {
    ghost var c0, bus0 := s.State(), s.bus;
    var c := Interpolate(from, to, step as real / FadeSteps as real);
    MainApp.SetRgbLed(s, led, c.r, c.g, c.b);
    ghost var w := LedWrite(led as u8, Fade(from, to)[step]);
    assert w == LedWrite(led as u8, c);
    WriteFramesOne(w, c0.level);
    k := Pause(s, script, k0);
    Delayed(c0, bus0, [w], script, k0);
  }

  /** The cycle of LED i in individual_dissolve_transition: draw the next colour,
      fade the LED to white and on to it, store it as the LED's current colour
      and hold for 1000 + r % 2000 ms. Only LED i is written and only its entries
      of the colour arrays change. */
  method DissolveLed(s: Board, current: array<Color>, next: array<Color>, i: int,
                     random: nat -> nat, d0: nat, script: seq<seq<int>>, k0: nat)
    returns (k: nat, d: nat, hold: int)
    requires s.Valid() && 0 <= i < NumLeds
    requires current.Length == NumLeds && next.Length == NumLeds && current != next
    modifies s`transitionMode, s`ledOn, s`brightnessLevel, s`modeChanged, s`bus, current, next
    ensures s.Valid()
    ensures next[i] == RandomColor(random(d0)) && current[i] == next[i]
    ensures forall j :: 0 <= j < NumLeds && j != i ==> current[j] == old(current[j]) && next[j] == old(next[j])
    ensures Ran(s, old(s.State()), old(s.bus), CycleSteps(i as u8, old(current[i]), next[i]), script, k0)
    ensures hold == HoldMs(random(d0 + 1)) && HoldMinMs <= hold < HoldMaxMs
    ensures d == d0 + 2 && k == k0 + CycleLen
  {
    ghost var c0, bus0, from := s.State(), s.bus, current[i];
    next[i] := RandomColor(random(d0));
    k := FadeLed(s, i, current[i], White, script, k0);
    ghost var c1, bus1, k1, out := s.State(), s.bus, k, OnLed(i as u8, Fade(from, White));
    k := FadeLed(s, i, White, next[i], script, k);
    ghost var back := OnLed(i as u8, Fade(White, next[i]));
    Chain(c0, bus0, out, c1, bus1, back, s.State(), s.bus, script, k0, k1);
    OnLedAppend(i as u8, Fade(from, White), Fade(White, next[i]));
    current[i] := next[i];
    hold := HoldMinMs + random(d0 + 1) % (HoldMaxMs - HoldMinMs);
    HoldMsRange(hold);
    d := d0 + 2;
    ghost var c2, bus2, k2 := s.State(), s.bus, k;
    k := Pause(s, script, k);
    Chain(c0, bus0, out + back, c2, bus2, [[]], s.State(), s.bus, script, k0, k2);
  }

  /** The opening fade of individual_dissolve_transition: every LED from white
      to one shared colour, steps 0..FadeSteps, with no check of any flag. */
  method OpeningFade(s: Board, shared: Color, script: seq<seq<int>>, k0: nat) returns (k: nat)
    requires s.Valid()
    modifies s`transitionMode, s`ledOn, s`brightnessLevel, s`modeChanged, s`bus
    ensures s.Valid() && k == k0 + FadeSteps + 1
    ensures Ran(s, old(s.State()), old(s.bus), Solid(Fade(White, shared)), script, k0)
  {
    ghost var c0, bus0, fade := s.State(), s.bus, Fade(White, shared);
    k := k0;
    Stay(c0, bus0, script, k0);
    for step := 0 to FadeSteps + 1
      invariant s.Valid() && k == k0 + step
      invariant Ran(s, c0, bus0, Solid(fade[..step]), script, k0)
    {
      var c := Interpolate(White, shared, step as real / FadeSteps as real);
      ghost var c1, bus1, kb := s.State(), s.bus, k;
      k := ShowAndPause(s, c, script, k);
      assert c == fade[step];
      Chain(c0, bus0, Solid(fade[..step]), c1, bus1, [AllLeds(Uniform(c))], s.State(), s.bus, script, k0, kb);
      SolidNext(fade, step);
    }
    assert fade[..FadeSteps + 1] == fade;
  }

  /** One pass of the dissolve's inner loop over the LEDs in index order, as
      cycles n..n+4 of the run. The power flag is checked before each LED and
      the pass stops at the first LED that finds it off. LED j < done ends with
      the colour drawn in cycle n + j, and every later LED keeps its colour. */
  method DissolvePass(s: Board, current: array<Color>, next: array<Color>, random: nat -> nat,
                      d0: nat, script: seq<seq<int>>, k0: nat, ghost dStart: nat, ghost n: nat)
    returns (k: nat, d: nat, done: nat)
    requires s.Valid()
    requires current.Length == NumLeds && next.Length == NumLeds && current != next
    requires n % NumLeds == 0 && d0 == dStart + 1 + 2 * n
    requires forall j :: 0 <= j < NumLeds ==> current[j] == Prev(random, dStart, n + j)
    modifies s`transitionMode, s`ledOn, s`brightnessLevel, s`modeChanged, s`bus, current, next
    ensures s.Valid()
    ensures done <= NumLeds && d == d0 + 2 * done && k == k0 + CycleLen * done
    ensures done < NumLeds ==> !s.ledOn
    ensures old(s.ledOn) ==> done > 0
    ensures forall j :: 0 <= j < NumLeds ==>
      current[j] == if j < done then Drawn(random, dStart, n + j) else old(current[j])
    ensures Ran(s, old(s.State()), old(s.bus), Cycles(random, dStart, n, n + done), script, k0)
    ensures var starts := CycleStarts(Steps(old(s.State()), Cycles(random, dStart, n, n + done), script, k0).before, done);
      forall c :: 0 <= c < done ==> starts[c].ledOn
  {
    hide Reaches, Steps, Cycles, CycleSteps, Prev, RandomColor;
    ghost var c0, bus0 := s.State(), s.bus;
    k, d, done := k0, d0, 0;
    Stay(c0, bus0, script, k0);
    for i := 0 to NumLeds
      invariant s.Valid()
      invariant done == i && d == d0 + 2 * i && k == k0 + CycleLen * i
      invariant if i == 0 then s.State() == c0 else c0.ledOn
      invariant forall j :: 0 <= j < NumLeds ==>
        current[j] == if j < i then Drawn(random, dStart, n + j) else old(current[j])
      invariant Ran(s, c0, bus0, Cycles(random, dStart, n, n + i), script, k0)
      invariant var starts := CycleStarts(Steps(c0, Cycles(random, dStart, n, n + i), script, k0).before, i);
        forall c :: 0 <= c < i ==> starts[c].ledOn
    {
      if !s.ledOn {
        return;
      }
      ghost var c1, bus1, kb, sofar := s.State(), s.bus, k, Cycles(random, dStart, n, n + i);
      var hold;
      k, d, hold := DissolveLed(s, current, next, i, random, d, script, k);
      ghost var cycle := CycleSteps(i as u8, Prev(random, dStart, n + i), Drawn(random, dStart, n + i));
      RoundOffset(n, i);
      Chain(c0, bus0, sofar, c1, bus1, cycle, s.State(), s.bus, script, k0, kb);
      CyclesNext(random, dStart, n, n + i);
      StartsAppend(Steps(c0, sofar, script, k0).before, Steps(c1, cycle, script, kb).before, i, 1);
      done := done + 1;
    }
  }

  /** Cycle n + i of a round that starts at cycle n visits LED i. */
  lemma RoundOffset(n: nat, i: nat)
    requires n % NumLeds == 0 && i < NumLeds
    ensures (n + i) % NumLeds == i
  {
  }

  /** After a whole round the next one starts at a multiple of five again. */
  lemma NextRound(n: nat)
    requires n % NumLeds == 0
    ensures (n + NumLeds) % NumLeds == 0
  {
  }

  /** A pass of `done` LED cycles extends a dissolve run of n cycles, a whole
      number of rounds, into a run of n + done cycles, keeping the checks. */
  lemma PassExtends(c0: Controls, bus0: seq<Frame>, random: nat -> nat, d0: nat, script: seq<seq<int>>,
                    k0: nat, n: nat, done: nat, c1: Controls, bus1: seq<Frame>, c2: Controls, bus2: seq<Frame>)
    requires n % NumLeds == 0 && done <= NumLeds
    requires Reaches(c0, bus0, DissolveSteps(random, d0, n), script, k0, c1, bus1)
    requires DissolveChecked(Steps(c0, DissolveSteps(random, d0, n), script, k0).before, n)
    requires Reaches(c1, bus1, Cycles(random, d0, n, n + done), script, k0 + FadeSteps + 1 + CycleLen * n, c2, bus2)
    requires var starts := CycleStarts(Steps(c1, Cycles(random, d0, n, n + done), script,
                                             k0 + FadeSteps + 1 + CycleLen * n).before, done);
      forall c :: 0 <= c < done ==> starts[c].ledOn
    requires c1.mode == 0
    ensures Reaches(c0, bus0, DissolveSteps(random, d0, n + done), script, k0, c2, bus2)
    ensures DissolveChecked(Steps(c0, DissolveSteps(random, d0, n + done), script, k0).before, n + done)
  {
    hide Steps, Cycles, Solid, CycleSteps, Prev, Drawn, RandomColor;
    var opening := Solid(Fade(White, SharedColor(random, d0)));
    var a, b := DissolveSteps(random, d0, n), Cycles(random, d0, n, n + done);
    var k1 := k0 + FadeSteps + 1 + CycleLen * n;
    Chain(c0, bus0, a, c1, bus1, b, c2, bus2, script, k0, k1);
    CyclesAppend(random, d0, 0, n, n + done);
    Assoc(opening, Cycles(random, d0, 0, n), b);
    var ta, tb := Steps(c0, a, script, k0).before, Steps(c1, b, script, k1).before;
    DropFront(ta, tb, FadeSteps + 1);
    StartsAppend(ta[FadeSteps + 1..], tb, n, done);
    var old_, new_, all := CycleStarts(ta[FadeSteps + 1..], n), CycleStarts(tb, done),
                           CycleStarts((ta + tb)[FadeSteps + 1..], n + done);
    forall c | 0 <= c < n + done
      ensures all[c].ledOn && (c % NumLeds == 0 ==> all[c].mode == 0)
    {
      if c < n {
        assert all[c] == old_[c];
      } else {
        assert all[c] == new_[c - n];
        if c % NumLeds == 0 {
          assert c == n;
          assert new_[0] == tb[0] == c1;
        }
      }
    }
  }

  /** individual_dissolve_transition. The opening fade from white to a shared
      random colour has no check at all and always runs to the end. After it the
      LEDs cycle in index order; the power flag is checked before each LED and
      the mode only before each round of five, and the cancel flag is never
      looked at: the effect returns early only when the power is off or the mode
      has moved on, the latter only at a whole round. */
  method DissolveLoop(s: Board, random: nat -> nat, script: seq<seq<int>>, k0: nat, d0: nat)
    returns (k: nat, d: nat, cycles: nat)
    requires s.Valid()
    modifies s`transitionMode, s`ledOn, s`brightnessLevel, s`modeChanged, s`bus
    ensures s.Valid()
    ensures d == d0 + 1 + 2 * cycles && k == k0 + FadeSteps + 1 + CycleLen * cycles
    ensures Ran(s, old(s.State()), old(s.bus), DissolveSteps(random, d0, cycles), script, k0)
    ensures DissolveChecked(Steps(old(s.State()), DissolveSteps(random, d0, cycles), script, k0).before, cycles)
    ensures cycles % NumLeds == 0 || !s.ledOn
    ensures k < |script| ==> !s.ledOn || s.transitionMode != 0
  {
    hide Steps, Cycles, Solid, CycleSteps, Drawn, RandomColor;
    ghost var c0, bus0 := s.State(), s.bus;
    var current := new Color[NumLeds];
    var next := new Color[NumLeds];
    var shared := RandomColor(random(d0));
    k := OpeningFade(s, shared, script, k0);
    for i := 0 to NumLeds
      modifies current
      invariant forall j :: 0 <= j < i ==> current[j] == shared
    {
      current[i] := shared;
    }
    d, cycles := d0 + 1, 0;
    AppendEmpty(Solid(Fade(White, shared)));
    while s.ledOn && s.transitionMode == 0 && k < |script|
      invariant s.Valid()
      invariant fresh(current) && fresh(next) && current != next
      invariant current.Length == NumLeds && next.Length == NumLeds
      invariant d == d0 + 1 + 2 * cycles && cycles % NumLeds == 0
      invariant k == k0 + FadeSteps + 1 + CycleLen * cycles
      invariant forall j :: 0 <= j < NumLeds ==> current[j] == Prev(random, d0, cycles + j)
      invariant Ran(s, c0, bus0, DissolveSteps(random, d0, cycles), script, k0)
      invariant DissolveChecked(Steps(c0, DissolveSteps(random, d0, cycles), script, k0).before, cycles)
      decreases |script| - k
    {
      ghost var c1, bus1 := s.State(), s.bus;
      var done;
      k, d, done := DissolvePass(s, current, next, random, d, script, k, d0, cycles);
      PassExtends(c0, bus0, random, d0, script, k0, cycles, done, c1, bus1, s.State(), s.bus);
      if done < NumLeds {
        cycles := cycles + done;
        return;
      }
      NextRound(cycles);
      cycles := cycles + NumLeds;
    }
  }

  // ------------------------------------------------------------ dispatcher

  /** The float curves and random words an effect run draws on, and the script of
      button events that arrive during its delays. */
  datatype Env = Env(secondary: int -> u16, rise: Curve, fall: Curve,
                     random: nat -> nat, script: seq<seq<int>>)

  /** What running effect e from control state c0, bus log bus0, static hue hue0,
      static palette index idx0, random-word index d0 and script position k0
      leaves behind, `count` being its number of frames (rainbow), complete
      colours (breathing) or LED cycles (dissolve): the run of that effect's
      steps with the cancel flag cleared after it, the statics and indexes it
      advances, the checks it made along the way, and why it stopped. */
  ghost predicate Dispatched(e: Effect, env: Env, c0: Controls, bus0: seq<Frame>, hue0: int, idx0: int,
                             d0: nat, k0: nat, count: nat,
                             after: Controls, bus: seq<Frame>, hue: int, idx: int, d: nat, k: nat)
    requires 0 <= hue0 < 360 && 0 <= idx0 < PaletteSize
  {
    c0.InRange() &&
    match e
    case Rainbow =>
      var steps := RainbowSteps(hue0, count, env.secondary);
      hue == HueAfter(hue0, count) && idx == idx0 && d == d0 && k == k0 + count &&
      ReachesCleared(c0, bus0, steps, env.script, k0, after, bus) &&
      PoweredInMode(Steps(c0, steps, env.script, k0).before, 1) &&
      (k < |env.script| ==> !after.ledOn || after.mode != 1)
    case Breathing =>
      hue == hue0 && idx == (idx0 + count) % PaletteSize && d == d0 &&
      |BreathSteps(idx0, count, env.rise, env.fall)| <= k - k0 < |BreathSteps(idx0, count + 1, env.rise, env.fall)| &&
      var steps := BreathSteps(idx0, count + 1, env.rise, env.fall)[..k - k0];
      ReachesCleared(c0, bus0, steps, env.script, k0, after, bus) &&
      var t := Steps(c0, steps, env.script, k0);
      t.late == 0 &&
      (k - k0 > |BreathSteps(idx0, count, env.rise, env.fall)| ==> t.after.modeChanged) &&
      (k < |env.script| ==> !after.ledOn || t.after.modeChanged || after.mode != 2)
    case Dissolve =>
      var steps := DissolveSteps(env.random, d0, count);
      hue == hue0 && idx == idx0 && d == d0 + 1 + 2 * count && k == k0 + |steps| &&
      ReachesCleared(c0, bus0, steps, env.script, k0, after, bus) &&
      DissolveChecked(Steps(c0, steps, env.script, k0).before, count) &&
      (count % NumLeds == 0 || !after.ledOn) &&
      (k < |env.script| ==> !after.ledOn || after.mode != 0)
  }

  /** apply_transition_by_mode: run the effect chosen by the mode (dissolve for
      any unknown value), then clear the cancel flag. Returns the next script
      position and random-word index, and the effect's count. */
  method ApplyTransitionByMode(s: Board, mode: int, env: Env, k0: nat, d0: nat)
    returns (k: nat, d: nat, count: nat)
    requires s.Valid()
    modifies s`transitionMode, s`ledOn, s`brightnessLevel, s`modeChanged, s`bus, s`hue, s`colorIdx
    ensures s.Valid() && !s.modeChanged
    ensures Dispatched(EffectFor(mode), env, old(s.State()), old(s.bus), old(s.hue), old(s.colorIdx), d0, k0,
                       count, s.State(), s.bus, s.hue, s.colorIdx, d, k)
  {
    match mode {
      case 0 =>
        k, d, count := DissolveLoop(s, env.random, env.script, k0, d0);
      case 1 =>
        k, count := RainbowLoop(s, env.secondary, env.script, k0);
        d := d0;
      case 2 =>
        k, count := BreathingLoop(s, env.rise, env.fall, env.script, k0);
        d := d0;
      case _ =>
        k, d, count := DissolveLoop(s, env.random, env.script, k0, d0);
    }
    s.modeChanged := false;
  }
}
