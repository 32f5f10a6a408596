/** What an effect does over a run, as a value: a run is a list of steps, each
    a batch of set_rgb_led calls followed by one vTaskDelay. The calls write
    their frames at the brightness tier in force when they are made, and during
    the delay the button task handles the events that arrived, which may change
    that tier, the power flag, the mode and the cancel flag for the next step. */
module Runs {
  import opened Types
  import opened Globals
  import opened Transitions
  import MainApp
  import Buttons

  /** One call of set_rgb_led made by an effect. */
  datatype LedWrite = LedWrite(led: u8, color: Color)

  /** The events the button task handles during the k-th delay of a run. */
  function Arrivals(script: seq<seq<int>>, k: nat): seq<int>
  {
    if k < |script| then script[k] else []
  }

  /** The frames of a batch of set_rgb_led calls at one tier, in call order. */
  function WriteFrames(ws: seq<LedWrite>, level: int): seq<Frame>
    requires 0 <= level < 3
  {
    if ws == [] then []
    else WriteFrames(ws[..|ws| - 1], level)
         + MainApp.RgbFrames(ws[|ws| - 1].led, ws[|ws| - 1].color, level)
  }

  /** One frame over the LEDs: LED i gets cs[i], in index order. */
  function AllLeds(cs: seq<Color>): seq<LedWrite>
    requires |cs| <= NumLeds
  {
    seq(|cs|, i requires 0 <= i < |cs| => LedWrite(i as u8, cs[i]))
  }

  /** The same colour on every LED. */
  function Uniform(c: Color): seq<Color>
  {
    seq(NumLeds, _ => c)
  }

  /** A run of frames that each put one colour on every LED. */
  function Solid(cs: seq<Color>): seq<seq<LedWrite>>
  {
    seq(|cs|, t requires 0 <= t < |cs| => AllLeds(Uniform(cs[t])))
  }

  /** A run of frames that each write one colour to one LED only. */
  function OnLed(led: u8, cs: seq<Color>): seq<seq<LedWrite>>
  {
    seq(|cs|, t requires 0 <= t < |cs| => [LedWrite(led, cs[t])])
  }

  /** What the button task does during one delay, from the control state and
      the events that arrived: the control state after it and its frames. */
  type Reaction = (Controls, seq<int>) -> (Controls, seq<Frame>)

  /** The button task's reaction: handle the events in order. */
  function Delay(c: Controls, a: seq<int>): (Controls, seq<Frame>)
  {
    (Buttons.HandleAll(c, a), Buttons.ButtonWrites(c, a))
  }

  /** A reaction that keeps the mode and the tier in range. */
  ghost predicate KeepsRange(react: Reaction)
  {
    forall c: Controls, a: seq<int> :: c.InRange() ==> react(c, a).0.InRange()
  }

  /** The button task keeps the mode and the tier in range. */
  lemma DelayKeepsRange()
    ensures KeepsRange(Delay)
  {
    forall c: Controls, a: seq<int> | c.InRange()
      ensures Delay(c, a).0.InRange()
    {
      Buttons.HandleAllInRange(c, a);
    }
  }

  /** The control state before each step, the control state after the last
      delay, every frame written, oldest first, and the number of late steps:
      steps that wrote frames although they started with the cancel flag up. */
  datatype Trace = Trace(before: seq<Controls>, after: Controls, bus: seq<Frame>, late: nat)

  /** Whether a step's writes come after the cancel flag went up. */
  function Late(ws: seq<LedWrite>, c: Controls): nat
  {
    if ws != [] && c.modeChanged then 1 else 0
  }

  /** A trace extended by one step: its writes at the tier in force, then the
      reaction to the k-th delay. */
  function Extend(react: Reaction, t: Trace, ws: seq<LedWrite>, script: seq<seq<int>>, k: nat): Trace
    requires t.after.InRange()
  {
    var (next, frames) := react(t.after, Arrivals(script, k));
    Trace(t.before + [t.after], next, t.bus + WriteFrames(ws, t.after.level) + frames, t.late + Late(ws, t.after))
  }

  /** The trace of running `steps` from control state c under a reaction, the
      first delay being the k-th of the script. */
  function Run(react: Reaction, c: Controls, steps: seq<seq<LedWrite>>, script: seq<seq<int>>, k: nat): (t: Trace)
    requires KeepsRange(react) && c.InRange()
    ensures t.after.InRange() && |t.before| == |steps|
    ensures steps != [] ==> t.before[0] == c
    decreases |steps|
  {
    if steps == [] then Trace([], c, [], 0)
    else Extend(react, Run(react, c, steps[..|steps| - 1], script, k), steps[|steps| - 1], script, k + |steps| - 1)
  }

  /** The trace of running `steps` from control state c, with the button task
      reacting in every delay: each step starts in the state the previous delay
      left, and the first one in c. */
  function Steps(c: Controls, steps: seq<seq<LedWrite>>, script: seq<seq<int>>, k: nat): (t: Trace)
    requires c.InRange()
    ensures t.after.InRange() && |t.before| == |steps|
    ensures steps != [] ==> t.before[0] == c
  {
    DelayKeepsRange();
    Run(Delay, c, steps, script, k)
  }

  /** A single step: its writes at the tier of c, then the button task's
      reaction to the events of the k-th delay. */
  lemma OneStep(c: Controls, ws: seq<LedWrite>, script: seq<seq<int>>, k: nat)
    requires c.InRange()
    ensures var a := Arrivals(script, k);
      Steps(c, [ws], script, k)
        == Trace([c], Buttons.HandleAll(c, a), WriteFrames(ws, c.level) + Buttons.ButtonWrites(c, a), Late(ws, c))
  {
    DelayKeepsRange();
    RunOne(Delay, c, ws, script, k);
  }

  lemma RunOne(react: Reaction, c: Controls, ws: seq<LedWrite>, script: seq<seq<int>>, k: nat)
    requires KeepsRange(react) && c.InRange()
    ensures var (next, frames) := react(c, Arrivals(script, k));
      Run(react, c, [ws], script, k) == Trace([c], next, WriteFrames(ws, c.level) + frames, Late(ws, c))
  {
    assert [ws][..0] == [];
    AppendEmpty([c]);
    AppendEmpty(WriteFrames(ws, c.level));
  }

  /** Running two lists of steps one after the other is running their
      concatenation: the traces join, the second starting where the first ended. */
  lemma StepsAppend(c: Controls, a: seq<seq<LedWrite>>, b: seq<seq<LedWrite>>,
                    script: seq<seq<int>>, k: nat)
    requires c.InRange()
    ensures var t := Steps(c, a, script, k);
      var u := Steps(t.after, b, script, k + |a|);
      Steps(c, a + b, script, k) == Trace(t.before + u.before, u.after, t.bus + u.bus, t.late + u.late)
  {
    DelayKeepsRange();
    RunAppend(Delay, c, a, b, script, k);
  }

  lemma {:induction false} RunAppend(react: Reaction, c: Controls, a: seq<seq<LedWrite>>, b: seq<seq<LedWrite>>,
                                     script: seq<seq<int>>, k: nat)
    requires KeepsRange(react) && c.InRange()
    ensures var t := Run(react, c, a, script, k);
      var u := Run(react, t.after, b, script, k + |a|);
      Run(react, c, a + b, script, k) == Trace(t.before + u.before, u.after, t.bus + u.bus, t.late + u.late)
    decreases |b|
  {
    var t := Run(react, c, a, script, k);
    if b == [] {
      AppendEmpty(a);
      AppendEmpty(t.before);
      AppendEmpty(t.bus);
    } else {
      var init, last := b[..|b| - 1], b[|b| - 1];
      FrontOfAppend(a, b);
      RunAppend(react, c, a, init, script, k);
      var u0 := Run(react, t.after, init, script, k + |a|);
      var j := k + |a| + |init|;
      var (next, frames) := react(u0.after, Arrivals(script, j));
      var w := WriteFrames(last, u0.after.level);
      var whole, u := Run(react, c, a + b, script, k), Run(react, t.after, b, script, k + |a|);
      assert whole == Extend(react, Trace(t.before + u0.before, u0.after, t.bus + u0.bus, t.late + u0.late), last, script, j);
      assert u == Extend(react, u0, last, script, j);
      Assoc(t.before, u0.before, [u0.after]);
      Assoc(t.bus, u0.bus, w);
      Assoc(t.bus, u0.bus + w, frames);
    }
  }

  /** The empty sequence is a unit of concatenation. */
  lemma AppendEmpty<T>(a: seq<T>)
    ensures a + [] == a && [] + a == a
  {
  }

  /** Concatenation is associative. */
  lemma Assoc<T>(a: seq<T>, b: seq<T>, c: seq<T>)
    ensures (a + b) + c == a + (b + c)
  {
  }

  /** A sequence extended by one element has the sequence as its prefix and
      the element last. */
  lemma SnocParts<T>(a: seq<T>, x: T)
    ensures (a + [x])[..|a|] == a && (a + [x])[|a|] == x
  {
  }

  /** The front and the last element of a + b, for a non-empty b. */
  lemma FrontOfAppend<T>(a: seq<T>, b: seq<T>)
    requires b != []
    ensures (a + b)[..|a + b| - 1] == a + b[..|b| - 1] && (a + b)[|a + b| - 1] == b[|b| - 1]
  {
  }

  /** A run from control state c0 with bus log bus0 ends in control state c1
      with bus log bus1: bus0 followed by the run's frames. */
  predicate Reaches(c0: Controls, bus0: seq<Frame>, steps: seq<seq<LedWrite>>,
                    script: seq<seq<int>>, k0: nat, c1: Controls, bus1: seq<Frame>)
  {
    c0.InRange() &&
    var t := Steps(c0, steps, script, k0);
    c1 == t.after && bus1 == bus0 + t.bus
  }

  /** The board has run `steps` from control state c0 with bus log bus0. */
  ghost predicate Ran(s: Board, c0: Controls, bus0: seq<Frame>, steps: seq<seq<LedWrite>>,
                      script: seq<seq<int>>, k0: nat)
    reads s
  {
    Reaches(c0, bus0, steps, script, k0, s.State(), s.bus)
  }

  /** The empty run changes nothing. */
  lemma Stay(c0: Controls, bus0: seq<Frame>, script: seq<seq<int>>, k0: nat)
    requires c0.InRange()
    ensures Reaches(c0, bus0, [], script, k0, c0, bus0)
  {
    AppendEmpty(bus0);
  }

  /** A run after which the cancel flag is cleared: c1 is the run's end state
      with the flag down. */
  predicate ReachesCleared(c0: Controls, bus0: seq<Frame>, steps: seq<seq<LedWrite>>,
                           script: seq<seq<int>>, k0: nat, c1: Controls, bus1: seq<Frame>)
  {
    c0.InRange() &&
    var t := Steps(c0, steps, script, k0);
    c1 == t.after.(modeChanged := false) && bus1 == bus0 + t.bus
  }

  /** One step from c0: the batch's frames at the tier of c0, then the button
      task's reaction to the events of the k-th delay, seen from c0. */
  lemma Delayed(c0: Controls, bus0: seq<Frame>, ws: seq<LedWrite>, script: seq<seq<int>>, k: nat)
    requires c0.InRange()
    ensures var a := Arrivals(script, k);
      Reaches(c0, bus0, [ws], script, k, Buttons.HandleAll(c0, a),
              bus0 + WriteFrames(ws, c0.level) + Buttons.ButtonWrites(c0, a))
    ensures Steps(c0, [ws], script, k).before == [c0]
    ensures Steps(c0, [ws], script, k).late == Late(ws, c0)
  {
    var a := Arrivals(script, k);
    OneStep(c0, ws, script, k);
    Assoc(bus0, WriteFrames(ws, c0.level), Buttons.ButtonWrites(c0, a));
  }

  /** A delay with no writes before it. */
  lemma DelayedOnly(c0: Controls, bus0: seq<Frame>, script: seq<seq<int>>, k: nat)
    requires c0.InRange()
    ensures var a := Arrivals(script, k);
      Reaches(c0, bus0, [[]], script, k, Buttons.HandleAll(c0, a), bus0 + Buttons.ButtonWrites(c0, a))
  {
    Delayed(c0, bus0, [], script, k);
    AppendEmpty(bus0);
  }

  /** Two runs one after the other, the second starting where the first ended,
      are the run of the concatenated steps; the states before each step join. */
  lemma Chain(c0: Controls, bus0: seq<Frame>, a: seq<seq<LedWrite>>, c1: Controls, bus1: seq<Frame>,
              b: seq<seq<LedWrite>>, c2: Controls, bus2: seq<Frame>, script: seq<seq<int>>, k0: nat, k1: nat)
    requires k1 == k0 + |a|
    requires Reaches(c0, bus0, a, script, k0, c1, bus1)
    requires Reaches(c1, bus1, b, script, k1, c2, bus2)
    ensures Reaches(c0, bus0, a + b, script, k0, c2, bus2)
    ensures Steps(c0, a + b, script, k0).before
         == Steps(c0, a, script, k0).before + Steps(c1, b, script, k1).before
    ensures Steps(c0, a + b, script, k0).late == Steps(c0, a, script, k0).late + Steps(c1, b, script, k1).late
  {
    var t := Steps(c0, a, script, k0);
    StepsAppend(c0, a, b, script, k0);
    Assoc(bus0, t.bus, Steps(c1, b, script, k1).bus);
  }

  /** A run has no late steps exactly when every step that wrote anything
      started with the cancel flag down. */
  lemma NoLateSteps(c: Controls, steps: seq<seq<LedWrite>>, script: seq<seq<int>>, k: nat)
    requires c.InRange()
    ensures var t := Steps(c, steps, script, k);
      t.late == 0 <==> forall f :: 0 <= f < |steps| && steps[f] != [] ==> !t.before[f].modeChanged
  {
    DelayKeepsRange();
    NoLateRun(Delay, c, steps, script, k);
  }

  lemma {:induction false} NoLateRun(react: Reaction, c: Controls, steps: seq<seq<LedWrite>>, script: seq<seq<int>>, k: nat)
    requires KeepsRange(react) && c.InRange()
    ensures var t := Run(react, c, steps, script, k);
      t.late == 0 <==> forall f :: 0 <= f < |steps| && steps[f] != [] ==> !t.before[f].modeChanged
    decreases |steps|
  {
    if steps != [] {
      var n := |steps| - 1;
      var init := steps[..n];
      NoLateRun(react, c, init, script, k);
      var t, whole := Run(react, c, init, script, k), Run(react, c, steps, script, k);
      assert whole.before == t.before + [t.after];
      assert whole.late == t.late + Late(steps[n], t.after);
      assert forall f :: 0 <= f < n ==> steps[f] == init[f] && whole.before[f] == t.before[f];
      assert whole.before[n] == t.after;
    }
  }

  /** The frames of a batch one write longer end with that write's frames. */
  lemma WriteFramesSnoc(ws: seq<LedWrite>, w: LedWrite, level: int)
    requires 0 <= level < 3
    ensures WriteFrames(ws + [w], level) == WriteFrames(ws, level) + MainApp.RgbFrames(w.led, w.color, level)
  {
    SnocParts(ws, w);
  }

  /** One write alone. */
  lemma WriteFramesOne(w: LedWrite, level: int)
    requires 0 <= level < 3
    ensures WriteFrames([w], level) == MainApp.RgbFrames(w.led, w.color, level)
  {
    WriteFramesSnoc([], w, level);
    AppendEmpty(MainApp.RgbFrames(w.led, w.color, level));
  }

  /** Writing the colours up to LED i + 1 extends writing them up to LED i. */
  lemma AllLedsNext(cs: seq<Color>, i: nat)
    requires i < |cs| <= NumLeds
    ensures AllLeds(cs[..i + 1]) == AllLeds(cs[..i]) + [LedWrite(i as u8, cs[i])]
  {
  }

  /** OnLed maps over its colours, so it splits where the colours do. */
  lemma OnLedAppend(led: u8, a: seq<Color>, b: seq<Color>)
    ensures OnLed(led, a + b) == OnLed(led, a) + OnLed(led, b)
  {
  }

  /** The frames of a prefix one colour longer end with that colour's frame. */
  lemma SolidNext(cs: seq<Color>, i: nat)
    requires i < |cs|
    ensures Solid(cs[..i + 1]) == Solid(cs[..i]) + [AllLeds(Uniform(cs[i]))]
  {
  }

  lemma OnLedNext(led: u8, cs: seq<Color>, i: nat)
    requires i < |cs|
    ensures OnLed(led, cs[..i + 1]) == OnLed(led, cs[..i]) + [[LedWrite(led, cs[i])]]
  {
  }

  /** A run followed by a prefix one longer is the run followed by the prefix
      and the next element. */
  lemma ExtendPrefix<T>(pre: seq<T>, s: seq<T>, i: nat)
    requires i < |s|
    ensures (pre + s[..i]) + [s[i]] == pre + s[..i + 1]
  {
    assert s[..i + 1] == s[..i] + [s[i]];
  }

  /** A sequence followed by a prefix of a second is a prefix of the two joined. */
  lemma AppendPrefix<T>(a: seq<T>, b: seq<T>, m: nat)
    requires m <= |b|
    ensures a + b[..m] == (a + b)[..|a| + m]
  {
  }

  /** The pieces f(n), ..., f(m - 1) one after the other. */
  function Chunks<T>(f: nat -> seq<T>, n: nat, m: nat): seq<T>
    decreases m
  {
    if m <= n then [] else Chunks(f, n, m - 1) + f(m - 1)
  }

  /** Pieces n..m-1 followed by pieces m..p-1 are pieces n..p-1. */
  lemma {:induction false} ChunksAppend<T>(f: nat -> seq<T>, n: nat, m: nat, p: nat)
    requires n <= m <= p
    ensures Chunks(f, n, m) + Chunks(f, m, p) == Chunks(f, n, p)
    decreases p
  {
    if p == m {
      AppendEmpty(Chunks(f, n, m));
    } else {
      ChunksAppend(f, n, m, p - 1);
      Assoc(Chunks(f, n, m), Chunks(f, m, p - 1), f(p - 1));
    }
  }

  /** With pieces all of length len, pieces n..m-1 have length len * (m - n). */
  lemma {:induction false} ChunksLength<T>(f: nat -> seq<T>, len: nat, n: nat, m: nat)
    requires forall c :: n <= c < m ==> |f(c)| == len
    ensures |Chunks(f, n, m)| == if m <= n then 0 else len * (m - n)
    decreases m
  {
    if m > n {
      ChunksLength(f, len, n, m - 1);
    }
  }

  /** With pieces all of length len, piece c sits at offset len * (c - n). */
  lemma ChunkAt<T>(f: nat -> seq<T>, len: nat, n: nat, m: nat, c: nat)
    requires n <= c < m
    requires forall c :: n <= c < m ==> |f(c)| == len
    ensures |Chunks(f, n, m)| == len * (m - n)
    ensures len * (c - n) + len <= |Chunks(f, n, m)|
    ensures Chunks(f, n, m)[len * (c - n) .. len * (c - n) + len] == f(c)
  {
    ChunksLength(f, len, n, m);
    ChunksLength(f, len, n, c);
    ChunksAppend(f, n, c + 1, m);
    var front := Chunks(f, n, c);
    assert Chunks(f, n, c + 1) == front + f(c);
    assert |front| == len * (c - n);
    SliceOfFront(front + f(c), Chunks(f, c + 1, m), |front|, |front| + |f(c)|);
    SliceOfBack(front, f(c));
    MulLe(len, c - n + 1, m - n);
  }

  lemma MulLe(a: nat, b: nat, c: nat)
    requires b <= c
    ensures a * b <= a * c
  {
  }

  /** A slice inside the front of a + b is a slice of a. */
  lemma SliceOfFront<T>(a: seq<T>, b: seq<T>, i: nat, j: nat)
    requires i <= j <= |a|
    ensures (a + b)[i..j] == a[i..j]
  {
  }

  /** The back of a + b is b. */
  lemma SliceOfBack<T>(a: seq<T>, b: seq<T>)
    ensures (a + b)[|a|..|a| + |b|] == b
  {
  }

  /** Dropping a prefix of the front of a + b. */
  lemma DropFront<T>(a: seq<T>, b: seq<T>, i: nat)
    requires i <= |a|
    ensures (a + b)[i..] == a[i..] + b
  {
  }
}
