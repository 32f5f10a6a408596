/** RGBController of crystal3.py: a sequencer that walks forward through a list
    of colours, holding each for its timing in update ticks, then walks back,
    then starts over. `C` is the colour type, opaque to the controller; the led
    object is reduced to the one attribute the controller assigns, its colour. */
module Crystal {
  import opened Types

  /** The controller's fields; `shown` is the colour last assigned to led.color
      (None while the controller has not assigned one). */
  datatype Ctl<C> = Ctl(status: int, colorIndex: int, timer: int, shown: Option<C>)

  /** The result of one update: it returns normally, or raises IndexError with
      the fields as far as they were assigned before the failing subscript. */
  datatype Outcome<C> = Done(st: Ctl<C>) | Raised(st: Ctl<C>)

  /** Python list subscription: negative indices count from the end, anything
      else outside the list raises IndexError (None). */
  function PyIndex<T>(xs: seq<T>, i: int): (r: Option<T>)
    ensures r.Some? <==> -|xs| <= i < |xs|
    ensures r.Some? ==> r.value in xs
    ensures 0 <= i < |xs| ==> r == Some(xs[i])
  {
    if 0 <= i < |xs| then Some(xs[i])
    else if -|xs| <= i < 0 then Some(xs[|xs| + i])
    else None
  }

  /** The fields after __init__. */
  function Init<C>(): Ctl<C>
  {
    Ctl(0, 0, 0, None)
  }

  /** update(), as written: the status-2 walk starts at index len(colors). */
  function Step<C>(st: Ctl<C>, colors: seq<C>, timings: seq<int>): Outcome<C>
  {
    if st.status == 0 then
      var st1 := st.(status := 1, colorIndex := 0);
      match PyIndex(colors, 0)
      case None => Raised(st1)
      case Some(c) => Done(st1.(shown := Some(c), timer := st1.timer + 1))
    else if st.status == 1 then
      match PyIndex(timings, st.colorIndex)
      case None => Raised(st)
      case Some(t) =>
        if st.timer != t then Done(st.(timer := st.timer + 1))
        else
          var idx := st.colorIndex + 1;
          if idx < |colors| then
            match PyIndex(colors, idx)
            case None => Raised(st.(timer := 0, colorIndex := idx))
            case Some(c) => Done(Ctl(1, idx, 1, Some(c)))
          else Done(Ctl(2, idx, 1, st.shown))
    else if st.status == 2 then
      match PyIndex(timings, st.colorIndex)
      case None => Raised(st)
      case Some(t) =>
        if st.timer != t then Done(st.(timer := st.timer + 1))
        else
          var idx := st.colorIndex - 1;
          if idx >= 0 then
            match PyIndex(colors, idx)
            case None => Raised(st.(timer := 0, colorIndex := idx))
            case Some(c) => Done(Ctl(2, idx, 1, Some(c)))
          else Done(Ctl(0, idx, 1, st.shown))
    else
      Done(st.(timer := st.timer + 1))
  }

  /** The fields reachable from __init__ by updates that return normally: the
      status is 0, 1 or 2, the forward walk indexes a colour, the backward walk
      runs from len(colors) down to 0, and led.color only ever holds a colour of
      the list. */
  ghost predicate Inv<C>(st: Ctl<C>, colors: seq<C>)
  {
    0 <= st.status <= 2 &&
    (st.status == 1 ==> 0 <= st.colorIndex < |colors|) &&
    (st.status == 2 ==> 0 <= st.colorIndex <= |colors|) &&
    (st.shown.Some? ==> exists k :: 0 <= k < |colors| && st.shown.value == colors[k])
  }

  lemma InitInv<C>(colors: seq<C>)
    ensures Inv(Init(), colors)
    ensures Init<C>().status == 0 && Init<C>().colorIndex == 0 && Init<C>().timer == 0
  {
  }

  /** Every update that returns normally keeps the invariant; in particular the
      status never leaves {0, 1, 2} and led.color is always some colors[k] with
      0 <= k < len(colors). */
  lemma StepKeepsInv<C>(st: Ctl<C>, colors: seq<C>, timings: seq<int>)
    requires Inv(st, colors) && Step(st, colors, timings).Done?
    ensures Inv(Step(st, colors, timings).st, colors)
  {
    var r := Step(st, colors, timings).st;
    if r.shown.Some? && r.shown != st.shown {
      if st.status == 0 {
        assert r.shown.value == colors[0];
      } else if st.status == 1 {
        assert r.shown.value == colors[st.colorIndex + 1];
      } else {
        assert r.shown.value == colors[st.colorIndex - 1];
      }
    }
  }

  /** From status 0 one update starts the forward walk at the first colour and
      shows it, or raises IndexError when there is no colour. */
  lemma FromStatusZero<C>(st: Ctl<C>, colors: seq<C>, timings: seq<int>)
    requires st.status == 0
    ensures |colors| == 0 <==> Step(st, colors, timings).Raised?
    ensures |colors| > 0 ==> Step(st, colors, timings) == Done(Ctl(1, 0, st.timer + 1, Some(colors[0])))
  {
  }

  /** Every normal update ends with the timer one past its value before the
      increment: 1 after a reset on a timing match, otherwise one more than
      before, and without a match the index and the status are unchanged. */
  lemma TimerTicks<C>(st: Ctl<C>, colors: seq<C>, timings: seq<int>)
    requires Inv(st, colors) && st.status != 0 && Step(st, colors, timings).Done?
    ensures var r := Step(st, colors, timings).st;
      var matched := st.timer == timings[st.colorIndex];
      r.timer == (if matched then 1 else st.timer + 1) &&
      (!matched ==> r.status == st.status && r.colorIndex == st.colorIndex && r.shown == st.shown)
  {
  }

  /** On a timing match in status 1 the index advances; the next colour is shown
      when there is one, otherwise the walk turns round (status 2). */
  lemma ForwardMatch<C>(st: Ctl<C>, colors: seq<C>, timings: seq<int>)
    requires Inv(st, colors) && st.status == 1
    requires st.colorIndex < |timings| && st.timer == timings[st.colorIndex]
    ensures var r := Step(st, colors, timings);
      r.Done? && r.st.colorIndex == st.colorIndex + 1 && r.st.timer == 1 &&
      (r.st.colorIndex < |colors| ==> r.st.status == 1 && r.st.shown == Some(colors[r.st.colorIndex])) &&
      (r.st.colorIndex >= |colors| ==> r.st.status == 2 && r.st.shown == st.shown)
  {
  }

  /** On a timing match in status 2 the index goes back; the previous colour is
      shown when there is one, otherwise the controller starts over (status 0). */
  lemma BackwardMatch<C>(st: Ctl<C>, colors: seq<C>, timings: seq<int>)
    requires Inv(st, colors) && st.status == 2
    requires st.colorIndex < |timings| && st.timer == timings[st.colorIndex]
    ensures var r := Step(st, colors, timings);
      r.Done? && r.st.colorIndex == st.colorIndex - 1 && r.st.timer == 1 &&
      (r.st.colorIndex >= 0 ==> r.st.status == 2 && r.st.shown == Some(colors[r.st.colorIndex])) &&
      (r.st.colorIndex < 0 ==> r.st.status == 0 && r.st.shown == st.shown)
  {
  }

  /** The defect: the backward walk starts at index len(colors), one past the
      last colour, and its first update subscripts timings there. It raises
      IndexError exactly when there are no more timings than colours. */
  lemma TurnRoundReadsPastEnd<C>(st: Ctl<C>, colors: seq<C>, timings: seq<int>)
    requires Inv(st, colors) && st.status == 1 && Step(st, colors, timings).Done?
    requires Step(st, colors, timings).st.status == 2
    ensures var r := Step(st, colors, timings).st;
      r.colorIndex == |colors| &&
      (Step(r, colors, timings).Raised? <==> |timings| <= |colors|)
  {
  }

  /** Runs of updates from given fields, stopping at the first exception. */
  function Run<C>(st: Ctl<C>, colors: seq<C>, timings: seq<int>, n: nat): Outcome<C>
  {
    if n == 0 then Done(st)
    else match Run(st, colors, timings, n - 1)
      case Raised(e) => Raised(e)
      case Done(m) => Step(m, colors, timings)
  }

  /** One colour with one timing, the list lengths the example configuration
      pairs up: the third update raises. */
  lemma OneColourCrashes(c: int)
    ensures Run(Init(), [c], [1], 2) == Done(Ctl(2, 1, 1, Some(c)))
    ensures Run(Init(), [c], [1], 3).Raised?
  {
    assert Run(Init(), [c], [1], 1) == Done(Ctl(1, 0, 1, Some(c)));
  }

  /** update() with the backward walk starting at the last colour, the one still
      shown when the forward walk ends. */
  function StepFixed<C>(st: Ctl<C>, colors: seq<C>, timings: seq<int>): Outcome<C>
  {
    match Step(st, colors, timings)
    case Done(r) =>
      if st.status == 1 && r.status == 2 then Done(r.(colorIndex := |colors| - 1)) else Done(r)
    case Raised(r) => Raised(r)
  }

  function RunFixed<C>(st: Ctl<C>, colors: seq<C>, timings: seq<int>, n: nat): Outcome<C>
  {
    if n == 0 then Done(st)
    else match RunFixed(st, colors, timings, n - 1)
      case Raised(e) => Raised(e)
      case Done(m) => StepFixed(m, colors, timings)
  }

  /** What the corrected controller keeps: both walks index a colour. */
  ghost predicate InvFixed<C>(st: Ctl<C>, colors: seq<C>)
  {
    0 <= st.status <= 2 &&
    (st.status != 0 ==> 0 <= st.colorIndex < |colors|) &&
    (st.shown.Some? ==> exists k :: 0 <= k < |colors| && st.shown.value == colors[k])
  }

  /** With at least one colour and a timing for every colour, a corrected update
      never raises and keeps both walks on the list. */
  lemma StepFixedSafe<C>(st: Ctl<C>, colors: seq<C>, timings: seq<int>)
    requires 1 <= |colors| <= |timings| && InvFixed(st, colors)
    ensures StepFixed(st, colors, timings).Done?
    ensures InvFixed(StepFixed(st, colors, timings).st, colors)
  {
    var r := StepFixed(st, colors, timings).st;
    if r.shown.Some? && r.shown != st.shown {
      if st.status == 0 {
        assert r.shown.value == colors[0];
      } else if st.status == 1 {
        assert r.shown.value == colors[st.colorIndex + 1];
      } else {
        assert r.shown.value == colors[st.colorIndex - 1];
      }
    }
  }

  /** The intended behaviour: started from __init__, the corrected controller runs
      for any number of updates without an exception. */
  lemma {:induction false} RunFixedNeverRaises<C>(colors: seq<C>, timings: seq<int>, n: nat)
    requires 1 <= |colors| <= |timings|
    ensures RunFixed(Init(), colors, timings, n).Done?
    ensures InvFixed(RunFixed(Init(), colors, timings, n).st, colors)
  {
    if n > 0 {
      RunFixedNeverRaises(colors, timings, n - 1);
      StepFixedSafe(RunFixed(Init(), colors, timings, n - 1).st, colors, timings);
    }
  }

  /** The controller object; colors and timings are fixed at construction. */
  class RGBController<C> {
    const colors: seq<C>
    const timings: seq<int>
    var status: int
    var colorIndex: int
    var timer: int
    /** led.color, as last assigned by this controller. */
    var ledColor: Option<C>

    function State(): Ctl<C>
      reads this
    {
      Ctl(status, colorIndex, timer, ledColor)
    }

    constructor (colors: seq<C>, timings: seq<int>)
      ensures this.colors == colors && this.timings == timings
      ensures State() == Init()
    {
      this.colors := colors;
      this.timings := timings;
      status := 0;
      colorIndex := 0;
      timer := 0;
      ledColor := None;
    }

    /** update(); `raised` reports an IndexError, after which the fields are as
        far as the statements before the failing subscript assigned them. */
    method Update() returns (raised: bool)
      modifies this
      ensures raised == Step(old(State()), colors, timings).Raised?
      ensures State() == Step(old(State()), colors, timings).st
    {
      raised := false;
      if status == 0 {
        status := 1;
        colorIndex := 0;
        var c := PyIndex(colors, colorIndex);
        if c.None? {
          raised := true;
          return;
        }
        ledColor := c;
      } else if status == 1 {
        var t := PyIndex(timings, colorIndex);
        if t.None? {
          raised := true;
          return;
        }
        if timer == t.value {
          timer := 0;
          colorIndex := colorIndex + 1;
          if colorIndex < |colors| {
            var c := PyIndex(colors, colorIndex);
            if c.None? {
              raised := true;
              return;
            }
            ledColor := c;
          } else {
            status := 2;
          }
        }
      } else if status == 2 {
        var t := PyIndex(timings, colorIndex);
        if t.None? {
          raised := true;
          return;
        }
        if timer == t.value {
          timer := 0;
          colorIndex := colorIndex - 1;
          if colorIndex >= 0 {
            var c := PyIndex(colors, colorIndex);
            if c.None? {
              raised := true;
              return;
            }
            ledColor := c;
          } else {
            status := 0;
          }
        }
      }
      timer := timer + 1;
    }

    /** update() with the backward walk started at the last colour: the same
        update, after which a walk that has just turned round is moved back
        onto the list. */
    method UpdateFixed() returns (raised: bool)
      modifies this
      ensures raised == StepFixed(old(State()), colors, timings).Raised?
      ensures State() == StepFixed(old(State()), colors, timings).st
    {
      var before := status;
      raised := Update();
      if !raised && before == 1 && status == 2 {
        colorIndex := |colors| - 1;
      }
    }
  }
}
