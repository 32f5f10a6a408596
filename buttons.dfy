/** The control-state machine of buttons.c: the debounce decision of the button
    interrupt handler and the button task's reaction to each queued event. */
module Buttons {
  import opened Types
  import opened Globals
  import MainApp

  /** DEBOUNCE_TIME: the minimum spacing, in milliseconds, of accepted presses. */
  const DebounceMs := 400
  /** Mode, toggle and brightness buttons; the interrupt argument is the index. */
  const ButtonCount := 3
  /** The event queue is created with room for ten events (main_app.c). */
  const QueueCapacity := 10

  /** The button task's reaction to one event: a mode event advances the mode
      modulo 3 and raises the cancel flag, a toggle flips the power flag, a
      brightness event advances the tier modulo 3, and anything else is ignored. */
  function Handle(c: Controls, evt: int): Controls
  {
    if evt == EventMode then c.(mode := CRem(c.mode + 1, 3), modeChanged := true)
    else if evt == EventToggle then c.(ledOn := !c.ledOn)
    else if evt == EventBright then c.(level := CRem(c.level + 1, 3))
    else c
  }

  /** The reaction to a batch of events received in order. */
  function HandleAll(c: Controls, events: seq<int>): Controls
  {
    if events == [] then c
    else Handle(HandleAll(c, events[..|events| - 1]), events[|events| - 1])
  }

  /** Each event touches only its own field(s) and keeps every field in range;
      an event outside the enumeration changes nothing. */
  lemma HandleEffects(c: Controls, evt: int)
    requires c.InRange()
    ensures Handle(c, evt).InRange()
    ensures evt == EventMode ==>
      Handle(c, evt) == c.(mode := (c.mode + 1) % 3, modeChanged := true)
    ensures evt == EventToggle ==> Handle(c, evt) == c.(ledOn := !c.ledOn)
    ensures evt == EventBright ==> Handle(c, evt) == c.(level := (c.level + 1) % 3)
    ensures evt !in {EventMode, EventToggle, EventBright} ==> Handle(c, evt) == c
  {
  }

  /** After any batch of events the mode has advanced once per mode event, the
      power flag has flipped once per toggle, the tier has advanced once per
      brightness event, and the cancel flag is up exactly when it was already
      up or some mode event arrived. */
  lemma HandleAllCounts(c: Controls, events: seq<int>)
    requires c.InRange()
    ensures var d := HandleAll(c, events);
      d.InRange() &&
      d.mode == (c.mode + multiset(events)[EventMode]) % 3 &&
      d.ledOn == (c.ledOn != (multiset(events)[EventToggle] % 2 == 1)) &&
      d.level == (c.level + multiset(events)[EventBright]) % 3 &&
      d.modeChanged == (c.modeChanged || EventMode in events)
  {
    HandleAllMode(c, events);
    HandleAllPower(c, events);
    HandleAllLevel(c, events);
    HandleAllCancel(c, events);
  }

  /** Handling any batch keeps the mode and the tier in range. */
  lemma {:induction false} HandleAllInRange(c: Controls, events: seq<int>)
    requires c.InRange()
    ensures HandleAll(c, events).InRange()
  {
    if events != [] {
      HandleAllInRange(c, events[..|events| - 1]);
      HandleEffects(HandleAll(c, events[..|events| - 1]), events[|events| - 1]);
    }
  }

  /** The mode advances once per mode event, modulo 3. */
  lemma {:induction false} HandleAllMode(c: Controls, events: seq<int>)
    requires c.InRange()
    ensures HandleAll(c, events).InRange()
    ensures HandleAll(c, events).mode == (c.mode + multiset(events)[EventMode]) % 3
  {
    if events != [] {
      var init, last := events[..|events| - 1], events[|events| - 1];
      assert events == init + [last];
      HandleAllMode(c, init);
      HandleEffects(HandleAll(c, init), last);
      assert multiset(events) == multiset(init) + multiset{last};
      if last == EventMode {
        AdvanceMod3(c.mode + multiset(init)[EventMode]);
      }
    }
  }

  /** The power flag flips once per toggle event. */
  lemma {:induction false} HandleAllPower(c: Controls, events: seq<int>)
    ensures HandleAll(c, events).ledOn == (c.ledOn != (multiset(events)[EventToggle] % 2 == 1))
  {
    if events != [] {
      var init, last := events[..|events| - 1], events[|events| - 1];
      assert events == init + [last];
      HandleAllPower(c, init);
      assert multiset(events) == multiset(init) + multiset{last};
    }
  }

  /** The brightness tier advances once per brightness event, modulo 3. */
  lemma {:induction false} HandleAllLevel(c: Controls, events: seq<int>)
    requires c.InRange()
    ensures HandleAll(c, events).level == (c.level + multiset(events)[EventBright]) % 3
  {
    if events != [] {
      var init, last := events[..|events| - 1], events[|events| - 1];
      assert events == init + [last];
      HandleAllLevel(c, init);
      HandleAllMode(c, init);
      HandleEffects(HandleAll(c, init), last);
      assert multiset(events) == multiset(init) + multiset{last};
      if last == EventBright {
        AdvanceMod3(c.level + multiset(init)[EventBright]);
      }
    }
  }

  /** The cancel flag is up after a batch exactly when it was up before or the
      batch held a mode event. */
  lemma {:induction false} HandleAllCancel(c: Controls, events: seq<int>)
    ensures HandleAll(c, events).modeChanged == (c.modeChanged || EventMode in events)
  {
    if events != [] {
      var init, last := events[..|events| - 1], events[|events| - 1];
      assert events == init + [last];
      HandleAllCancel(c, init);
    }
  }

  /** Advancing a residue modulo 3 by one is advancing the number by one. */
  lemma AdvanceMod3(a: int)
    ensures (a % 3 + 1) % 3 == (a + 1) % 3
  {
  }

  /** Three mode events bring the mode back where it was (and raise the cancel
      flag). */
  lemma ModeEventsCycle(c: Controls)
    requires c.InRange()
    ensures HandleAll(c, [EventMode, EventMode, EventMode]) == c.(modeChanged := true)
  {
    HandleAllUnfolds(c, EventMode, EventMode, EventMode);
    var m1 := Handle(c, EventMode);
    var m2 := Handle(m1, EventMode);
    assert m1 == c.(mode := CRem(c.mode + 1, 3), modeChanged := true);
    assert m2 == c.(mode := CRem(m1.mode + 1, 3), modeChanged := true);
    assert Handle(m2, EventMode) == c.(mode := CRem(m2.mode + 1, 3), modeChanged := true);
    AdvanceThrice(c.mode);
  }

  /** Three steps around the three modes come back to the start. */
  lemma AdvanceThrice(m: int)
    requires 0 <= m < 3
    ensures CRem(CRem(CRem(m + 1, 3) + 1, 3) + 1, 3) == m
  {
  }

  /** Two toggles restore the power flag and change nothing else. */
  lemma ToggleTwiceRestores(c: Controls)
    ensures HandleAll(c, [EventToggle, EventToggle]) == c
  {
    var one, two := [EventToggle], [EventToggle, EventToggle];
    assert one[..0] == [];
    assert HandleAll(c, one) == c.(ledOn := !c.ledOn);
    assert two[..1] == one;
  }

  /** Three brightness events bring the tier back where it was and change
      nothing else. */
  lemma BrightEventsCycle(c: Controls)
    requires c.InRange()
    ensures HandleAll(c, [EventBright, EventBright, EventBright]) == c
  {
    HandleAllUnfolds(c, EventBright, EventBright, EventBright);
    var b1 := Handle(c, EventBright);
    HandleEffects(c, EventBright);
    HandleEffects(b1, EventBright);
    HandleEffects(Handle(b1, EventBright), EventBright);
  }

  /** A batch of three events is handled one after another. */
  lemma HandleAllUnfolds(c: Controls, a: int, b: int, e: int)
    ensures HandleAll(c, [a, b, e]) == Handle(Handle(Handle(c, a), b), e)
  {
    var one, two, three := [a], [a, b], [a, b, e];
    assert one[..0] == [];
    assert HandleAll(c, one) == Handle(c, a);
    assert two[..1] == one;
    assert HandleAll(c, two) == Handle(HandleAll(c, one), b);
    assert three[..2] == two;
  }

  /** What handling one event writes to the PWM controller, given the state after
      it: all LEDs off exactly when a toggle has just turned the power off. */
  function ToggleWrites(after: Controls, evt: int): seq<Frame>
  {
    if evt == EventToggle && !after.ledOn then MainApp.AllOffFrames() else []
  }

  /** What handling a batch of events writes, in order. */
  function ButtonWrites(c: Controls, events: seq<int>): seq<Frame>
  {
    if events == [] then []
    else ButtonWrites(c, events[..|events| - 1]) + ToggleWrites(HandleAll(c, events), events[|events| - 1])
  }

  /** One pass of button_task's switch on a received event. */
  method HandleEvent(s: Board, evt: int)
    requires s.Valid()
    modifies s`transitionMode, s`ledOn, s`brightnessLevel, s`modeChanged, s`bus
    ensures s.Valid()
    ensures s.State() == Handle(old(s.State()), evt)
    ensures s.bus == old(s.bus) + ToggleWrites(s.State(), evt)
  {
    if evt == EventMode {
      s.transitionMode := CRem(s.transitionMode + 1, 3);
      s.modeChanged := true;
    } else if evt == EventToggle {
      s.ledOn := !s.ledOn;
      if !s.ledOn {
        MainApp.TurnOffAllLeds(s);
      }
    } else if evt == EventBright {
      s.brightnessLevel := CRem(s.brightnessLevel + 1, 3);
    }
  }

  /** button_task receiving and handling a batch of queued events in order. */
  method ButtonTask(s: Board, events: seq<int>)
    requires s.Valid()
    modifies s`transitionMode, s`ledOn, s`brightnessLevel, s`modeChanged, s`bus
    ensures s.Valid()
    ensures s.State() == HandleAll(old(s.State()), events)
    ensures s.bus == old(s.bus) + ButtonWrites(old(s.State()), events)
  {
    for i := 0 to |events|
      invariant s.Valid()
      invariant s.State() == HandleAll(old(s.State()), events[..i])
      invariant s.bus == old(s.bus) + ButtonWrites(old(s.State()), events[..i])
    {
      HandleEvent(s, events[i]);
      assert events[..i + 1][..i] == events[..i];
    }
    assert events[..|events|] == events;
  }

  /** The interrupt handler's debounce decision for button `btn` pressed at time
      `now` (milliseconds): accepted when more than DebounceMs have passed since
      the last accepted press of that button, whose time is then updated. */
  function DebounceStep(last: seq<int>, btn: int, now: int): (bool, seq<int>)
    requires 0 <= btn < |last|
  {
    var accepted := now - last[btn] > DebounceMs;
    (accepted, if accepted then last[btn := now] else last)
  }

  /** A press only ever touches its own button's entry, and sets it to the press
      time exactly when accepted. */
  lemma DebounceTouchesOwnEntry(last: seq<int>, btn: int, now: int)
    requires 0 <= btn < |last|
    ensures var (accepted, last') := DebounceStep(last, btn, now);
      |last'| == |last| &&
      (forall j :: 0 <= j < |last| && j != btn ==> last'[j] == last[j]) &&
      last'[btn] == (if accepted then now else last[btn])
  {
  }

  /** A button press as seen by the interrupt handler. */
  datatype Press = Press(btn: int, time: int)

  predicate PressesValid(last: seq<int>, ps: seq<Press>)
  {
    forall i :: 0 <= i < |ps| ==> 0 <= ps[i].btn < |last|
  }

  /** The times of the accepted presses of button `b`, over a run of presses. */
  function AcceptedTimes(last: seq<int>, b: int, ps: seq<Press>): seq<int>
    requires 0 <= b < |last| && PressesValid(last, ps)
    decreases |ps|
  {
    if ps == [] then []
    else
      var (accepted, last') := DebounceStep(last, ps[0].btn, ps[0].time);
      (if accepted && ps[0].btn == b then [ps[0].time] else []) + AcceptedTimes(last', b, ps[1..])
  }

  /** Each time is more than DebounceMs after the one before it, the first one
      more than DebounceMs after `start`. */
  predicate Spaced(start: int, times: seq<int>)
  {
    forall i :: 0 <= i < |times| ==> times[i] - (if i == 0 then start else times[i - 1]) > DebounceMs
  }

  lemma SpacedAt(start: int, times: seq<int>, j: int)
    requires Spaced(start, times) && 0 <= j < |times|
    ensures times[j] - (if j == 0 then start else times[j - 1]) > DebounceMs
  {
  }

  /** Over any run of presses of any buttons, each accepted press of a button is
      more than DebounceMs after the previous accepted press of that button
      (the first one after the initial time). */
  lemma {:induction false} AcceptedTimesSpaced(last: seq<int>, b: int, ps: seq<Press>)
    requires 0 <= b < |last| && PressesValid(last, ps)
    ensures Spaced(last[b], AcceptedTimes(last, b, ps))
    decreases |ps|
  {
    if ps != [] {
      var (accepted, last') := DebounceStep(last, ps[0].btn, ps[0].time);
      DebounceTouchesOwnEntry(last, ps[0].btn, ps[0].time);
      assert PressesValid(last', ps[1..]);
      AcceptedTimesSpaced(last', b, ps[1..]);
      var rest := AcceptedTimes(last', b, ps[1..]);
      assert Spaced(last'[b], rest);
      if accepted && ps[0].btn == b {
        var acc := [ps[0].time] + rest;
        assert AcceptedTimes(last, b, ps) == acc;
        assert last'[b] == ps[0].time;
        forall i | 0 <= i < |acc|
          ensures acc[i] - (if i == 0 then last[b] else acc[i - 1]) > DebounceMs
        {
          if i > 0 {
            assert acc[i] == rest[i - 1] && acc[i - 1] == (if i == 1 then last'[b] else rest[i - 2]);
            SpacedAt(last'[b], rest, i - 1);
          }
        }
      } else {
        assert last'[b] == last[b];
        assert AcceptedTimes(last, b, ps) == rest;
      }
    }
  }

  /** The interrupt side: the last accepted press time of each button and the
      event queue shared with the button task. */
  class Debouncer {
    /** last_btn_press_time, in milliseconds. */
    var lastPress: array<int>
    /** The contents of button_evt_queue, oldest first. */
    var queue: seq<int>

    ghost predicate Valid()
      reads this
    {
      lastPress.Length == ButtonCount && |queue| <= QueueCapacity
    }

    constructor ()
      ensures Valid() && fresh(lastPress)
      ensures lastPress[..] == [0, 0, 0] && queue == []
    {
      lastPress := new int[ButtonCount](_ => 0);
      queue := [];
    }

    /** button_isr_handler for button `btn` at time `now`: on acceptance the event
        is sent (dropped if the queue is full, as the send result is ignored) and
        the button's last press time is updated; on rejection nothing changes. */
    method Isr(btn: int, now: int) returns (accepted: bool)
      requires Valid() && 0 <= btn < ButtonCount
      modifies this`queue, lastPress
      ensures Valid()
      ensures (accepted, lastPress[..]) == DebounceStep(old(lastPress[..]), btn, now)
      ensures queue == if accepted && |old(queue)| < QueueCapacity then old(queue) + [btn] else old(queue)
    {
      accepted := now - lastPress[btn] > DebounceMs;
      if accepted {
        if |queue| < QueueCapacity {
          queue := queue + [btn];
        }
        lastPress[btn] := now;
      }
    }

    /** xQueueReceive: the oldest queued event, if any (the blocking wait is not modelled). */
    method Receive() returns (evt: Option<int>)
      requires Valid()
      modifies this`queue
      ensures Valid()
      ensures old(queue) == [] ==> evt == None && queue == []
      ensures old(queue) != [] ==> evt == Some(old(queue)[0]) && queue == old(queue)[1..]
    {
      if queue == [] {
        evt := None;
      } else {
        evt := Some(queue[0]);
        queue := queue[1..];
      }
    }
  }
}
