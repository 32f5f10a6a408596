/** One iteration of the main loop of led_animation_task (main_app.c), after its
    start-up self-test. */
module AnimationTask {
  import opened Types
  import opened Globals
  import opened Transitions
  import Runs
  import MainApp
  import Buttons
  import Effects

  /** With the power off, every LED is switched off and the animation task sleeps for
      500 ms without dispatching anything; otherwise the effect of the current
      mode runs, with the outcome the dispatcher states, and once it returns the
      cancel flag is down. */
  method AnimationStep(s: Board, env: Effects.Env, k0: nat, d0: nat)
    returns (k: nat, d: nat, count: nat, ran: Option<Effect>)
    requires s.Valid()
    modifies s`transitionMode, s`ledOn, s`brightnessLevel, s`modeChanged, s`bus, s`hue, s`colorIdx
    ensures s.Valid()
    ensures !old(s.ledOn) ==>
      ran == None && d == d0 && k == k0 + 1 && s.hue == old(s.hue) && s.colorIdx == old(s.colorIdx) &&
      var a := Runs.Arrivals(env.script, k0);
      s.State() == Buttons.HandleAll(old(s.State()), a) &&
      s.bus == old(s.bus) + MainApp.AllOffFrames() + Buttons.ButtonWrites(old(s.State()), a)
    ensures old(s.ledOn) ==>
      ran == Some(EffectFor(old(s.transitionMode))) && !s.modeChanged &&
      Effects.Dispatched(EffectFor(old(s.transitionMode)), env, old(s.State()), old(s.bus), old(s.hue),
                         old(s.colorIdx), d0, k0, count, s.State(), s.bus, s.hue, s.colorIdx, d, k)
  {
    if !s.ledOn {
      MainApp.TurnOffAllLeds(s);
      k := Effects.Pause(s, env.script, k0);
      d, count, ran := d0, 0, None;
      return;
    }
    var mode := s.transitionMode;
    k, d, count := Effects.ApplyTransitionByMode(s, mode, env, k0, d0);
    ran := Some(EffectFor(mode));
  }
}
