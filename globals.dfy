/** The firmware's process-wide state: the globals of main_app.c and buttons.c,
    the static locals of the effect functions, and a ghost log of every frame
    written to the PWM controller over I2C. */
module Globals {
  import opened Types

  /** The control state shared between the button task and the animation task. */
  datatype Controls = Controls(mode: int, ledOn: bool, level: int, modeChanged: bool)
  {
    /** The ranges every handler keeps the shared fields in. */
    predicate InRange() {
      0 <= mode < 3 && 0 <= level < 3
    }
  }

  class Board {
    /** transition_mode: 0 dissolve, 1 rainbow, 2 breathing. */
    var transitionMode: int
    /** led_on: the power flag. */
    var ledOn: bool
    /** brightness_level: index into brightness_vals. */
    var brightnessLevel: int
    /** mode_changed: raised by the button task, cleared by the dispatcher. */
    var modeChanged: bool
    /** The static `hue` of the rainbow effect; it only ever holds whole degrees. */
    var hue: int
    /** The static `color_idx` of the breathing effect. */
    var colorIdx: int
    /** Every 5-byte frame written to the PWM controller, oldest first. */
    ghost var bus: seq<Frame>

    ghost predicate Valid()
      reads this
    {
      State().InRange() && 0 <= hue < 360 && 0 <= colorIdx < 12
    }

    function State(): Controls
      reads this
    {
      Controls(transitionMode, ledOn, brightnessLevel, modeChanged)
    }

    /** The initial values of the globals and statics. */
    constructor ()
      ensures Valid()
      ensures State() == Controls(0, true, 1, false)
      ensures hue == 0 && colorIdx == 0 && bus == []
    {
      transitionMode, ledOn, brightnessLevel, modeChanged := 0, true, 1, false;
      hue, colorIdx := 0, 0;
      bus := [];
    }
  }
}
