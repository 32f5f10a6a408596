# ESP32 RGB transition light: a verified model of its control core

The firmware drives five RGB LEDs through a PCA9685 12-bit PWM controller over
I2C. Three buttons raise interrupts. A debounced interrupt handler queues button
events, and a button task turns them into changes of four globals: the effect
mode, the power flag, the brightness tier and a cancel flag. An animation task
runs one of three effects, chosen by the mode:
- dissolve: the LEDs are re-coloured one by one, through white;
- rainbow: a hue wheel spread over the LEDs;
- breathing: all LEDs pulse in one palette colour.

A separate Python class, `RGBController`, sequences one LED forward and
backward through a list of colours.

The model has eight modules:

- `Types`: `uint8_t`/`uint16_t` as subset types, the `rgb_color_t` record, the
  button event codes, C's truncating `%` (`CRem`) and C's float-to-int
  conversion (`Trunc`).
- `Globals`: the firmware's globals and effect statics as the `Board` class,
  with a ghost log `bus` of every 5-byte frame sent to the PWM controller.
- `MainApp`: the brightness scaling and full-off choice of `set_pwm_duty`, the
  PCA9685 frame of `pca9685_set_pwm` with a decoder that inverts it,
  `set_rgb_led` and `turn_off_all_leds`. Each of them is a method that appends
  to the bus log, proved against a function that specifies the frames.
- `Buttons`: the button task's event handling, both as a pure function over the
  shared control state and as methods on the board. It also has the interrupt
  handler's debounce decision, as a function and as a `Debouncer` class that
  owns the `last_btn_press_time` array and the event queue.
- `Transitions`: the palette and its random draw, and the ease-in-out
  interpolation. Its float factor is modelled on reals; the integer truncation
  and the uint16 store are written out. It also has the rainbow hue accumulator
  and its six HSV sectors, the breathing colour curve, the dissolve hold time
  and the dispatcher's choice of effect.
- `Runs`: what an effect does, as a value. A run is a list of steps. Each step
  is a batch of `set_rgb_led` calls followed by one `vTaskDelay`, during which
  the button task handles the events that arrived. `Steps` computes the trace
  of a run from a control state. The trace holds the control state before each
  step, the state after the last delay, every frame written in order at the
  brightness tier in force at the time, and the number of steps that wrote
  although they started with the cancel flag up.
- `Effects`: the three effect loops and `apply_transition_by_mode`, run against
  the board. Every `vTaskDelay` becomes `Pause`, during which the button task
  handles the next entry of a script of arrived events. This is how a button
  press reaches a running effect. Each effect method is proved against the run
  of its steps. The board ends in the control state of that run, and its bus
  log grows by exactly the run's frames. `AnimationTask` models one pass of the
  animation task's main loop.
- `Crystal`: `RGBController.update` as a function over the controller's fields,
  with Python's list subscription and its IndexError. It is also modelled as a
  class whose `Update` method is proved against that function.

Float curves are parameters:
- the HSV secondary component is `secondary`;
- the gamma-corrected rise and the linear fall of breathing are `rise` and
  `fall`;
- the random words of `esp_random()` are `random`.

## Model

| member | source | states |
|---|---|---|
| Globals.Board.constructor | src/main_app.c:34-36 | the start state: mode 0 (dissolve), power on, brightness tier 1, cancel flag down, rainbow hue 0, breathing palette index 0, nothing written yet |
| MainApp.AdjustedDuty | src/main_app.c:84 | the duty scaled by `brightness_vals[level] / 4095` in integer arithmetic never exceeds the duty |
| MainApp.DriveSetting | src/main_app.c:84-93 | the ON/OFF counts `set_pwm_duty` writes for a duty at a tier; its properties are those of DriveSettingBounds and ZeroDutyIsFullOff |
| MainApp.DriveSettingBounds | src/main_app.c:82-94 | the scaled duty is at most the tier's scale, which is at most 4000. A zero scaled duty is written as (ON 4096, OFF 0). Any other is written as (ON 0, OFF 4095 - scaled), with OFF in [95, 4094], so the uint16 subtraction never wraps |
| MainApp.ZeroDutyIsFullOff | src/main_app.c:84-88 | a zero duty takes the full-off path at every brightness tier |
| MainApp.TierOrder | src/main_app.c:37 | for the same duty, tier 0 scales at least as high as tier 1, and tier 1 at least as high as tier 2 |
| MainApp.PwmFrame | src/main_app.c:68-74 | the frame is five bytes and starts with the LEDn_ON_L register address 0x06 + 4n |
| MainApp.WordBytes | src/main_app.c:71-74 | the low and high bytes of a little-endian word are the bytes it was built from |
| MainApp.DecodeFrame | src/main_app.c:68-74 | reads a five-byte frame back into output, ON and OFF; FrameRoundTrip and DecodeThenEncode prove it the inverse of PwmFrame |
| MainApp.FrameRoundTrip | src/main_app.c:68-75 | decoding the frame of output n < 16 recovers n, ON and OFF |
| MainApp.DecodeThenEncode | src/main_app.c:68-75 | every frame that decodes is exactly the frame of what it decodes to |
| MainApp.FullOffFrame | src/main_app.c:86-88 | the full-off frame of output n is [0x06 + 4n, 0x00, 0x10, 0x00, 0x00] |
| MainApp.RgbFrames | src/main_app.c:97-107 | the frames `set_rgb_led` sends; their layout is stated by RgbFramesLayout |
| MainApp.RgbFramesLayout | src/main_app.c:97-107 | an LED index of 5 or more writes nothing, and only such an index writes nothing. Any other index writes exactly three frames, to outputs 3i, 3i+1 and 3i+2 (all below 15), carrying R, G and B in that order |
| MainApp.AllOffFrames | src/main_app.c:110-114 | turning everything off writes one frame per output, fifteen in all |
| MainApp.BlackLedIsOff | src/main_app.c:110-113 | black on LED i writes the full-off frames of outputs 3i..3i+2, at any tier |
| MainApp.PcaSetPwm | src/main_app.c:68-79 | appends exactly the frame for (channel, ON, OFF) to the bus |
| MainApp.SetPwmDuty | src/main_app.c:82-94 | appends one frame: the output's drive setting at the current tier |
| MainApp.SetRgbLed | src/main_app.c:97-107 | appends the three frames of the LED's R, G and B outputs, or nothing for an index past the last LED |
| MainApp.TurnOffAllLeds | src/main_app.c:110-114 | appends the full-off frames of all fifteen outputs, in ascending output order |
| Buttons.Handle | src/buttons.c:61-89 | the control state after one event; HandleEffects states what each event does |
| Buttons.HandleAll | src/buttons.c:56-92 | the control state after a batch of events handled in arrival order; HandleAllCounts states its outcome |
| Buttons.HandleEffects | src/buttons.c:62-88 | each event keeps mode and tier in range and touches only its own fields. A mode event sets mode := (mode + 1) % 3 and raises the cancel flag. A toggle flips the power flag. A brightness event sets tier := (tier + 1) % 3. Any other value changes nothing |
| Buttons.HandleAllCounts | src/buttons.c:56-92 | after any batch of events: the mode has advanced once per mode event (mod 3), the power flag has flipped once per toggle, and the tier has advanced once per brightness event (mod 3). The cancel flag is up exactly when it was up before or the batch held a mode event |
| Buttons.HandleAllInRange | src/buttons.c:62-83 | any batch keeps the mode and the tier in {0, 1, 2} |
| Buttons.HandleAllMode | src/buttons.c:62-68 | the mode advances once per mode event, modulo 3, and stays in range |
| Buttons.HandleAllPower | src/buttons.c:71-76 | the power flag flips once per toggle event |
| Buttons.HandleAllLevel | src/buttons.c:79-83 | the brightness tier advances once per brightness event, modulo 3 |
| Buttons.HandleAllCancel | src/buttons.c:62-68 | the cancel flag is up after a batch exactly when it was up before or a mode event arrived |
| Buttons.ModeEventsCycle | src/buttons.c:65-66 | three mode events restore the mode and change nothing else but the cancel flag, which they raise |
| Buttons.ToggleTwiceRestores | src/buttons.c:73 | two toggles restore the whole control state |
| Buttons.BrightEventsCycle | src/buttons.c:81 | three brightness events restore the whole control state |
| Buttons.HandleEvent | src/buttons.c:61-89 | the board's control state becomes that of handling the event. All LEDs are turned off exactly when a toggle has just switched the power off; otherwise nothing is written |
| Buttons.ButtonTask | src/buttons.c:56-92 | a batch of received events is handled in order: the state after it, and everything it writes in order |
| Buttons.DebounceStep | src/buttons.c:27-36 | the debounce decision and the new last-press table; DebounceTouchesOwnEntry and AcceptedTimesSpaced state its properties |
| Buttons.DebounceTouchesOwnEntry | src/buttons.c:32-35 | a press changes only its own button's last-press entry. That entry becomes the press time exactly when the press is accepted |
| Buttons.AcceptedTimesSpaced | src/buttons.c:23-36 | over any run of presses of any buttons, each accepted press of a button is more than 400 ms after that button's previous accepted press; the first is more than 400 ms after the initial time |
| Buttons.Debouncer.constructor | src/buttons.c:23 | all last-press times start at 0 and the queue is empty |
| Buttons.Debouncer.Isr | src/buttons.c:27-37 | the press is accepted exactly when more than 400 ms have passed since that button's last accepted press. On acceptance its event is queued (dropped when the queue of 10 is full) and only its entry is set to now. On rejection nothing changes |
| Buttons.Debouncer.Receive | src/buttons.c:60 | the oldest queued event is removed and returned, or nothing when the queue is empty |
| Transitions.RandomColor | src/transitons.c:33-35 | the palette entry a random word draws; RandomColorInPalette and EveryPaletteEntryDrawn state its range |
| Transitions.RandomColorInPalette | src/transitons.c:27-35 | every random draw is one of the twelve palette entries, and every channel is at most 4095 |
| Transitions.EveryPaletteEntryDrawn | src/transitons.c:33-35 | every palette entry k is drawn, by the random word k |
| Transitions.EaseFactor | src/transitons.c:38 | the ease-in-out factor on reals; EaseFactorBounds states its range and endpoints |
| Transitions.EaseFactorBounds | src/transitons.c:38 | on [0, 1] the ease factor runs from exactly 0 to exactly 1 and stays within [0, 1] |
| Transitions.Lerp | src/transitons.c:40-42 | one channel of the interpolation with its truncation and uint16 store; LerpBetween states its range |
| Transitions.Interpolate | src/transitons.c:37-45 | at progress 0 the start colour, at progress 1 the end colour, and a colour faded to itself stays put at any progress |
| Transitions.LerpBetween | src/transitons.c:40-42 | with a factor in [0, 1] a channel lands between its endpoints: the truncation never overshoots and the uint16 store never wraps |
| Transitions.InterpolateBetween | src/transitons.c:37-45 | for progress in [0, 1] the colour lies channel-wise between the endpoints, so fading between in-gamut colours stays in gamut |
| Transitions.Fade | src/transitons.c:130-132 | a fade has FADE_STEPS + 1 = 101 frames, from exactly the start colour to exactly the end colour |
| Transitions.NextHue | src/transitons.c:117-118 | the hue after one rainbow frame; NextHueMod and HueAfterIsModular state it is +3 modulo 360 |
| Transitions.NextHueMod | src/transitons.c:117-118 | advancing a hue already reduced modulo 360 gives the next hue modulo 360 |
| Transitions.HueAfter | src/transitons.c:117-118 | the rainbow hue never leaves [0, 360) |
| Transitions.HueAfterIsModular | src/transitons.c:117-118 | after n frames the hue is the start advanced by 3n degrees, modulo 360 |
| Transitions.HueCycle | src/transitons.c:99-118 | every 120 frames the hue is back where it started. From hue 0 it is 0 again exactly after a multiple of 120 frames |
| Transitions.LedHue | src/transitons.c:103 | the per-LED hue (hue + 60i) % 360 lies in [0, 360) |
| Transitions.SectorColor | src/transitons.c:109-115 | the colour of a hue's HSV sector; SectorChannels and SectorIsStandardHsv state which channel is full, dark and secondary |
| Transitions.SectorChannels | src/transitons.c:109-114 | in every sector, the three channels are one full (4095), one dark (0) and the secondary component |
| Transitions.SectorIsStandardHsv | src/transitons.c:109-115 | in sector s = h / 60 the full channel is ((s + 1) / 2) mod 3 and the dark one is (s / 2 + 2) mod 3. They differ, and the remaining channel carries the secondary component |
| Transitions.RainbowFrame | src/transitons.c:101-116 | the five colours of one rainbow frame, LED i at hue (hue + 60i) % 360; ShowRainbowFrame is proved to write exactly these |
| Transitions.BreathCycle | src/transitons.c:64-90 | one breathing colour is 2 x 101 frames, a rise and a fall |
| Transitions.HoldMs | src/transitons.c:159 | the dissolve hold for a random word; HoldMsRange states its range |
| Transitions.HoldMsRange | src/transitons.c:159 | the dissolve hold takes exactly the values 1000..2999 ms |
| Transitions.EffectFor | src/transitons.c:165-171 | the effect the dispatcher's switch selects; EffectForModes states which mode selects which |
| Transitions.EffectForModes | src/transitons.c:165-171 | rainbow runs exactly for mode 1, breathing exactly for mode 2, and dissolve for every other value |
| Runs.Steps | src/transitons.c:72-75 | the trace of a run: it has one before-state per step, the first being the start state, and its end state keeps mode and tier in range |
| Runs.OneStep | src/transitons.c:72-75 | one step writes its batch at the tier of the state it starts in, then the button task handles that delay's events: the end state is HandleAll of them and the frames are the batch's followed by the button task's |
| Runs.StepsAppend | src/transitons.c:64-90 | running two lists of steps one after the other is running their concatenation, the second starting where the first ended |
| Runs.Chain | src/transitons.c:64-90 | a run reaching a state, followed by a run from that state, reaches the second run's end with the bus logs joined, the before-states joined and the late steps added |
| Runs.Delayed | src/transitons.c:72-75 | one step on the board's log: frames of the batch at the current tier, then the button task's frames, ending in HandleAll of the delay's events |
| Runs.NoLateSteps | src/transitons.c:64-65 | a run has no late steps exactly when every step that wrote anything started with the cancel flag down |
| Effects.Pause | src/transitons.c:75 | a delay: the control state becomes HandleAll of the events that arrived, the bus grows by the button task's frames, and it is the run of one empty step |
| Effects.ShowFrame | src/transitons.c:133-135 | one frame writes colour i to LED i, for every LED in index order, at the current tier |
| Effects.ShowAndPause | src/transitons.c:72-75 | one breathing frame and its delay: the board has run the one step that puts the colour on all five LEDs |
| Effects.ShowRainbowFrame | src/transitons.c:101-116 | the frames written are those of the rainbow frame at the current hue, LED by LED |
| Effects.RainbowStep | src/transitons.c:101-119 | one rainbow pass: the board has run the step showing the frame at the old hue, and the hue has advanced by 3 degrees with its wrap at 360 |
| Effects.RainbowSteps | src/transitons.c:100-119 | a rainbow run of n frames has n steps |
| Effects.RainbowStepsNext | src/transitons.c:100-120 | a rainbow run one frame longer ends with the frame at the hue reached |
| Effects.RainbowRepeats | src/transitons.c:117-118 | frame f + 120 of a rainbow run shows the same colours as frame f |
| Effects.RainbowLoop | src/transitons.c:98-121 | the board has run the frames of the hue sequence from the static hue: control state and bus are those of that run, and the hue is left at the hue reached. Every frame started with the power on and mode 1. Before the end of the event script the loop stops only when the power is off or the mode has changed |
| Effects.BreathRun | src/transitons.c:64-92 | one breathing colour is 203 steps: 202 frames and the 300 ms hold |
| Effects.BreathSteps | src/transitons.c:54-93 | n complete breathing colours are 203n steps |
| Effects.BreathStepsCycle | src/transitons.c:54-93 | colour c of a breathing run sits at steps 203c..203c+202 and shows palette entry (idx + c) mod 12 |
| Effects.BreathStepsNext | src/transitons.c:92-93 | a run one colour longer appends the colour of the next palette entry |
| Effects.BreathedNext | src/transitons.c:64-76 | a step that writes only when it starts with the cancel flag down extends a run without late steps |
| Effects.BreathRise | src/transitons.c:64-76 | the rise checks the cancel flag before every frame. Uncancelled it runs all 101 rise steps. Cancelled it stops with the flag up after at least one step. Either way the board has run that prefix of the colour's steps, with no frame written in a step that started with the flag up |
| Effects.BreathFall | src/transitons.c:78-90 | the same for the fall, steps 100 down to 0, continuing the rise's run |
| Effects.BreathColor | src/transitons.c:64-92 | one colour runs either all its 203 steps, or, cancelled, a proper prefix ending in a frame, with the flag up; no frame is written in a step that started with the flag up |
| Effects.PaletteAtIs | src/transitons.c:93 | advancing the static palette index n times by (idx + 1) % 12 is adding n, modulo 12 |
| Effects.BreathNextColor | src/transitons.c:57-93 | the next colour extends the run of complete colours: by all its steps, or by a prefix when cancelled |
| Effects.BreathedColorPart | src/transitons.c:54-93 | complete colours followed by part of the next one are a prefix of the run with one colour more |
| Effects.BreathedWhole | src/transitons.c:54-93 | a run of complete colours is a prefix of the run with one colour more |
| Effects.BreathingLoop | src/transitons.c:48-95 | the board has run the steps of the complete colours through the palette from the static index, followed by part of the next colour, which is cut short only with the cancel flag up. No frame is written in a step that started with the flag up. The index ends advanced once per complete colour, modulo 12. Before the end of the script the loop stops only when the power is off, the mode has changed or the flag is up |
| Effects.CycleSteps | src/transitons.c:145-160 | one dissolve LED cycle is 203 steps: 202 frames and the hold |
| Effects.Cycles | src/transitons.c:142-162 | LED cycles n..m-1 are 203(m - n) steps |
| Effects.DissolveSteps | src/transitons.c:129-162 | a dissolve run with c LED cycles is the 101-frame opening fade followed by 203c steps |
| Effects.CyclesAppend | src/transitons.c:142-162 | cycles n..m-1 followed by cycles m..p-1 are cycles n..p-1 |
| Effects.CyclesNext | src/transitons.c:143 | one cycle more appends the cycle of LED m mod 5 |
| Effects.CycleAt | src/transitons.c:142-143 | cycle c of a run fades LED c mod 5 from the colour it shows to the colour drawn for it, so LEDs are visited in the order 0, 1, 2, 3, 4, 0, ... |
| Effects.LedContinuity | src/transitons.c:138-158 | no LED jumps: every cycle starts from the colour its LED was left showing, by the opening fade in the first round and by its previous cycle after |
| Effects.StartsAppend | src/transitons.c:143-144 | the cycle starts of two runs one after the other are those of each, joined |
| Effects.FadeLed | src/transitons.c:146-151 | the board has run a single-LED fade: 101 steps that each write only that LED, with the fade's colours in order |
| Effects.FadeLedStep | src/transitons.c:147-150 | one fade step writes the fade's colour at that step to the LED, then delays |
| Effects.DissolveLed | src/transitons.c:145-160 | the LED's cycle draws its next colour from one random word. The board has run its 203 steps: LED i alone faded from its current colour to white and on to the new colour, then the hold. Afterwards the LED's current and next colour are the drawn one, and every other LED's entries are unchanged. The hold is drawn from the next random word and lies in [1000, 3000) |
| Effects.OpeningFade | src/transitons.c:129-137 | the board has run the opening fade: 101 steps putting the colours from white to the shared colour on every LED, with no check of any flag |
| Effects.DissolvePass | src/transitons.c:143-161 | the LEDs are visited in index order, the power flag checked before each. A pass stops early only when the power is off, and it runs at least one LED if the power was on. The board has run the cycles of the LEDs visited, each started with the power on. LED j < done holds the colour drawn for it and later LEDs keep theirs |
| Effects.PassExtends | src/transitons.c:142-161 | a pass that follows whole rounds, started in mode 0, extends the dissolve run and keeps what it checked |
| Effects.DissolveLoop | src/transitons.c:124-163 | the board has run the opening fade to the first random colour and then LED cycles in the order 0, 1, 2, 3, 4, 0, .... Every cycle started with the power on, and every round of five started in mode 0. The cancel flag is never looked at. The effect stops only at a whole round when the mode has changed, or anywhere once the power is off |
| Effects.ApplyTransitionByMode | src/transitons.c:165-173 | the effect the mode selects has run (dissolve for any value other than 1 and 2), with the control state, bus, hue, palette index and random-word index that effect's run states, and the checks it made; afterwards the cancel flag is down. It returns only when the effect has stopped: before the end of the script, rainbow only with the power off or the mode no longer 1; breathing only with the power off, the mode no longer 2 or the flag up, and only with the flag up in the middle of a colour; dissolve only with the power off or, at a whole round, the mode no longer 0 |
| AnimationTask.AnimationStep | src/main_app.c:173-186 | with the power off: all fifteen outputs are written full-off, the button task handles the events of the 500 ms delay, and nothing is dispatched, the statics unchanged. Otherwise the effect of the current mode runs with the outcome ApplyTransitionByMode states, and the cancel flag is down when it returns |
| Crystal.PyIndex | include/crystal3.py:14 | Python list subscription succeeds exactly for -len <= i < len, and for a non-negative index it gives xs[i] |
| Crystal.Step | include/crystal3.py:10-34 | one call of update on the controller's fields, raising IndexError where Python would; its properties are stated by the lemmas below |
| Crystal.InitInv | include/crystal3.py:2-8 | the fields after construction: status 0, index 0, timer 0, within the invariant |
| Crystal.StepKeepsInv | include/crystal3.py:10-34 | every update that returns normally keeps the status in {0, 1, 2}, the walks within their ranges, and led.color some colors[k] with 0 <= k < len(colors) |
| Crystal.FromStatusZero | include/crystal3.py:11-14 | from status 0, one update sets status 1 and index 0, shows colors[0] and increments the timer. It raises exactly when there is no colour |
| Crystal.TimerTicks | include/crystal3.py:16-34 | every normal update ends with the timer at 1 after a match and at one more otherwise. Without a match the index, the status and the colour are unchanged |
| Crystal.ForwardMatch | include/crystal3.py:16-23 | on a match in status 1 the index advances. The next colour is shown exactly when there is one; otherwise the status becomes 2 |
| Crystal.BackwardMatch | include/crystal3.py:25-32 | on a match in status 2 the index goes back. The previous colour is shown exactly when the index is still >= 0; otherwise the status becomes 0 |
| Crystal.TurnRoundReadsPastEnd | include/crystal3.py:19-26 | on turning round the index is len(colors), and the next update raises exactly when len(timings) <= len(colors) |
| Crystal.OneColourCrashes | include/crystal3.py:10-34 | with one colour and one timing, the third update after construction raises IndexError |
| Crystal.StepFixed | include/crystal3.py:19-32 | the update with the backward walk starting at the last colour; StepFixedSafe states it never raises |
| Crystal.StepFixedSafe | include/crystal3.py:25-32 | with the backward walk starting at the last colour, an update never raises when there is at least one colour and a timing per colour, and both walks stay on the list |
| Crystal.RunFixedNeverRaises | include/crystal3.py:10-34 | under the same condition, any number of corrected updates from construction runs without an exception |
| Crystal.RGBController.constructor | include/crystal3.py:2-8 | the object's fields are those of construction |
| Crystal.RGBController.Update | include/crystal3.py:10-34 | the object's new fields, and whether it raised, are exactly those of the update function |
| Crystal.RGBController.UpdateFixed | include/crystal3.py:19-32 | the same for the corrected update |

## Left out

- The float curves are parameters of the model. These are the HSV secondary
  component, the cosine envelope, the gamma correction and the breathing
  `(uint16_t)` casts. No claim is made about their values. The ease factor is
  computed on reals, so single-precision rounding is not modelled.
- RTOS scheduling: task creation, priorities and the blocking wait of
  `xQueueReceive`. The button task has the higher priority, so it is modelled
  as running during the animation task's delays: in the k-th delay it handles
  the events of the k-th entry of a script of arrivals. An event handled while
  the animation task is between two delays, in the middle of a frame, is not
  modelled; the two tasks are interleaved at delay boundaries.
- The effects' open-ended loops stop when the script of arrived events runs out,
  because a script can describe only finitely many delays. Past the script, the
  model says nothing.
- The hold delays (300 ms for breathing, 1000..2999 ms for dissolve) and the
  frame delays are modelled as steps that give the button task a turn; their
  durations are not modelled.
- `Buttons.Debouncer.Isr`: time is an integer of milliseconds. The
  `esp_timer_get_time() / 1000` conversion and the int64 width are not modelled.
- `Transitions.HueAfter`: the static `hue` is a float. It only ever holds whole
  degrees below 363, which the float represents exactly, so it is modelled as
  an integer.
- `AnimationTask.AnimationStep` models one pass of the main loop, not the
  infinite loop.
- The start-up self-test of the animation task (src/main_app.c:142-168) is a
  fixed script of writes and delays with no decisions in it.
- I2C and device initialisation, the prescale write, GPIO interrupt setup and
  all logging are hardware I/O. I2C transfer errors are only logged by the
  firmware, so every transfer is modelled as appending its frame to the bus
  log.
- `esp_random()` is a sequence of caller-supplied words, and a word is not
  bounded to 32 bits.
- Items the firmware never uses are not modelled: `transition_params_t`,
  `led_params`, `target_colors` and `DEBOUNCE_TIME_MS`.
- The example lines at the end of crystal3.py name objects that are not
  defined. The led object is reduced to the colour the controller assigns to it.
  `colors` and `timings` are fixed when the controller is built, since
  `update` never changes them.

Behaviour of the code that its constant names and comments do not suggest,
which the model follows:
- `HOLD_TIME_MAX_MS` is 3000, but the hold is 1000 + r % 2000, so it lies in
  1000..2999 ms and 3000 is never reached.
- `mode_changed` is commented as the signal that the mode changed, but dissolve
  never reads it. Dissolve checks only the power flag before each LED and the
  mode between rounds, and its opening fade checks nothing. A mode change
  therefore takes effect only at the end of a round of five LEDs.
- Each fade and each breathing phase shows FADE_STEPS + 1 = 101 frames, because
  the steps run 0..100 inclusive.
- Turning the power off writes all LEDs off (src/buttons.c:74), but a running
  effect is not stopped at once. Breathing checks only the cancel flag before
  each frame, so it finishes the rise and the fall of the current colour and
  its 300 ms hold, up to 201 more frames, before its check at the top of the
  next colour (src/transitons.c:54-55) sees the power off. The frames it writes meanwhile light the LEDs
  again. Dissolve finishes the cycle of the current LED and stops at the next;
  during its opening fade, which checks nothing, it finishes all 101 frames of
  the fade first.
  Rainbow stops at the next frame.
- The queue send result is ignored. A full queue drops the event, but the
  button's last-press time is still updated.

## Findings

| source | as written | input that shows it | evidently intended | confidence | as-written member | corrected member |
|---|---|---|---|---|---|---|
| include/crystal3.py:19-26 | when the forward walk ends, status 2 starts at color_index == len(colors), and the next update reads timings[len(colors)] | colors = [c], timings = [1]: the first update shows c, the second turns round with index 1, and the third raises IndexError on timings[1] | the backward walk starts at the last colour, len(colors) - 1, the one still shown | medium, not executed | Crystal.TurnRoundReadsPastEnd | Crystal.RunFixedNeverRaises |
