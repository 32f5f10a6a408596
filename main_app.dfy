/** PWM drive shaping and the PCA9685 register frames of main_app.c.
    The I2C transfer itself is modelled by appending the frame to the board's
    ghost bus log; what was written, and in which order, is stated on that log. */
module MainApp {
  import opened Types
  import opened Globals

  const NumLeds := 5
  const ChannelsPerLed := 3
  const TotalChannels := NumLeds * ChannelsPerLed
  /** The PCA9685 drives sixteen outputs, LED0 to LED15. */
  const DeviceChannels := 16

  /** brightness_vals: the drive scale of the bright, medium and dim tiers. */
  const BrightnessVals: seq<u16> := [4000, 2000, 800]

  /** The (ON, OFF) counts written to one output. */
  datatype PwmSetting = PwmSetting(on: u16, off: u16)

  /** ON = 4096 sets the full-off bit of LEDn_ON_H; the output stays dark. */
  const FullOff := PwmSetting(4096, 0)

  /** The duty scaled by the brightness tier: `duty * brightness_vals[level] / 4095`
      in int arithmetic, stored back into a uint16. Scaling never brightens. */
  function AdjustedDuty(duty: u16, level: int): (a: u16)
    requires 0 <= level < 3
    ensures a <= duty
  {
    var v := BrightnessVals[level];
    assert duty * v <= duty * 4095;
    duty * v / 4095
  }

  /** set_pwm_duty's choice: the full-off encoding when the scaled duty is zero,
      otherwise the duty inverted around 4095 (common-anode wiring) and truncated
      to uint16 as the C assignment does. */
  function DriveSetting(duty: u16, level: int): PwmSetting
    requires 0 <= level < 3
  {
    var adjusted := AdjustedDuty(duty, level);
    if adjusted == 0 then FullOff else PwmSetting(0, (PwmMax - adjusted) % 0x1_0000)
  }

  /** The scaled duty never exceeds the tier's scale, so the inverted OFF count
      lies in [95, 4094] and the subtraction does not wrap; zero goes to full-off. */
  lemma DriveSettingBounds(duty: u16, level: int)
    requires 0 <= level < 3 && duty <= PwmMax
    ensures AdjustedDuty(duty, level) <= BrightnessVals[level] <= 4000
    ensures var p := DriveSetting(duty, level);
      if AdjustedDuty(duty, level) == 0 then p == FullOff
      else p.on == 0 && 95 <= p.off <= 4094 && p.off == PwmMax - AdjustedDuty(duty, level)
  {
    var v: int := BrightnessVals[level];
    assert duty * v <= 4095 * v;
  }

  /** A zero duty is written as full-off at every brightness tier. */
  lemma ZeroDutyIsFullOff(level: int)
    requires 0 <= level < 3
    ensures DriveSetting(0, level) == FullOff
  {
  }

  /** For the same duty, a brighter tier never scales lower. */
  lemma TierOrder(duty: u16)
    ensures AdjustedDuty(duty, 0) >= AdjustedDuty(duty, 1) >= AdjustedDuty(duty, 2)
  {
    assert duty * 4000 >= duty * 2000 >= duty * 800;
  }

  /** LEDn_ON_L of output `channel`: `0x06 + 4 * channel`, truncated to uint8. */
  function LedRegister(channel: u8): u8
  {
    (0x06 + 4 * channel) % 0x100
  }

  /** The 5-byte frame of pca9685_set_pwm: the LEDn_ON_L address followed by
      ON and OFF, each as a little-endian 16-bit word (auto-increment mode). */
  function PwmFrame(channel: u8, p: PwmSetting): (f: Frame)
    ensures |f| == 5 && f[0] == LedRegister(channel)
  {
    [LedRegister(channel), p.on % 0x100, p.on / 0x100, p.off % 0x100, p.off / 0x100]
  }

  /** A little-endian 16-bit word. */
  function Word(lo: u8, hi: u8): u16
  {
    lo + 0x100 * hi
  }

  /** The low and high bytes of a word are the bytes it was built from. */
  lemma WordBytes(lo: u8, hi: u8)
    ensures Word(lo, hi) % 0x100 == lo && Word(lo, hi) / 0x100 == hi
  {
  }

  /** Reads a frame back as the output it addresses and the (ON, OFF) pair it sets;
      None for anything that is not a write to one of the sixteen LEDn registers. */
  function DecodeFrame(f: Frame): Option<(u8, PwmSetting)>
  {
    if |f| != 5 || f[0] < 6 || (f[0] - 6) % 4 != 0 || (f[0] - 6) / 4 >= DeviceChannels then None
    else Some(((f[0] - 6) / 4, PwmSetting(Word(f[1], f[2]), Word(f[3], f[4]))))
  }

  /** Decoding a frame recovers the channel, ON and OFF it was built from. */
  lemma FrameRoundTrip(channel: u8, p: PwmSetting)
    requires channel < DeviceChannels
    ensures DecodeFrame(PwmFrame(channel, p)) == Some((channel, p))
  {
    var f := PwmFrame(channel, p);
    assert f[0] == 6 + 4 * channel;
    assert Word(f[1], f[2]) == p.on;
    assert Word(f[3], f[4]) == p.off;
  }

  /** Every frame that decodes is the encoding of what it decodes to. */
  lemma DecodeThenEncode(f: Frame)
    requires DecodeFrame(f).Some?
    ensures PwmFrame(DecodeFrame(f).value.0, DecodeFrame(f).value.1) == f
  {
    var (channel, p) := DecodeFrame(f).value;
    assert 6 + 4 * channel == f[0];
    WordBytes(f[1], f[2]);
    WordBytes(f[3], f[4]);
    var g := PwmFrame(channel, p);
    assert g[0] == f[0] && g[1] == f[1] && g[2] == f[2] && g[3] == f[3] && g[4] == f[4];
  }

  /** The full-off frame of an output: [0x06 + 4 * channel, 0x00, 0x10, 0x00, 0x00]. */
  lemma FullOffFrame(channel: u8)
    requires channel < DeviceChannels
    ensures PwmFrame(channel, FullOff) == [6 + 4 * channel, 0x00, 0x10, 0x00, 0x00]
  {
  }

  /** The frames set_rgb_led writes: none for an index past the last LED, otherwise
      the R, G and B outputs of that LED in this order. */
  function RgbFrames(led: u8, c: Color, level: int): seq<Frame>
    requires 0 <= level < 3
  {
    if led >= NumLeds then []
    else
      var base := led * ChannelsPerLed;
      [PwmFrame(base, DriveSetting(c.r, level)),
       PwmFrame(base + 1, DriveSetting(c.g, level)),
       PwmFrame(base + 2, DriveSetting(c.b, level))]
  }

  /** An LED index of 5 or more writes nothing; any other writes exactly three frames,
      to outputs 3i, 3i+1 and 3i+2 (all within 0..14), carrying R, G and B in order. */
  lemma RgbFramesLayout(led: u8, c: Color, level: int)
    requires 0 <= level < 3
    ensures led >= NumLeds <==> RgbFrames(led, c, level) == []
    ensures led < NumLeds ==>
      var fs := RgbFrames(led, c, level);
      |fs| == 3 && 3 * led + 2 < TotalChannels &&
      DecodeFrame(fs[0]) == Some((3 * led, DriveSetting(c.r, level))) &&
      DecodeFrame(fs[1]) == Some((3 * led + 1, DriveSetting(c.g, level))) &&
      DecodeFrame(fs[2]) == Some((3 * led + 2, DriveSetting(c.b, level)))
  {
    if led < NumLeds {
      FrameRoundTrip(3 * led, DriveSetting(c.r, level));
      FrameRoundTrip(3 * led + 1, DriveSetting(c.g, level));
      FrameRoundTrip(3 * led + 2, DriveSetting(c.b, level));
    }
  }

  /** What turn_off_all_leds writes: a full-off frame to each of the fifteen
      outputs, in ascending order. */
  function AllOffFrames(): (fs: seq<Frame>)
    ensures |fs| == TotalChannels
  {
    seq(TotalChannels, ch requires 0 <= ch < TotalChannels => PwmFrame(ch, FullOff))
  }

  /** Writing black to one LED is that LED's slice of the all-off frames,
      whatever the brightness tier. */
  lemma BlackLedIsOff(led: u8, level: int)
    requires led < NumLeds && 0 <= level < 3
    ensures RgbFrames(led, Color(0, 0, 0), level) == AllOffFrames()[3 * led .. 3 * led + 3]
  {
    ZeroDutyIsFullOff(level);
  }

  /** pca9685_set_pwm: one 5-byte I2C write. */
  method PcaSetPwm(s: Board, channel: u8, on: u16, off: u16)
    modifies s`bus
    ensures s.bus == old(s.bus) + [PwmFrame(channel, PwmSetting(on, off))]
  {
    s.bus := s.bus + [PwmFrame(channel, PwmSetting(on, off))];
  }

  /** set_pwm_duty: scale by the current brightness tier, then full-off or inverted duty. */
  method SetPwmDuty(s: Board, channel: u8, duty: u16)
    requires s.Valid()
    modifies s`bus
    ensures s.bus == old(s.bus) + [PwmFrame(channel, DriveSetting(duty, s.brightnessLevel))]
  {
    var adjusted := AdjustedDuty(duty, s.brightnessLevel);
    if adjusted == 0 {
      PcaSetPwm(s, channel, 4096, 0);
    } else {
      var off := (PwmMax - adjusted) % 0x1_0000;
      PcaSetPwm(s, channel, 0, off);
    }
  }

  /** set_rgb_led: an out-of-range index is ignored; otherwise R, G, B of that LED. */
  method SetRgbLed(s: Board, led: u8, r: u16, g: u16, b: u16)
    requires s.Valid()
    modifies s`bus
    ensures s.bus == old(s.bus) + RgbFrames(led, Color(r, g, b), s.brightnessLevel)
  {
    if led >= NumLeds {
      return;
    }
    var base := led * ChannelsPerLed;
    SetPwmDuty(s, base, r);
    SetPwmDuty(s, base + 1, g);
    SetPwmDuty(s, base + 2, b);
  }

  /** turn_off_all_leds: black to every LED in index order. */
  method TurnOffAllLeds(s: Board)
    requires s.Valid()
    modifies s`bus
    ensures s.bus == old(s.bus) + AllOffFrames()
  {
    for i := 0 to NumLeds
      invariant s.bus == old(s.bus) + AllOffFrames()[..3 * i]
    {
      SetRgbLed(s, i, 0, 0, 0);
      BlackLedIsOff(i, s.brightnessLevel);
      assert AllOffFrames()[..3 * (i + 1)] == AllOffFrames()[..3 * i] + AllOffFrames()[3 * i .. 3 * i + 3];
    }
  }
}
