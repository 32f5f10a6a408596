/** Value types shared by the firmware model: fixed-width integers, the
    RGB colour record of transitions.h and the button event codes of buttons.h. */
module Types {

  /** uint8_t and uint16_t of the C sources. */
  type u8 = x: int | 0 <= x < 0x100
  type u16 = x: int | 0 <= x < 0x1_0000

  /** One I2C write to the PWM controller: the bytes handed to the bus driver. */
  type Frame = seq<u8>

  datatype Option<T> = None | Some(value: T)

  /** rgb_color_t: three 12-bit channel values stored in 16-bit fields. */
  datatype Color = Color(r: u16, g: u16, b: u16)

  /** The drive ceiling of the 12-bit PWM controller. */
  const PwmMax: u16 := 4095

  /** button_event_t values; any other value reaching the button task is unknown. */
  const EventMode := 0
  const EventToggle := 1
  const EventBright := 2

  /** C's `%` on int, which truncates toward zero (Dafny's `%` is Euclidean). */
  function CRem(a: int, n: int): (r: int)
    requires n > 0
    ensures a >= 0 ==> 0 <= r < n
    ensures a < 0 ==> -n < r <= 0
  {
    if a >= 0 then a % n else -((-a) % n)
  }

  /** Conversion of a real to int in C, which truncates toward zero. */
  function Trunc(x: real): (n: int)
    ensures x >= 0.0 ==> n as real <= x < n as real + 1.0
    ensures x < 0.0 ==> n as real - 1.0 < x <= n as real
  {
    if x >= 0.0 then x.Floor else -((-x).Floor)
  }
}
