/** The integer width of the firmware's globals: every variable the menu touches is a `uint8_t`. */
module Uint8 {

  type u8 = x: int | 0 <= x < 256

  /** Storing a (promoted) C `int` back into a `uint8_t`: reduction modulo 2^8. */
  function Wrap(x: int): (r: u8)
    ensures 0 <= x < 256 ==> r == x
    ensures (x - r) % 256 == 0
  {
    x % 256
  }
}
