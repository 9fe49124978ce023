/** Logic levels of the board's GPIO pins, as rt_pin_read returns them and rt_pin_write drives them. */
module Pins {
  datatype PinLevel = Low | High
}
