/**
 * The two analog sticks of joystick_app.c: each axis is an ADC channel
 * turned into a signed 16-bit value, and each stick button a pin that reads
 * low while pressed. The ADC readings and pin levels are inputs to the model.
 */
module Joystick {
  import opened CInts
  import opened Pins

  // ADC channels and button pins of the two sticks
  const LeftXChannel: nat := 0
  const LeftYChannel: nat := 1
  const RightXChannel: nat := 8
  const RightYChannel: nat := 13
  const LeftButtonPin: nat := 3 * 32 + 7
  const RightButtonPin: nat := 3 * 32 + 6

  const AdcMaxValue: nat := 65535
  const AdcMidValue: nat := 32768

  // RT-Thread error codes
  const Eok: int := 0
  const Einval: int := 10

  /** joystick_data_t: both axes of one stick and its button. */
  datatype JoystickData = JoystickData(x: Int16, y: Int16, btn: bool)

  /**
   * adc_to_axis: a reading above the 16-bit maximum is clamped to it, and the
   * unsigned difference from the mid value is cast to int16_t.
   */
  function AdcToAxis(adc: UInt32): (axis: Int16)
    ensures adc <= AdcMaxValue ==> axis == adc - AdcMidValue
    ensures adc > AdcMaxValue ==> axis == AdcMaxValue - AdcMidValue
  {
    var clamped := if adc > AdcMaxValue then AdcMaxValue else adc;
    // uint32_t subtraction wraps modulo 2^32 before the cast
    ToInt16((clamped - AdcMidValue) % 0x1_0000_0000)
  }

  /** The axis grows with the reading: a stick pushed further never reads smaller. */
  lemma AdcToAxisMonotone(a: UInt32, b: UInt32)
    requires a <= b
    ensures AdcToAxis(a) <= AdcToAxis(b)
  {
  }

  /** The two ends and the middle of the ADC range land on the ends and the middle of int16_t. */
  lemma AdcToAxisEnds()
    ensures AdcToAxis(0) == -32768 && AdcToAxis(AdcMidValue) == 0
    ensures AdcToAxis(AdcMaxValue) == 32767 && AdcToAxis(0xFFFF_FFFF) == 32767
  {
  }

  /** adc_read_channel: the reading of the channel, or the mid value when there is no ADC device. */
  function ReadChannel(adcPresent: bool, adc: nat -> UInt32, channel: nat): (r: UInt32)
    ensures adcPresent ==> r == adc(channel)
    ensures !adcPresent ==> r == AdcMidValue
  {
    if adcPresent then adc(channel) else AdcMidValue
  }

  /** Without an ADC device every axis reads centred, whatever the channel. */
  lemma NoAdcReadsCentred(adc: nat -> UInt32, channel: nat)
    ensures AdcToAxis(ReadChannel(false, adc, channel)) == 0
  {
  }

  /** The caller's joystick_data_t, written through the pointer. */
  class JoystickCell {
    var data: JoystickData

    constructor (d: JoystickData)
      ensures data == d
    {
      data := d;
    }
  }

  /** The driver's one static: whether the ADC device was found (adc_dev != RT_NULL). */
  class JoystickDriver {
    var adcPresent: bool

    /** adc_dev starts out as RT_NULL. */
    constructor ()
      ensures !adcPresent
    {
      adcPresent := false;
    }

    /**
     * joystick_init: `found` is what rt_device_find answers. Success is reported
     * either way, so the buttons work without the ADC.
     */
    method Init(found: bool) returns (err: int)
      modifies this
      ensures adcPresent == found && err == Eok
    {
      adcPresent := found;
      err := Eok;
    }

    /**
     * joystick_left_read: `adc` gives each channel's reading and `pins` each
     * pin's level at the moment of the call.
     */
    method LeftRead(data: JoystickCell?, adc: nat -> UInt32, pins: nat -> PinLevel) returns (err: int)
      modifies data
      ensures data == null ==> err == -Einval
      ensures data != null ==> err == Eok && data.data == JoystickData(
        AdcToAxis(ReadChannel(adcPresent, adc, LeftXChannel)),
        AdcToAxis(ReadChannel(adcPresent, adc, LeftYChannel)),
        pins(LeftButtonPin) == Low)
    {
      err := ReadStick(data, adc, pins, LeftXChannel, LeftYChannel, LeftButtonPin);
    }

    /** joystick_right_read. */
    method RightRead(data: JoystickCell?, adc: nat -> UInt32, pins: nat -> PinLevel) returns (err: int)
      modifies data
      ensures data == null ==> err == -Einval
      ensures data != null ==> err == Eok && data.data == JoystickData(
        AdcToAxis(ReadChannel(adcPresent, adc, RightXChannel)),
        AdcToAxis(ReadChannel(adcPresent, adc, RightYChannel)),
        pins(RightButtonPin) == Low)
    {
      err := ReadStick(data, adc, pins, RightXChannel, RightYChannel, RightButtonPin);
    }

    /** The body the two read functions share, for a stick on the given channels and pin. */
    method ReadStick(data: JoystickCell?, adc: nat -> UInt32, pins: nat -> PinLevel,
                     xChannel: nat, yChannel: nat, buttonPin: nat) returns (err: int)
      modifies data
      ensures data == null ==> err == -Einval
      ensures data != null ==> err == Eok && data.data == JoystickData(
        AdcToAxis(ReadChannel(adcPresent, adc, xChannel)),
        AdcToAxis(ReadChannel(adcPresent, adc, yChannel)),
        pins(buttonPin) == Low)
    {
      if data == null {
        return -Einval;
      }
      var x := AdcToAxis(ReadChannel(adcPresent, adc, xChannel));
      var y := AdcToAxis(ReadChannel(adcPresent, adc, yChannel));
      data.data := JoystickData(x, y, pins(buttonPin) == Low);
      err := Eok;
    }
  }
}
