/**
 * The gamepad's USB constants and input report (usb_app.h): device identity,
 * endpoint and descriptor sizes, the packed 9-byte report, its button bits,
 * hat directions and the return codes of the send-report call.
 */
module UsbReport {
  import opened CInts

  // Device identity and power
  const UsbdVid: bv16 := 0x045E
  const UsbdPid: bv16 := 0x02FF
  const UsbdMaxPowerMa: nat := 100
  const UsbdLangIdString: bv16 := 1033

  // Interrupt IN endpoint
  const HidIntEp: bv8 := 0x81
  const HidIntEpSize: nat := 9
  const HidIntEpInterval: bv8 := 1

  // Descriptor sizes
  const UsbHidConfigDescSiz: nat := 34
  const HidGamepadReportDescSize: nat := 83

  /** Button bit `k` of the 16-bit button field. */
  function ButtonBit(k: nat): (m: bv16)
    requires k < 16
    ensures m != 0 && m & (m - 1) == 0
  {
    (1 as bv16) << k
  }

  const ButtonA: bv16 := 1 << 0
  const ButtonB: bv16 := 1 << 1
  const ButtonX: bv16 := 1 << 2
  const ButtonY: bv16 := 1 << 3
  const ButtonLB: bv16 := 1 << 4
  const ButtonRB: bv16 := 1 << 5
  const ButtonBack: bv16 := 1 << 6
  const ButtonStart: bv16 := 1 << 7
  const Button8: bv16 := 1 << 8
  const Button9: bv16 := 1 << 9
  const Button10: bv16 := 1 << 10
  const Button11: bv16 := 1 << 11
  const Button12: bv16 := 1 << 12
  const Button13: bv16 := 1 << 13
  const ButtonLS: bv16 := 1 << 14
  const ButtonRS: bv16 := 1 << 15

  /** The sixteen GAMEPAD_BUTTON_* masks in the order the header lists them. */
  const ButtonMasks: seq<bv16> := [
    ButtonA, ButtonB, ButtonX, ButtonY, ButtonLB, ButtonRB, ButtonBack, ButtonStart,
    Button8, Button9, Button10, Button11, Button12, Button13, ButtonLS, ButtonRS]

  /** Whether bit `k` of a button field is set. */
  predicate HasBit(b: bv16, k: nat)
    requires k < 16
  {
    b & ButtonBit(k) != 0
  }

  // Hat switch: eight directions 45 degrees apart, then the centre (null) value
  const HatUp: UInt8 := 0
  const HatUpRight: UInt8 := 1
  const HatRight: UInt8 := 2
  const HatDownRight: UInt8 := 3
  const HatDown: UInt8 := 4
  const HatDownLeft: UInt8 := 5
  const HatLeft: UInt8 := 6
  const HatUpLeft: UInt8 := 7
  const HatCenter: UInt8 := 8

  // Results of hid_gamepad_send_report
  const SendOk: int := 0
  const SendNotConfigured: int := -1
  const SendBusy: int := -2
  const SendFailed: int := -3

  predicate IsSendResult(r: int) {
    r == SendOk || r == SendNotConfigured || r == SendBusy || r == SendFailed
  }

  /** usb_gamepad_report_t. */
  datatype Report = Report(
    buttons: bv16,
    leftX: Int8, leftY: Int8, rightX: Int8, rightY: Int8,
    leftTrigger: UInt8, rightTrigger: UInt8,
    hat: UInt8)

  /** The report the firmware resets to: everything zero and the hat centred. */
  const NeutralReport: Report := Report(0, 0, 0, 0, 0, 0, 0, HatCenter)

  /**
   * The packed little-endian memory image of a report, which is what the
   * interrupt endpoint transmits.
   */
  function Encode(r: Report): (bytes: seq<bv8>)
    ensures |bytes| == HidIntEpSize
    ensures JoinBytes(bytes[0], bytes[1]) == r.buttons
    ensures bytes[8] as int == r.hat
  {
    JoinSplit(r.buttons);
    [ LowByte(r.buttons), HighByte(r.buttons),
      Int8ToByte(r.leftX), Int8ToByte(r.leftY), Int8ToByte(r.rightX), Int8ToByte(r.rightY),
      ByteOf(r.leftTrigger), ByteOf(r.rightTrigger), ByteOf(r.hat) ]
  }

  /** Reads a report back from its 9-byte image. */
  function Decode(bytes: seq<bv8>): (r: Report)
    requires |bytes| == HidIntEpSize
    ensures LowByte(r.buttons) == bytes[0] && HighByte(r.buttons) == bytes[1]
    ensures r.hat == bytes[8] as int
  {
    SplitJoin(bytes[0], bytes[1]);
    Report(JoinBytes(bytes[0], bytes[1]),
           ByteToInt8(bytes[2]), ByteToInt8(bytes[3]), ByteToInt8(bytes[4]), ByteToInt8(bytes[5]),
           bytes[6] as int, bytes[7] as int, bytes[8] as int)
  }

  lemma DecodeEncode(r: Report)
    ensures Decode(Encode(r)) == r
  {
    JoinSplit(r.buttons);
    Int8ByteRoundTrip(r.leftX, 0);
    Int8ByteRoundTrip(r.leftY, 0);
    Int8ByteRoundTrip(r.rightX, 0);
    Int8ByteRoundTrip(r.rightY, 0);
  }

  lemma EncodeDecode(bytes: seq<bv8>)
    requires |bytes| == HidIntEpSize
    ensures Encode(Decode(bytes)) == bytes
  {
    DecodeEncode(Decode(bytes));
    DecodeInjective(Encode(Decode(bytes)), bytes);
  }

  /** Two images that read back as the same report are the same bytes. */
  lemma DecodeInjective(x: seq<bv8>, y: seq<bv8>)
    requires |x| == |y| == HidIntEpSize
    requires Decode(x) == Decode(y)
    ensures x == y
  {
    ByteToInt8Injective(x[2], y[2]);
    ByteToInt8Injective(x[3], y[3]);
    ByteToInt8Injective(x[4], y[4]);
    ByteToInt8Injective(x[5], y[5]);
    BvValueInjective(x[6], y[6]);
    BvValueInjective(x[7], y[7]);
    BvValueInjective(x[8], y[8]);
    assert x == [x[0], x[1], x[2], x[3], x[4], x[5], x[6], x[7], x[8]];
    assert y == [y[0], y[1], y[2], y[3], y[4], y[5], y[6], y[7], y[8]];
  }

  /** The neutral report's image is eight zero bytes followed by the centre value. */
  lemma NeutralReportImage()
    ensures Encode(NeutralReport) == [0, 0, 0, 0, 0, 0, 0, 0, 8]
  {
  }

  /**
   * The sixteen button masks are single bits, pairwise disjoint, and the mask at
   * position k is bit k, so together they cover bit 0 to bit 15.
   */
  lemma ButtonMasksAreTheSixteenBits()
    ensures |ButtonMasks| == 16
    ensures forall k | 0 <= k < 16 :: ButtonMasks[k] == ButtonBit(k)
    ensures forall i, j | 0 <= i < j < 16 :: ButtonMasks[i] & ButtonMasks[j] == 0
  {
    forall i, j | 0 <= i < j < 16 ensures ButtonBit(i) & ButtonBit(j) == 0 {
      SingleBitsDisjoint(i, j);
    }
  }

  lemma SingleBitsDisjoint(i: nat, j: nat)
    requires i < j < 16
    ensures ButtonBit(i) & ButtonBit(j) == 0
  {
  }
}
