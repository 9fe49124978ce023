/**
 * gamepad_app.c: the helpers that turn stick values into report axes, the
 * mapping of the key matrix and stick buttons onto the 16 button bits, and one
 * pass of the gamepad thread's loop, which refreshes the shared report and
 * sends it when the inputs changed or an earlier send found the endpoint busy.
 */
module Gamepad {
  import opened CInts
  import opened UsbReport
  import opened UsbApp
  import opened Joystick

  const JoystickDeadzone: int := 2000
  const AxisChangeThreshold: int := 500
  const ReportAxisLimit: Int8 := 127
  const ReportAxisFloor: Int8 := -127

  /** apply_deadzone: values strictly inside (-2000, 2000) become 0, the rest pass through. */
  function ApplyDeadzone(v: Int16): (r: Int16)
    ensures r == 0 <==> -JoystickDeadzone < v < JoystickDeadzone
    ensures r != 0 ==> r == v
  {
    if -JoystickDeadzone < v < JoystickDeadzone then 0 else v
  }

  /** Applying the dead zone twice is applying it once. */
  lemma DeadzoneIdempotent(v: Int16)
    ensures ApplyDeadzone(ApplyDeadzone(v)) == ApplyDeadzone(v)
  {
  }

  /** scale_axis: `v * 127 / 32768` with C's division, which truncates toward zero, then clamped to [-127, 127]. */
  function ScaleAxis(v: Int16): (r: Int8)
    ensures ReportAxisFloor <= r <= ReportAxisLimit
  {
    var scaled := TruncDiv(v * 127, 32768);
    if scaled > ReportAxisLimit then ReportAxisLimit
    else if scaled < ReportAxisFloor then ReportAxisFloor
    else scaled
  }

  /**
   * The scaled axis is the quotient of `v * 127` by 32768 truncated toward zero:
   * `r * 32768` lies on the side of zero, less than 32768 away from `v * 127`.
   */
  lemma ScaleAxisQuotient(v: Int16)
    ensures v >= 0 ==> 0 <= ScaleAxis(v) * 32768 <= v * 127 < ScaleAxis(v) * 32768 + 32768
    ensures v < 0 ==> v * 127 <= ScaleAxis(v) * 32768 <= 0 && ScaleAxis(v) * 32768 - 32768 < v * 127
  {
    ScaledInRange(v);
  }

  /** The truncated quotient already lies in [-127, 126], so neither clamp of scale_axis ever takes effect. */
  lemma ScaledInRange(v: Int16)
    ensures -ReportAxisLimit <= TruncDiv(v * 127, 32768) <= ReportAxisLimit - 1
  {
  }

  /** Zero stays zero, the sign is kept, and only values within 258 of zero scale to zero. */
  lemma ScaleAxisSign(v: Int16)
    ensures v == 0 ==> ScaleAxis(v) == 0
    ensures v > 0 ==> ScaleAxis(v) >= 0
    ensures v < 0 ==> ScaleAxis(v) <= 0
    ensures ScaleAxis(v) == 0 <==> -258 <= v <= 258
  {
    ScaleAxisQuotient(v);
    if v > 258 {
      MulMonotone(259, v, 127);
    } else if v < -258 {
      MulMonotone(v, -259, 127);
    }
  }

  /** After the dead zone, an axis reads zero exactly when the stick is inside the dead zone. */
  lemma DeadzonedAxisZero(v: Int16)
    ensures ScaleAxis(ApplyDeadzone(v)) == 0 <==> -JoystickDeadzone < v < JoystickDeadzone
  {
    ScaleAxisSign(ApplyDeadzone(v));
  }

  /** Truncation is symmetric: mirrored stick positions scale to mirrored axis values. */
  lemma ScaleAxisOdd(v: Int16)
    requires v > -32768
    ensures ScaleAxis(-v) == -ScaleAxis(v)
  {
    var a, b := ScaleAxis(v), ScaleAxis(-v);
    ScaleAxisQuotient(v);
    ScaleAxisQuotient(-v);
    if v >= 0 {
      QuotientUnique(v * 127, a, -b);
    } else {
      QuotientUnique(-v * 127, b, -a);
    }
  }

  /** A quotient of a non-negative number by 32768 is determined by its bounds. */
  lemma QuotientUnique(n: nat, q1: int, q2: int)
    requires 0 <= q1 * 32768 <= n < q1 * 32768 + 32768
    requires 0 <= q2 * 32768 <= n < q2 * 32768 + 32768
    ensures q1 == q2
  {
  }

  /** axis_changed: the two values are more than 500 apart. */
  function AxisChanged(newVal: Int16, oldVal: Int16): (changed: bool)
    ensures changed <==> newVal - oldVal > AxisChangeThreshold || oldVal - newVal > AxisChangeThreshold
  {
    var diff := newVal - oldVal;
    (if diff < 0 then -diff else diff) > AxisChangeThreshold
  }

  /** The change test does not depend on the order of its arguments, and a value has not changed from itself. */
  lemma AxisChangedSymmetric(a: Int16, b: Int16)
    ensures AxisChanged(a, b) == AxisChanged(b, a)
    ensures !AxisChanged(a, a)
  {
  }

  /** The bit the matrix key sets: its own for keys 0 to 13, none for 14, 15 and the no-key value 0xFF. */
  function KeyMask(key: UInt8): bv16 {
    if key != 0xFF && key < 14 then ButtonBit(key) else 0
  }

  /** A button field with the stick buttons' bits LS and RS added as pressed. */
  function WithSticks(m: bv16, leftBtn: bool, rightBtn: bool): bv16 {
    var withLeft := if leftBtn then m | ButtonLS else m;
    if rightBtn then withLeft | ButtonRS else withLeft
  }

  /**
   * The button field of one pass of the thread: bits 0-13 hold the matrix key
   * (none for 14, 15 and the no-key value 0xFF), bit 14 (LS) the left stick
   * button and bit 15 (RS) the right one.
   */
  function ButtonsFor(key: UInt8, leftBtn: bool, rightBtn: bool): (b: bv16)
    ensures forall k: nat | k < 14 :: HasBit(b, k) <==> key == k
    ensures HasBit(b, 14) <==> leftBtn
    ensures HasBit(b, 15) <==> rightBtn
  {
    KeyBits(key, leftBtn, rightBtn);
    WithSticks(KeyMask(key), leftBtn, rightBtn)
  }

  /** Bit k (k < 14) of the field is set exactly for key k, whatever the stick buttons. */
  lemma KeyBits(key: UInt8, leftBtn: bool, rightBtn: bool)
    ensures forall k: nat | k < 14 :: HasBit(WithSticks(KeyMask(key), leftBtn, rightBtn), k) <==> key == k
  {
    forall k: nat | k < 14 ensures HasBit(WithSticks(KeyMask(key), leftBtn, rightBtn), k) <==> key == k {
      KeyBit(key, k);
    }
  }

  /** Bit k (k < 14) of the matrix key's mask, with or without the stick buttons, is set exactly for key k. */
  lemma KeyBit(key: UInt8, k: nat)
    requires k < 14
    ensures (HasBit(KeyMask(key) | ButtonLS | ButtonRS, k) <==> key == k)
      && (HasBit(KeyMask(key) | ButtonLS, k) <==> key == k)
      && (HasBit(KeyMask(key) | ButtonRS, k) <==> key == k)
      && (HasBit(KeyMask(key), k) <==> key == k)
  {
    if key != 0xFF && key < 14 && key != k {
      if key < k {
        UsbReport.SingleBitsDisjoint(key, k);
      } else {
        UsbReport.SingleBitsDisjoint(k, key);
      }
    }
  }

  /** The report one active pass of the thread writes into the driver's buffer, from the key and both sticks. */
  function FilledReport(key: UInt8, left: JoystickData, right: JoystickData): (r: Report)
    ensures r.buttons == ButtonsFor(key, left.btn, right.btn)
    ensures r.leftTrigger == 0 && r.rightTrigger == 0 && r.hat == HatCenter
    ensures r.leftX == 0 <==> -JoystickDeadzone < left.x < JoystickDeadzone
    ensures r.leftY == 0 <==> -JoystickDeadzone < left.y < JoystickDeadzone
    ensures r.rightX == 0 <==> -JoystickDeadzone < right.x < JoystickDeadzone
    ensures r.rightY == 0 <==> -JoystickDeadzone < right.y < JoystickDeadzone
  {
    DeadzonedAxisZero(left.x);
    DeadzonedAxisZero(left.y);
    DeadzonedAxisZero(right.x);
    DeadzonedAxisZero(right.y);
    Report(ButtonsFor(key, left.btn, right.btn),
           ScaleAxis(ApplyDeadzone(left.x)), ScaleAxis(ApplyDeadzone(left.y)),
           ScaleAxis(ApplyDeadzone(right.x)), ScaleAxis(ApplyDeadzone(right.y)),
           0, 0, HatCenter)
  }

  /**
   * With no key pressed, both stick buttons released and both sticks inside
   * the dead zone, the thread writes exactly the neutral report that
   * hid_gamepad_init installs.
   */
  lemma RestingInputsGiveNeutralReport(left: JoystickData, right: JoystickData)
    requires !left.btn && !right.btn
    requires -JoystickDeadzone < left.x < JoystickDeadzone && -JoystickDeadzone < left.y < JoystickDeadzone
    requires -JoystickDeadzone < right.x < JoystickDeadzone && -JoystickDeadzone < right.y < JoystickDeadzone
    ensures FilledReport(0xFF, left, right) == NeutralReport
  {
    ScaleAxisSign(0);
  }

  /**
   * Whether a pass sees a change against the last state that was sent: another
   * key, another button state, or an axis that moved more than the threshold
   * after the dead zone.
   */
  function Changed(lastKey: UInt8, lastLeft: JoystickData, lastRight: JoystickData,
                   key: UInt8, left: JoystickData, right: JoystickData): (c: bool)
    ensures key != lastKey || left.btn != lastLeft.btn || right.btn != lastRight.btn ==> c
    // an axis that moved more than the threshold after the dead zone is a change
    ensures (AxisChanged(ApplyDeadzone(left.x), ApplyDeadzone(lastLeft.x))
      || AxisChanged(ApplyDeadzone(left.y), ApplyDeadzone(lastLeft.y))
      || AxisChanged(ApplyDeadzone(right.x), ApplyDeadzone(lastRight.x))
      || AxisChanged(ApplyDeadzone(right.y), ApplyDeadzone(lastRight.y))) ==> c
    // and nothing else is
    ensures c && key == lastKey && left.btn == lastLeft.btn && right.btn == lastRight.btn ==>
      AxisChanged(ApplyDeadzone(left.x), ApplyDeadzone(lastLeft.x))
      || AxisChanged(ApplyDeadzone(left.y), ApplyDeadzone(lastLeft.y))
      || AxisChanged(ApplyDeadzone(right.x), ApplyDeadzone(lastRight.x))
      || AxisChanged(ApplyDeadzone(right.y), ApplyDeadzone(lastRight.y))
    ensures key == lastKey && left == lastLeft && right == lastRight ==> !c
  {
    key != lastKey || left.btn != lastLeft.btn || right.btn != lastRight.btn
    || AxisChanged(ApplyDeadzone(left.x), ApplyDeadzone(lastLeft.x))
    || AxisChanged(ApplyDeadzone(left.y), ApplyDeadzone(lastLeft.y))
    || AxisChanged(ApplyDeadzone(right.x), ApplyDeadzone(lastRight.x))
    || AxisChanged(ApplyDeadzone(right.y), ApplyDeadzone(lastRight.y))
  }

  /**
   * A stick leaving the dead zone from rest is always a change: from inside
   * the dead zone to any value at least 2000 away from the centre.
   */
  lemma StickLeavingDeadzoneIsChange(key: UInt8, left: JoystickData, right: JoystickData, v: Int16)
    requires -JoystickDeadzone < left.x < JoystickDeadzone
    requires v <= -JoystickDeadzone || JoystickDeadzone <= v
    ensures Changed(key, left, right, key, left.(x := v), right)
  {
    assert ApplyDeadzone(left.x) == 0 && ApplyDeadzone(v) == v;
  }

  /**
   * Inputs equal to the last ones sent are no change, and neither is a stick
   * that moves about inside the dead zone.
   */
  lemma UnchangedInputsAreQuiet(key: UInt8, left: JoystickData, right: JoystickData, jitter: Int16)
    requires -JoystickDeadzone < left.x < JoystickDeadzone && -JoystickDeadzone < jitter < JoystickDeadzone
    ensures !Changed(key, left, right, key, left, right)
    ensures !Changed(key, left, right, key, left.(x := jitter), right)
  {
  }

  /** The thread's statics. */
  class GamepadApp {
    var currentButtons: bv16
    var pendingSend: bool
    var lastKey: UInt8
    var lastLeft: JoystickData
    var lastRight: JoystickData
    /** The matrix key and stick buttons of the last active pass, which current_buttons was mapped from. */
    ghost var mappedKey: UInt8
    ghost var mappedLeftBtn: bool
    ghost var mappedRightBtn: bool

    /** current_buttons always holds the mapping of the last active pass's inputs. */
    ghost predicate Valid()
      reads this
    {
      currentButtons == ButtonsFor(mappedKey, mappedLeftBtn, mappedRightBtn)
    }

    /** The statics' initial values: no buttons, nothing pending, no key, sticks at zero. */
    constructor ()
      ensures Valid() && mappedKey == 0xFF && !mappedLeftBtn && !mappedRightBtn
      ensures currentButtons == 0 && !pendingSend && lastKey == 0xFF
      ensures lastLeft == JoystickData(0, 0, false) && lastRight == JoystickData(0, 0, false)
    {
      currentButtons := 0;
      pendingSend := false;
      lastKey := 0xFF;
      lastLeft := JoystickData(0, 0, false);
      lastRight := JoystickData(0, 0, false);
      mappedKey := 0xFF;
      mappedLeftBtn := false;
      mappedRightBtn := false;
    }

    /**
     * gamepad_get_buttons: the buttons of the last active pass, bit k (k < 14)
     * for matrix key k, bit 14 for the left and bit 15 for the right stick button.
     */
    function Buttons(): (b: bv16)
      reads this
      requires Valid()
      ensures forall k: nat | k < 14 :: HasBit(b, k) <==> mappedKey == k
      ensures HasBit(b, 14) <==> mappedLeftBtn
      ensures HasBit(b, 15) <==> mappedRightBtn
    {
      currentButtons
    }

    /** Whether a pass with these inputs does anything: the inputs changed, or a send is pending. */
    predicate Active(key: UInt8, left: JoystickData, right: JoystickData)
      reads this
    {
      Changed(lastKey, lastLeft, lastRight, key, left, right) || pendingSend
    }

    /**
     * One pass of gamepad_thread_entry's loop, after key_read and the two stick
     * reads returned `key`, `left` and `right`. `configured` is the USB stack's
     * answer and `writeStatus` what the endpoint write returns if a send is
     * attempted. `sent` is the send result, or None when no send was attempted.
     */
    method Step(usb: HidGamepad, key: UInt8, left: JoystickData, right: JoystickData,
                configured: bool, writeStatus: int) returns (sent: Option<int>)
      requires Valid()
      modifies this, usb
      ensures Valid()
      // an idle pass touches nothing
      ensures !old(Active(key, left, right)) ==>
        sent == None && currentButtons == old(currentButtons) && usb.report == old(usb.report)
        && mappedKey == old(mappedKey) && mappedLeftBtn == old(mappedLeftBtn) && mappedRightBtn == old(mappedRightBtn)
      // an active pass fills the report, whether or not the device is configured
      ensures old(Active(key, left, right)) ==>
        currentButtons == ButtonsFor(key, left.btn, right.btn) && usb.report == FilledReport(key, left, right)
        && mappedKey == key && mappedLeftBtn == left.btn && mappedRightBtn == right.btn
      // a send is attempted exactly when the pass is active and the device configured, and it sends the buffer
      ensures sent.Some? <==> old(Active(key, left, right)) && configured
      ensures sent.Some? ==>
        var o := Send(true, old(usb.state), FilledReport(key, left, right), NullReport, writeStatus);
        sent.value == o.ret && usb.state == o.state
      ensures sent.None? ==> usb.state == old(usb.state)
      // only a successful send records the inputs; a busy endpoint leaves the send pending
      ensures sent == Some(SendOk) ==>
        !pendingSend && lastKey == key && lastLeft == left && lastRight == right
      ensures sent != Some(SendOk) ==>
        lastKey == old(lastKey) && lastLeft == old(lastLeft) && lastRight == old(lastRight)
      ensures sent == Some(SendBusy) ==> pendingSend
      ensures sent != Some(SendOk) && sent != Some(SendBusy) ==> pendingSend == old(pendingSend)
    {
      sent := None;
      if Active(key, left, right) {
        MapButtons(key, left.btn, right.btn);
        usb.report := FilledReport(key, left, right);
        if configured {
          var ret := SendAndRecord(usb, key, left, right, writeStatus);
          sent := Some(ret);
        }
      }
    }

    /**
     * The send at the end of an active pass on a configured device: the report
     * buffer is sent as it is, and the result decides what is remembered.
     */
    method SendAndRecord(usb: HidGamepad, key: UInt8, left: JoystickData, right: JoystickData, writeStatus: int)
      returns (ret: int)
      modifies this, usb
      ensures var o := Send(true, old(usb.state), old(usb.report), NullReport, writeStatus);
        ret == o.ret && usb.state == o.state && usb.report == old(usb.report)
      ensures currentButtons == old(currentButtons)
      ensures mappedKey == old(mappedKey) && mappedLeftBtn == old(mappedLeftBtn) && mappedRightBtn == old(mappedRightBtn)
      ensures ret == SendOk ==> !pendingSend && lastKey == key && lastLeft == left && lastRight == right
      ensures ret != SendOk ==> lastKey == old(lastKey) && lastLeft == old(lastLeft) && lastRight == old(lastRight)
      ensures ret == SendBusy ==> pendingSend
      ensures ret != SendOk && ret != SendBusy ==> pendingSend == old(pendingSend)
    {
      var packet;
      ret, packet := usb.SendReport(true, NullReport, writeStatus);
      if ret == SendOk {
        pendingSend := false;
        lastKey := key;
        lastLeft := left;
        lastRight := right;
      } else if ret == SendBusy {
        pendingSend := true;
      }
    }

    /** The button mapping of one pass: the matrix key, then the two stick buttons, into current_buttons. */
    method MapButtons(key: UInt8, leftBtn: bool, rightBtn: bool)
      modifies this
      ensures currentButtons == ButtonsFor(key, leftBtn, rightBtn)
      ensures mappedKey == key && mappedLeftBtn == leftBtn && mappedRightBtn == rightBtn
      ensures pendingSend == old(pendingSend) && lastKey == old(lastKey)
      ensures lastLeft == old(lastLeft) && lastRight == old(lastRight)
    {
      var buttons: bv16;
      if key != 0xFF && key < 14 {
        buttons := ButtonBit(key);
      } else {
        buttons := 0;
      }
      if leftBtn {
        buttons := buttons | ButtonLS;
      }
      if rightBtn {
        buttons := buttons | ButtonRS;
      }
      currentButtons := buttons;
      mappedKey, mappedLeftBtn, mappedRightBtn := key, leftBtn, rightBtn;
    }
  }
}
