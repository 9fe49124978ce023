/**
 * The HID report path of usb_app.c: the driver's report buffer and its
 * IDLE/BUSY flag, driven by the send call, the endpoint's completion callback
 * and the device event handler.
 *
 * The USB stack is outside the model: whether the device is configured and
 * what usbd_ep_start_write returns are given to the operations as arguments.
 */
module UsbApp {
  import opened CInts
  import opened UsbReport

  /** hid_state: HID_STATE_IDLE (0) or HID_STATE_BUSY (1). */
  datatype HidState = Idle | Busy

  /** The device events usbd_event_handler names; any other code takes its default branch. */
  datatype UsbEvent =
    | Reset | Connected | Disconnected | Resume | Suspend | Configured
    | SetRemoteWakeup | ClrRemoteWakeup | OtherEvent(code: nat)

  /** The report pointer given to hid_gamepad_send_report: NULL, the driver's own buffer, or another report. */
  datatype ReportArg = NullReport | OwnBuffer | CallerReport(r: Report)

  /** hid_state after an event: IDLE on disconnection and on configuration, unchanged otherwise. */
  function AfterEvent(s: HidState, e: UsbEvent): (r: HidState)
    ensures e.Disconnected? || e.Configured? ==> r == Idle
    ensures !(e.Disconnected? || e.Configured?) ==> r == s
    // no event marks the endpoint busy
    ensures r == Busy ==> s == Busy
  {
    match e
    case Disconnected => Idle
    case Configured => Idle
    case _ => s
  }

  /** What one send call returns and leaves behind. */
  datatype SendOutcome = SendOutcome(ret: int, state: HidState, buffer: Report)

  /**
   * hid_gamepad_send_report on a driver in state `s` with report buffer
   * `buffer`; `configured` is the stack's answer to usb_device_is_configured and
   * `writeStatus` what usbd_ep_start_write returns.
   */
  function Send(configured: bool, s: HidState, buffer: Report, arg: ReportArg, writeStatus: int): (o: SendOutcome)
    ensures IsSendResult(o.ret)
    ensures o.ret == SendOk <==> configured && s == Idle && writeStatus >= 0
    ensures o.ret == SendNotConfigured <==> !configured
    ensures o.ret == SendBusy <==> configured && s == Busy
    ensures o.ret == SendNotConfigured || o.ret == SendBusy ==> o.state == s && o.buffer == buffer
    ensures o.ret == SendOk ==> o.state == Busy
    ensures o.ret == SendFailed ==> o.state == Idle
    ensures o.ret == SendOk || o.ret == SendFailed ==>
      o.buffer == (if arg.CallerReport? then arg.r else buffer)
  {
    if !configured then SendOutcome(SendNotConfigured, s, buffer)
    else if s == Busy then SendOutcome(SendBusy, s, buffer)
    else
      assert s == Idle;
      var copied := if arg.CallerReport? then arg.r else buffer;
      if writeStatus < 0 then SendOutcome(SendFailed, Idle, copied)
      else SendOutcome(SendOk, Busy, copied)
  }

  /**
   * The bytes a send hands to the endpoint: the image of the report buffer
   * after the copy when the write is attempted, nothing otherwise.
   */
  function SentPacket(o: SendOutcome): (packet: seq<bv8>)
    ensures o.ret == SendOk || o.ret == SendFailed ==>
      |packet| == HidIntEpSize && Decode(packet) == o.buffer
    ensures o.ret != SendOk && o.ret != SendFailed ==> packet == []
  {
    if o.ret == SendOk || o.ret == SendFailed then
      DecodeEncode(o.buffer);
      Encode(o.buffer)
    else []
  }

  /** The driver's statics: hid_state and gamepad_report. */
  class HidGamepad {
    var state: HidState
    var report: Report

    /** The statics at start-up: IDLE, and a zero-filled report buffer. */
    constructor ()
      ensures state == Idle && report == Report(0, 0, 0, 0, 0, 0, 0, 0)
    {
      state := Idle;
      report := Report(0, 0, 0, 0, 0, 0, 0, 0);
    }

    /** hid_gamepad_init, after registering with the stack: the report is reset to neutral. */
    method Init()
      modifies this
      ensures report == NeutralReport && state == old(state)
    {
      report := Report(0, 0, 0, 0, 0, 0, 0, 0);
      report := report.(hat := HatCenter);
    }

    /** hid_gamepad_send_report. */
    method SendReport(configured: bool, arg: ReportArg, writeStatus: int) returns (ret: int, packet: seq<bv8>)
      modifies this
      ensures var o := Send(configured, old(state), old(report), arg, writeStatus);
        ret == o.ret && state == o.state && report == o.buffer && packet == SentPacket(o)
    {
      if !configured {
        return SendNotConfigured, [];
      }
      if state == Busy {
        return SendBusy, [];
      }
      if arg.CallerReport? {
        report := arg.r;
      }
      state := Busy;
      packet := Encode(report);
      if writeStatus < 0 {
        state := Idle;
        return SendFailed, packet;
      }
      ret := SendOk;
    }

    /** usbd_hid_int_callback: the transfer has completed. */
    method IntCallback()
      modifies this
      ensures state == Idle && report == old(report)
    {
      state := Idle;
    }

    /** usbd_event_handler. */
    method EventHandler(e: UsbEvent)
      modifies this
      ensures state == AfterEvent(old(state), e) && report == old(report)
    {
      match e {
        case Disconnected => state := Idle;
        case Configured => state := Idle;
        case _ =>
      }
    }
  }

  // Sequences of calls, to state what the flag guarantees across them.

  /**
   * One call into the driver, or the application writing the report buffer
   * through the pointer hid_gamepad_get_report hands out.
   */
  datatype Call =
    | SendCall(configured: bool, arg: ReportArg, writeStatus: int)
    | Completion
    | Event(e: UsbEvent)
    | BufferWrite(r: Report)

  datatype Driver = Driver(state: HidState, buffer: Report)

  /** The driver after one call. */
  function Step(d: Driver, c: Call): Driver {
    match c
    case SendCall(configured, arg, w) =>
      var o := Send(configured, d.state, d.buffer, arg, w);
      Driver(o.state, o.buffer)
    case Completion => d.(state := Idle)
    case Event(e) => d.(state := AfterEvent(d.state, e))
    case BufferWrite(r) => d.(buffer := r)
  }

  /** The driver after a sequence of calls. */
  function Run(d: Driver, cs: seq<Call>): Driver
    decreases |cs|
  {
    if cs == [] then d else Run(Step(d, cs[0]), cs[1..])
  }

  /** The results of the sends in a sequence of calls, in order. */
  function SendResults(d: Driver, cs: seq<Call>): seq<int>
    decreases |cs|
  {
    if cs == [] then []
    else
      var rest := SendResults(Step(d, cs[0]), cs[1..]);
      if cs[0].SendCall? then
        [Send(cs[0].configured, d.state, d.buffer, cs[0].arg, cs[0].writeStatus).ret] + rest
      else rest
  }

  /** A call that ends an outstanding transfer: its completion, a disconnection or a new configuration. */
  predicate Releases(c: Call) {
    c.Completion? || (c.Event? && (c.e.Disconnected? || c.e.Configured?))
  }

  /** Whether a sequence of calls leaves the report buffer to the driver: the application never writes it. */
  predicate NoBufferWrites(cs: seq<Call>) {
    forall k | 0 <= k < |cs| :: !cs[k].BufferWrite?
  }

  /**
   * While a transfer is outstanding and nothing releases it, no send succeeds
   * or fails: each one returns -1 or -2 and the flag stays BUSY. Only the
   * application's own writes change the report buffer meanwhile; without
   * them the driver is exactly as it was.
   */
  lemma {:induction false} BusyRejectsSends(d: Driver, cs: seq<Call>)
    requires d.state == Busy
    requires forall k | 0 <= k < |cs| :: !Releases(cs[k])
    ensures Run(d, cs).state == Busy
    ensures NoBufferWrites(cs) ==> Run(d, cs) == d
    ensures forall k | 0 <= k < |SendResults(d, cs)| ::
      SendResults(d, cs)[k] == SendNotConfigured || SendResults(d, cs)[k] == SendBusy
    decreases |cs|
  {
    if cs != [] {
      assert !Releases(cs[0]);
      var next := Step(d, cs[0]);
      assert next.state == Busy;
      assert !cs[0].BufferWrite? ==> next == d;
      assert NoBufferWrites(cs) ==> NoBufferWrites(cs[1..]) && !cs[0].BufferWrite? by {
        if NoBufferWrites(cs) {
          assert !cs[0].BufferWrite?;
          forall k | 0 <= k < |cs| - 1 ensures !cs[1..][k].BufferWrite? {
            assert cs[1..][k] == cs[k + 1];
          }
        }
      }
      BusyRejectsSends(next, cs[1..]);
    }
  }

  /** After a call that releases the flag, a configured send whose write starts succeeds. */
  lemma ReleaseAllowsSend(d: Driver, c: Call, arg: ReportArg, w: int)
    requires Releases(c) && w >= 0
    ensures Send(true, Step(d, c).state, Step(d, c).buffer, arg, w).ret == SendOk
  {
  }

  /**
   * A successful send leaves the flag BUSY, and the report it transmitted
   * stays in the buffer through any sends, completions-to-come and events
   * that do not release it, as long as the application does not write the
   * buffer itself.
   */
  lemma SentReportStaysBuffered(d: Driver, configured: bool, arg: ReportArg, w: int, cs: seq<Call>)
    requires Send(configured, d.state, d.buffer, arg, w).ret == SendOk
    requires forall k | 0 <= k < |cs| :: !Releases(cs[k])
    requires NoBufferWrites(cs)
    ensures var o := Send(configured, d.state, d.buffer, arg, w);
      Run(Driver(o.state, o.buffer), cs) == Driver(Busy, o.buffer) && Decode(SentPacket(o)) == o.buffer
  {
    var o := Send(configured, d.state, d.buffer, arg, w);
    BusyRejectsSends(Driver(o.state, o.buffer), cs);
  }

  /**
   * Nothing guards the buffer of a transfer in flight: after a successful
   * send, an application write through hid_gamepad_get_report replaces the
   * report being transmitted while the flag stays BUSY.
   */
  lemma BufferWriteDuringTransfer(d: Driver, configured: bool, arg: ReportArg, w: int, r: Report)
    requires Send(configured, d.state, d.buffer, arg, w).ret == SendOk
    ensures var o := Send(configured, d.state, d.buffer, arg, w);
      Step(Driver(o.state, o.buffer), BufferWrite(r)) == Driver(Busy, r)
  {
  }

  /**
   * The report values hid_gamepad_test writes at step `i` of its 100 steps:
   * a stick sweep, mirrored on the right stick, opposing triggers, one
   * button at a time and the hat cycling through all nine values.
   */
  function TestStepReport(i: nat): (r: Report)
    requires i < 100
    ensures r.leftX == r.leftY == (i * 127) / 100 && r.rightX == -r.leftX && r.rightY == -r.leftY
    ensures 0 <= r.leftX <= 125
    ensures r.leftTrigger == (i * 255) / 100 && r.leftTrigger + r.rightTrigger == 255
    ensures r.buttons == ButtonBit(i % 16) && r.hat == i % 9
  {
    var stick := (i * 127) / 100;
    var trigger := (i * 255) / 100;
    Report(ButtonBit(i % 16), stick, stick, -stick, -stick, trigger, 255 - trigger, i % 9)
  }

  /** The sweep only grows, and the hat reaches the centre value at step 8. */
  lemma TestSweepMonotone(i: nat, j: nat)
    requires i <= j < 100
    ensures TestStepReport(i).leftX <= TestStepReport(j).leftX
    ensures TestStepReport(i).leftTrigger <= TestStepReport(j).leftTrigger
    ensures TestStepReport(8).hat == HatCenter
  {
    MulDivMonotone(i, j, 127, 100);
    MulDivMonotone(i, j, 255, 100);
  }

  lemma MulDivMonotone(i: nat, j: nat, m: nat, d: nat)
    requires i <= j && d > 0
    ensures (i * m) / d <= (j * m) / d
  {
    assert i * m <= j * m by {
      assert j * m == i * m + (j - i) * m;
    }
    FloorDivMonotone(i * m, j * m, d);
  }

  lemma FloorDivMonotone(a: nat, b: nat, d: nat)
    requires a <= b && d > 0
    ensures a / d <= b / d
  {
    FloorDivBounds(a, d);
    FloorDivBounds(b, d);
    if b / d < a / d {
      MulMonotone(b / d + 1, a / d, d);
    }
  }
}
