/**
 * The UART receive path of step_motor_app.c, one copy per motor axis (X and
 * Y): a DMA buffer the UART fills, a ring buffer the receive callback empties
 * the DMA buffer into, and a parse buffer the motor task drains the ring buffer into
 * before handing the bytes to the motor driver's response parser.
 *
 * The ring buffer library and the response parser are not part of this model.
 * The ring buffer is a FIFO of bounded capacity that accepts as many offered
 * bytes as it has room for and drops the rest. The parser is a function
 * argument.
 */
module StepMotor {
  import opened CInts

  /** STEP_MOTOR_BUFFER_SIZE: the DMA buffer, the ring buffer's pool and the parse buffer as declared. */
  const BufferSize: nat := 64

  /** The capacity the ring buffer is initialised with. */
  const RingCapacity: nat := BufferSize

  /** The parse buffer as declared: it has no room for a terminator after a full ring. */
  const DeclaredParseSize: nat := BufferSize

  /** The parse buffer this model uses: one byte more, for the terminator. */
  const ParseSize: nat := BufferSize + 1

  // The ring buffer, as the contents it holds in FIFO order

  /** rt_ringbuffer_put: the offered bytes are appended as far as there is room. */
  function RingPut(queued: seq<bv8>, offered: seq<bv8>): (r: seq<bv8>)
    requires |queued| <= RingCapacity
    ensures |r| <= RingCapacity
    ensures |r| == if |queued| + |offered| <= RingCapacity then |queued| + |offered| else RingCapacity
    ensures r[..|queued|] == queued
    ensures r[|queued|..] == offered[..|r| - |queued|]
  {
    var room := RingCapacity - |queued|;
    var accepted := if |offered| <= room then offered else offered[..room];
    assert (queued + accepted)[..|queued|] == queued;
    assert (queued + accepted)[|queued|..] == accepted;
    queued + accepted
  }

  /** rt_ringbuffer_get: up to `n` bytes come out from the front, the rest stay queued. */
  function RingGet(queued: seq<bv8>, n: nat): (r: (seq<bv8>, seq<bv8>))
    ensures |r.0| == if n <= |queued| then n else |queued|
    ensures r.0 + r.1 == queued
  {
    var taken := if n <= |queued| then n else |queued|;
    assert queued[..taken] + queued[taken..] == queued;
    (queued[..taken], queued[taken..])
  }

  /** Bytes put into a ring with room for them come out again first-in first-out, after what was already queued. */
  lemma RingFifo(queued: seq<bv8>, offered: seq<bv8>)
    requires |queued| + |offered| <= RingCapacity
    ensures RingPut(queued, offered) == queued + offered
    ensures RingGet(RingPut(queued, offered), |queued| + |offered|) == (queued + offered, [])
  {
    var r := RingPut(queued, offered);
    assert r == r[..|queued|] + r[|queued|..];
    var got := RingGet(r, |r|);
    assert got.0 == r by {
      assert |got.1| == 0;
    }
  }

  /** A full ring accepts nothing more. */
  lemma FullRingDropsOffer(queued: seq<bv8>, offered: seq<bv8>)
    requires |queued| == RingCapacity
    ensures RingPut(queued, offered) == queued
  {
    var r := RingPut(queued, offered);
    assert r == r[..|queued|];
  }

  // The parser, given as an argument

  /** The part of Emm_V5_Response_t this file reads: the responding driver's address. */
  datatype MotorResponse = MotorResponse(addr: UInt8)

  /** Emm_V5_Parse_Response's verdict on a frame, and the response structure it leaves behind. */
  datatype ParseResult = ParseResult(ok: bool, response: MotorResponse)

  datatype AxisId = X | Y

  /** What one axis's pass of the motor task does that can be seen outside: the handler and address print, or the error print. */
  datatype TaskEvent = Handled(axis: AxisId, addr: UInt8) | ParseError(axis: AxisId)

  /**
   * The events one axis contributes to a task call, given the bytes its ring
   * buffer held: none when it held none, otherwise exactly one, decided by the
   * parser on exactly those bytes.
   */
  function AxisEvents(axis: AxisId, queued: seq<bv8>, parser: seq<bv8> -> ParseResult): (events: seq<TaskEvent>)
    ensures queued == [] <==> events == []
    ensures queued != [] ==> |events| == 1 && events[0].axis == axis
    ensures queued != [] ==> (events[0].Handled? <==> parser(queued).ok)
    ensures queued != [] && parser(queued).ok ==> events[0].addr == parser(queued).response.addr
  {
    if queued == [] then []
    else if parser(queued).ok then [Handled(axis, parser(queued).response.addr)]
    else [ParseError(axis)]
  }

  /** The index the motor task writes its terminator to: the number of bytes it drained from the ring. */
  function TerminatorIndex(queued: seq<bv8>): nat {
    |queued|
  }

  /** One axis's statics: its DMA buffer, ring buffer, parse buffer and response structure. */
  class Axis {
    const dma: array<bv8>
    const parse: array<bv8>
    var ring: seq<bv8>
    var response: MotorResponse

    ghost predicate Valid()
      reads this
    {
      dma.Length == BufferSize && parse.Length == ParseSize && |ring| <= RingCapacity && dma != parse
    }

    /** The parse buffer holds only zeros, as it does before the first task call and after each one. */
    ghost predicate ParseCleared()
      reads this, parse
    {
      forall i | 0 <= i < parse.Length :: parse[i] == 0
    }

    /** The zero-initialised buffers and the ring buffer as rt_ringbuffer_init leaves it: empty. */
    constructor ()
      ensures Valid() && fresh(dma) && fresh(parse)
      ensures ring == [] && dma[..] == Zeros(BufferSize) && parse[..] == Zeros(ParseSize)
    {
      dma := new bv8[BufferSize](_ => 0);
      parse := new bv8[ParseSize](_ => 0);
      ring := [];
      response := MotorResponse(0);
    }

    /**
     * step_motor_callback_x / _y, after the DMA transfer stops: the whole DMA
     * buffer, all 64 bytes whatever the UART received, is offered to the ring
     * buffer, and the DMA buffer is cleared for the next reception.
     */
    method Callback()
      requires Valid()
      modifies this, dma
      ensures Valid()
      ensures ring == RingPut(old(ring), old(dma[..]))
      ensures dma[..] == Zeros(BufferSize)
      ensures response == old(response)
    {
      ring := RingPut(ring, dma[..]);
      Clear(dma, BufferSize);
    }

    /**
     * One axis's half of step_motor_task: everything queued is drained into the
     * parse buffer, terminated, parsed and handled, and the used part of the
     * parse buffer is cleared again. `events` is what the pass does visibly.
     */
    method Process(axis: AxisId, parser: seq<bv8> -> ParseResult) returns (events: seq<TaskEvent>)
      requires Valid()
      modifies this, parse
      ensures Valid() && ring == []
      ensures events == AxisEvents(axis, old(ring), parser)
      ensures old(ring) != [] ==> response == parser(old(ring)).response
      ensures old(ring) == [] ==> response == old(response) && parse[..] == old(parse[..])
      // the terminator goes to index TerminatorIndex(old(ring)), which lies inside the parse buffer
      ensures old(ring) != [] ==> TerminatorIndex(old(ring)) < parse.Length
      ensures old(ring) != [] ==> forall i | 0 <= i <= TerminatorIndex(old(ring)) :: parse[i] == 0
      ensures forall i | TerminatorIndex(old(ring)) < i < ParseSize :: parse[i] == old(parse[i])
      ensures old(ParseCleared()) ==> ParseCleared()
    {
      events := [];
      var length := |ring|;
      assert length == TerminatorIndex(old(ring));
      if length > 0 {
        var drained := RingGet(ring, length);
        assert |drained.1| == 0 && drained.0 == old(ring);
        ring := drained.1;
        CopyInto(parse, drained.0);
        parse[length] := 0;
        assert parse[..length] == drained.0;
        var result := parser(parse[..length]);
        response := result.response;
        if result.ok {
          events := [Handled(axis, response.addr)];
        } else {
          events := [ParseError(axis)];
        }
        ghost var terminated := parse[..];
        Clear(parse, length);
        assert parse[length] == terminated[length];
        assert forall i | 0 <= i < length :: parse[i] == parse[..length][i];
      }
    }
  }

  /** A run of `n` zero bytes. */
  function Zeros(n: nat): (z: seq<bv8>)
    ensures |z| == n && forall i | 0 <= i < n :: z[i] == 0
  {
    seq(n, _ => 0)
  }

  /** memset(a, 0, n). */
  method Clear(a: array<bv8>, n: nat)
    requires n <= a.Length
    modifies a
    ensures a[..n] == Zeros(n) && a[n..] == old(a[n..])
  {
    var i := 0;
    while i < n
      invariant 0 <= i <= n
      invariant a[..i] == Zeros(i) && a[n..] == old(a[n..])
    {
      a[i] := 0;
      i := i + 1;
    }
  }

  /** The copy rt_ringbuffer_get makes into the caller's buffer. */
  method CopyInto(a: array<bv8>, bytes: seq<bv8>)
    requires |bytes| <= a.Length
    modifies a
    ensures a[..|bytes|] == bytes && a[|bytes|..] == old(a[|bytes|..])
  {
    var i := 0;
    while i < |bytes|
      invariant 0 <= i <= |bytes|
      invariant a[..i] == bytes[..i] && a[|bytes|..] == old(a[|bytes|..])
    {
      a[i] := bytes[i];
      i := i + 1;
    }
  }

  /**
   * The first reception of an axis, as the code is written: the UART fills the
   * front of the zeroed DMA buffer with `received`, and the receive callback
   * offers the whole 64-byte buffer to the empty ring. The next motor task then
   * drains 64 bytes and writes its terminator at index 64, which is one past the
   * end of the parse buffer as declared (DeclaredParseSize bytes).
   */
  method FirstReceptionTerminator(received: seq<bv8>) returns (a: Axis, index: nat)
    requires |received| <= BufferSize
    ensures a.Valid() && a.ring == received + Zeros(BufferSize - |received|)
    ensures index == TerminatorIndex(a.ring) == DeclaredParseSize
    ensures !(index < DeclaredParseSize) && index < a.parse.Length
  {
    a := new Axis();
    CopyInto(a.dma, received);
    assert a.dma[..] == received + Zeros(BufferSize - |received|);
    a.Callback();
    index := TerminatorIndex(a.ring);
  }

  /** Both axes' statics. */
  class StepMotorApp {
    const x: Axis
    const y: Axis

    /** The two axes own separate objects and buffers. */
    ghost predicate Valid()
      reads this, x, y
    {
      x.Valid() && y.Valid() && x != y
      && x.dma != y.dma && x.dma != y.parse && x.parse != y.dma && x.parse != y.parse
    }

    /** step_motor_app_uart_init's ring buffer set-up, with the zeroed statics. */
    constructor ()
      ensures Valid() && x.ring == [] && y.ring == []
    {
      x := new Axis();
      y := new Axis();
    }

    /** step_motor_callback_x: only the X axis changes. */
    method CallbackX()
      requires Valid()
      modifies x, x.dma
      ensures Valid()
      ensures x.ring == RingPut(old(x.ring), old(x.dma[..])) && x.dma[..] == Zeros(BufferSize)
      ensures y.ring == old(y.ring) && y.dma[..] == old(y.dma[..]) && y.parse[..] == old(y.parse[..])
    {
      x.Callback();
    }

    /** step_motor_callback_y: only the Y axis changes. */
    method CallbackY()
      requires Valid()
      modifies y, y.dma
      ensures Valid()
      ensures y.ring == RingPut(old(y.ring), old(y.dma[..])) && y.dma[..] == Zeros(BufferSize)
      ensures x.ring == old(x.ring) && x.dma[..] == old(x.dma[..]) && x.parse[..] == old(x.parse[..])
    {
      y.Callback();
    }

    /**
     * step_motor_task: the X axis, then the Y axis. Each axis's events depend on
     * its own queued bytes only, and both ring buffers end up empty.
     */
    method Task(parser: seq<bv8> -> ParseResult) returns (events: seq<TaskEvent>)
      requires Valid()
      modifies x, x.parse, y, y.parse
      ensures Valid() && x.ring == [] && y.ring == []
      ensures events == AxisEvents(X, old(x.ring), parser) + AxisEvents(Y, old(y.ring), parser)
      ensures old(x.ring) != [] ==> forall i | 0 <= i <= |old(x.ring)| :: x.parse[i] == 0
      ensures old(y.ring) != [] ==> forall i | 0 <= i <= |old(y.ring)| :: y.parse[i] == 0
      ensures old(x.ring) != [] ==> x.response == parser(old(x.ring)).response
      ensures old(y.ring) != [] ==> y.response == parser(old(y.ring)).response
      ensures old(x.ring) == [] ==> x.response == old(x.response) && x.parse[..] == old(x.parse[..])
      ensures old(y.ring) == [] ==> y.response == old(y.response) && y.parse[..] == old(y.parse[..])
      ensures forall i | |old(x.ring)| < i < ParseSize :: x.parse[i] == old(x.parse[i])
      ensures forall i | |old(y.ring)| < i < ParseSize :: y.parse[i] == old(y.parse[i])
      ensures old(x.ParseCleared() && y.ParseCleared()) ==> x.ParseCleared() && y.ParseCleared()
    {
      var xEvents := x.Process(X, parser);
      var yEvents := y.Process(Y, parser);
      events := xEvents + yEvents;
    }
  }
}
