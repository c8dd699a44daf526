/** The FXOS8700CQ driver state machine (capsules/extra/src/fxos8700cq.rs).

    The driver is an immutable record; every entry point is a pure function
    of the driver, the event and what the environment answers (whether the
    I2C transport accepts a submitted transfer, the completion status, the
    level the interrupt pin reads).  Each returns the new driver, what was
    handed to the bus, and the client callback emitted, if any. */
module Fxos8700cq {
  import opened Wrappers
  import opened Decode

  // ---------------------------------------------------------------------------
  // Constants
  // ---------------------------------------------------------------------------

  /** Recommended buffer length: one register address and six sample bytes
      never exceed it. */
  const BUF_LEN: nat := 6

  /** The five registers the driver writes. */
  const OUT_X_MSB: bv8 := 0x01
  const CTRL_REG1: bv8 := 0x2a
  const CTRL_REG4: bv8 := 0x2d
  const M_OUT_X_MSB: bv8 := 0x33
  const M_CTRL_REG1: bv8 := 0x5b

  /** Number of bytes read back for one three-axis sample. */
  const SAMPLE_LEN: nat := 6

  // ---------------------------------------------------------------------------
  // Data model
  // ---------------------------------------------------------------------------

  datatype State =
    | Disabled                                  // sensor in standby
    | ReadAccelSetup                            // data-ready interrupt being configured
    | ReadAccelWait                             // accelerometer being activated
    | ReadAccelWaiting                          // waiting for the data-ready edge
    | ReadAccelReading                          // sample read in flight
    | ReadAccelDeactivating(x: i16, y: i16, z: i16) // standby write in flight
    | ReadMagStart                              // one-shot measurement being triggered
    | ReadMagValues                             // magnetometer read in flight

  /** The driver's one transfer buffer. */
  type Buffer = seq<bv8>

  /** An I2C transport error; its kinds play no part in the driver. */
  datatype BusError = BusError(code: nat)

  /** The kernel error codes the request entry points return; `FromBus` is
      the conversion of a transport error, left opaque. */
  datatype ErrorCode = BUSY | NOMEM | FromBus(cause: BusError)

  /** The transport's synchronous answer to a submitted transfer. */
  datatype Transport = Accept | Reject(error: BusError)

  /** The driver record.  `buffer` is the `TakeCell`; `busOn` is whether the
      driver last enabled or disabled the I2C device; `irqOn` whether it last
      enabled or disabled the pin's interrupts; `pinIsInput` whether it has
      configured the pin as an input; `hasClient` whether a client is set. */
  datatype Driver = Driver(
    state: State,
    buffer: Option<Buffer>,
    busOn: bool,
    irqOn: bool,
    pinIsInput: bool,
    hasClient: bool)

  /** A transfer handed to the transport, which owns `data` until it
      completes or is rejected. */
  datatype Frame =
    | Write(data: Buffer, len: nat)
    | WriteRead(data: Buffer, writeLen: nat, readLen: nat)
  {
    /** The bytes put on the bus. */
    function Sent(): seq<bv8>
      requires Valid()
    {
      match this
      case Write(data, len) => data[..len]
      case WriteRead(data, writeLen, _) => data[..writeLen]
    }

    predicate Valid()
    {
      match this
      case Write(data, len) => len <= |data|
      case WriteRead(data, writeLen, readLen) => writeLen <= |data| && readLen <= |data|
    }
  }

  /** What an event did on the bus. */
  datatype BusAction =
    | NoTransfer
    | Submitted(frame: Frame)   // accepted: the buffer is now the transport's
    | Refused(frame: Frame)     // rejected: the buffer came straight back

  /** The result of one event: the new driver, the bus action and the client
      callback, if one was made. */
  datatype Outcome = Outcome(driver: Driver, bus: BusAction, upcall: Option<Axes>)

  /** The result of a request entry point: its return value and outcome. */
  datatype Response = Response(result: Result<(), ErrorCode>, outcome: Outcome)

  /** The environment's answers while handling a completion. */
  datatype Env = Env(transport: Transport, pinLevel: bool)

  // ---------------------------------------------------------------------------
  // Buffer accounting
  // ---------------------------------------------------------------------------

  /** Every buffer the driver holds or hands out is large enough for the
      indices it writes and reads. */
  predicate WellSized(b: Buffer)
  {
    |b| >= BUF_LEN
  }

  predicate DriverWellSized(d: Driver)
  {
    d.buffer.Some? ==> WellSized(d.buffer.value)
  }

  /** Number of buffers the driver holds (0 or 1). */
  function Held(d: Driver): nat
  {
    if d.buffer.Some? then 1 else 0
  }

  /** Number of buffers the bus action left with the transport (0 or 1). */
  function InFlight(a: BusAction): nat
  {
    if a.Submitted? then 1 else 0
  }

  /** The callback delivered to the client, if one is registered. */
  function Notify(d: Driver, a: Axes): (u: Option<Axes>)
    ensures u.Some? <==> d.hasClient
    ensures u.Some? ==> u.value == a
  {
    if d.hasClient then Some(a) else None
  }

  /** The buffer with its first bytes overwritten by `prefix`. */
  function Stamp(b: Buffer, prefix: seq<bv8>): (r: Buffer)
    requires |prefix| <= |b|
    ensures |r| == |b|
    ensures r[..|prefix|] == prefix
    ensures r[|prefix|..] == b[|prefix|..]
  {
    prefix + b[|prefix|..]
  }

  // ---------------------------------------------------------------------------
  // Construction and the sensor interface
  // ---------------------------------------------------------------------------

  /** A fresh driver: standby, holding its buffer, no client. */
  function New(b: Buffer): (d: Driver)
    ensures d.state == Disabled && d.buffer == Some(b) && !d.hasClient
    ensures !d.busOn && !d.irqOn && !d.pinIsInput
  {
    Driver(Disabled, Some(b), false, false, false, false)
  }

  /** Registering the client changes nothing but the client slot. */
  function SetClient(d: Driver): (d': Driver)
    ensures d'.hasClient
    ensures d'.state == d.state && d'.buffer == d.buffer
    ensures d'.busOn == d.busOn && d'.irqOn == d.irqOn && d'.pinIsInput == d.pinIsInput
  {
    d.(hasClient := true)
  }

  function ReadAccelerometer(d: Driver, t: Transport): Response
    requires DriverWellSized(d)
  {
    StartReadAccel(d, t)
  }

  function ReadMagnetometer(d: Driver, t: Transport): Response
    requires DriverWellSized(d)
  {
    StartReadMagnetometer(d, t)
  }

  // ---------------------------------------------------------------------------
  // Request entry points
  // ---------------------------------------------------------------------------

  /** `start_read_accel`: from standby, enable the data-ready interrupt
      (CTRL_REG4 = 1, CTRL_REG5 = 1) with a 3-byte write. */
  function StartReadAccel(d: Driver, t: Transport): (r: Response)
    requires DriverWellSized(d)
    // busy rejection, both directions
    ensures r.result == Err(BUSY) <==> d.state != Disabled
    ensures d.state != Disabled ==> r.outcome == Outcome(d, NoTransfer, None)
    // no buffer
    ensures d.state == Disabled && d.buffer.None? ==>
      r.result == Err(NOMEM) && r.outcome.bus == NoTransfer &&
      r.outcome.driver == d.(pinIsInput := true)
    // transport rejects the first write
    ensures d.state == Disabled && d.buffer.Some? && t.Reject? ==>
      && r.result == Err(FromBus(t.error))
      && r.outcome.bus.Refused?
      && r.outcome.driver.state == Disabled
      && r.outcome.driver.buffer == Some(r.outcome.bus.frame.data)
      && !r.outcome.driver.busOn
    // accepted
    ensures d.state == Disabled && d.buffer.Some? && t.Accept? ==>
      && r.result == Ok(())
      && r.outcome.driver.state == ReadAccelSetup
      && r.outcome.driver.buffer.None?
      && r.outcome.driver.busOn
    // the frame tried, whenever one is
    ensures !r.outcome.bus.NoTransfer? ==>
      && r.outcome.bus.frame.Write?
      && r.outcome.bus.frame.Valid()
      && r.outcome.bus.frame.Sent() == [CTRL_REG4, 1, 1]
    // the pin is made an input on every path out of standby
    ensures d.state == Disabled ==> r.outcome.driver.pinIsInput
    // requests never call back and never lose the buffer
    ensures r.outcome.upcall.None?
    ensures Held(d) == Held(r.outcome.driver) + InFlight(r.outcome.bus)
    ensures DriverWellSized(r.outcome.driver)
    ensures r.outcome.driver.irqOn == d.irqOn && r.outcome.driver.hasClient == d.hasClient
  {
    if d.state == Disabled then
      var d1 := d.(pinIsInput := true);
      match d.buffer
      case None => Response(Err(NOMEM), Outcome(d1, NoTransfer, None))
      case Some(b) =>
        var frame := Write(Stamp(b, [CTRL_REG4, 1, 1]), 3);
        match t
        case Reject(e) =>
          Response(Err(FromBus(e)),
                   Outcome(d1.(buffer := Some(frame.data), busOn := false), Refused(frame), None))
        case Accept =>
          Response(Ok(()),
                   Outcome(d1.(state := ReadAccelSetup, buffer := None, busOn := true),
                           Submitted(frame), None))
    else
      Response(Err(BUSY), Outcome(d, NoTransfer, None))
  }

  /** `start_read_magnetometer`: from standby, enable both sensors and
      trigger a one-shot measurement (M_CTRL_REG1 = 0b00100011). */
  function StartReadMagnetometer(d: Driver, t: Transport): (r: Response)
    requires DriverWellSized(d)
    ensures r.result == Err(BUSY) <==> d.state != Disabled
    ensures d.state != Disabled ==> r.outcome == Outcome(d, NoTransfer, None)
    ensures d.state == Disabled && d.buffer.None? ==>
      r.result == Err(NOMEM) && r.outcome == Outcome(d, NoTransfer, None)
    ensures d.state == Disabled && d.buffer.Some? && t.Reject? ==>
      && r.result == Err(FromBus(t.error))
      && r.outcome.bus.Refused?
      && r.outcome.driver.state == Disabled
      && r.outcome.driver.buffer == Some(r.outcome.bus.frame.data)
      && !r.outcome.driver.busOn
    ensures d.state == Disabled && d.buffer.Some? && t.Accept? ==>
      && r.result == Ok(())
      && r.outcome.driver.state == ReadMagStart
      && r.outcome.driver.buffer.None?
      && r.outcome.driver.busOn
    ensures !r.outcome.bus.NoTransfer? ==>
      && r.outcome.bus.frame.Write?
      && r.outcome.bus.frame.Valid()
      && r.outcome.bus.frame.Sent() == [M_CTRL_REG1, 0x23]
    ensures r.outcome.upcall.None?
    ensures Held(d) == Held(r.outcome.driver) + InFlight(r.outcome.bus)
    ensures DriverWellSized(r.outcome.driver)
    ensures r.outcome.driver.irqOn == d.irqOn && r.outcome.driver.pinIsInput == d.pinIsInput
    ensures r.outcome.driver.hasClient == d.hasClient
  {
    if d.state == Disabled then
      match d.buffer
      case None => Response(Err(NOMEM), Outcome(d, NoTransfer, None))
      case Some(b) =>
        var frame := Write(Stamp(b, [M_CTRL_REG1, 0x23]), 2);
        match t
        case Reject(e) =>
          Response(Err(FromBus(e)),
                   Outcome(d.(buffer := Some(frame.data), busOn := false), Refused(frame), None))
        case Accept =>
          Response(Ok(()),
                   Outcome(d.(state := ReadMagStart, buffer := None, busOn := true),
                           Submitted(frame), None))
    else
      Response(Err(BUSY), Outcome(d, NoTransfer, None))
  }

  // ---------------------------------------------------------------------------
  // The data-ready interrupt
  // ---------------------------------------------------------------------------

  /** The 6-byte sample read starting at OUT_X_MSB. */
  function SampleRead(b: Buffer): (f: Frame)
    requires WellSized(b)
    ensures f.WriteRead? && f.Valid() && f.Sent() == [OUT_X_MSB] && f.readLen == SAMPLE_LEN
    ensures |f.data| == |b|
  {
    WriteRead(Stamp(b, [OUT_X_MSB]), 1, SAMPLE_LEN)
  }

  /** `fired`: with no state guard, whenever the driver holds its buffer it
      disables interrupts, enables the bus and submits the sample read. */
  function Fired(d: Driver, t: Transport): (r: Outcome)
    requires DriverWellSized(d)
    ensures d.buffer.None? ==> r == Outcome(d, NoTransfer, None)
    ensures d.buffer.Some? ==>
      && !r.driver.irqOn
      && !r.bus.NoTransfer?
      && r.bus.frame == SampleRead(d.buffer.value)
    ensures d.buffer.Some? && t.Accept? ==>
      r.driver.state == ReadAccelReading && r.driver.buffer.None? && r.driver.busOn && r.bus.Submitted?
    // a rejected read: buffer back, bus off, state as it was, no callback
    ensures d.buffer.Some? && t.Reject? ==>
      && r.driver.state == d.state
      && r.driver.buffer == Some(r.bus.frame.data)
      && !r.driver.busOn
      && r.bus.Refused?
    ensures r.upcall.None?
    ensures Held(d) == Held(r.driver) + InFlight(r.bus)
    ensures DriverWellSized(r.driver)
    ensures r.driver.hasClient == d.hasClient && r.driver.pinIsInput == d.pinIsInput
  {
    match d.buffer
    case None => Outcome(d, NoTransfer, None)
    case Some(b) =>
      var d1 := d.(irqOn := false, busOn := true);
      var frame := SampleRead(b);
      match t
      case Reject(_) => Outcome(d1.(buffer := Some(frame.data), busOn := false), Refused(frame), None)
      case Accept => Outcome(d1.(state := ReadAccelReading, buffer := None), Submitted(frame), None)
  }

  // ---------------------------------------------------------------------------
  // Transfer completion
  // ---------------------------------------------------------------------------

  /** The shared failure path: standby, buffer back, one all-zero callback;
      neither the bus nor the interrupt is touched. */
  function ZeroReset(d: Driver, b: Buffer): Outcome
  {
    Outcome(d.(state := Disabled, buffer := Some(b)), NoTransfer, Notify(d, ZeroAxes))
  }

  /** Submits `frame`; on rejection the driver falls back to `ZeroReset`. */
  function SubmitOrReset(d: Driver, frame: Frame, next: State, t: Transport): Outcome
  {
    match t
    case Accept => Outcome(d.(state := next, buffer := None), Submitted(frame), None)
    case Reject(_) => ZeroReset(d, frame.data).(bus := Refused(frame))
  }

  /** `command_complete`: the transport hands the buffer back with a status. */
  function CommandComplete(d: Driver, b: Buffer, status: Result<(), BusError>, env: Env): (r: Outcome)
    requires WellSized(b)
    // any failure, in any state: standby, buffer back, bus and interrupt as
    // they were, exactly one zero callback if a client is registered
    ensures status.Err? ==>
      && r.driver == d.(state := Disabled, buffer := Some(b))
      && r.bus == NoTransfer
      && r.upcall == Notify(d, ZeroAxes)
    ensures status.Ok? ==> r == CompleteOk(d, b, env)
    // outside the catch-all arm the returned buffer is conserved
    ensures (status.Err? || !(d.state.Disabled? || d.state.ReadAccelWaiting?)) ==>
      Held(r.driver) + InFlight(r.bus) == 1
    ensures DriverWellSized(d) ==> DriverWellSized(r.driver)
    ensures r.bus.Submitted? ==> |r.bus.frame.data| == |b| && r.bus.frame.Valid()
    ensures r.driver.hasClient == d.hasClient && r.driver.pinIsInput == d.pinIsInput
    ensures r.upcall.Some? ==> d.hasClient
  {
    if status.Err? then ZeroReset(d, b) else CompleteOk(d, b, env)
  }

  /** The successful completion, dispatched on the state (lines 293-403). */
  function CompleteOk(d: Driver, b: Buffer, env: Env): (r: Outcome)
    requires WellSized(b)
    // the last step of each sequence: bus off, standby, buffer back, and the
    // values delivered once, if a client is registered
    ensures d.state.ReadAccelDeactivating? ==>
      && r.driver == d.(busOn := false, state := Disabled, buffer := Some(b))
      && r.bus == NoTransfer
      && r.upcall == Notify(d, Axes(d.state.x, d.state.y, d.state.z))
    ensures d.state.ReadMagValues? ==>
      && r.driver == d.(busOn := false, state := Disabled, buffer := Some(b))
      && r.bus == NoTransfer
      && r.upcall == Notify(d, DecodeMag(b))
    // the catch-all arm: nothing changes and the returned buffer is dropped
    ensures d.state.Disabled? || d.state.ReadAccelWaiting? ==> r == Outcome(d, NoTransfer, None)
    // otherwise the returned buffer is conserved
    ensures !(d.state.Disabled? || d.state.ReadAccelWaiting?) ==> Held(r.driver) + InFlight(r.bus) == 1
    ensures DriverWellSized(d) ==> DriverWellSized(r.driver)
    ensures r.bus.Submitted? ==> |r.bus.frame.data| == |b| && r.bus.frame.Valid()
    ensures r.driver.hasClient == d.hasClient && r.driver.pinIsInput == d.pinIsInput
    ensures r.upcall.Some? ==> d.hasClient
  {
    match d.state
    case ReadAccelSetup => CompleteAccelSetup(d, b, env.transport)
    case ReadAccelWait => CompleteAccelWait(d, b, env)
    case ReadAccelReading => CompleteAccelReading(d, b, env.transport)
    case ReadAccelDeactivating(x, y, z) => DeliverAndStop(d, b, Axes(x, y, z))
    case ReadMagStart => CompleteMagStart(d, b, env.transport)
    case ReadMagValues => DeliverAndStop(d, b, DecodeMag(b))
    case Disabled => Outcome(d, NoTransfer, None)
    case ReadAccelWaiting => Outcome(d, NoTransfer, None)
  }

  /** `ReadAccelSetup` done: arm the falling-edge interrupt, then activate
      the accelerometer (CTRL_REG1 = 1). */
  function CompleteAccelSetup(d: Driver, b: Buffer, t: Transport): (r: Outcome)
    requires WellSized(b)
    ensures r.driver.irqOn
    ensures !r.bus.NoTransfer? && r.bus.frame.Write? && r.bus.frame.Valid()
    ensures r.bus.frame.Sent() == [CTRL_REG1, 1] && |r.bus.frame.data| == |b|
    ensures t.Accept? ==> r.driver.state == ReadAccelWait && r.driver.buffer.None? && r.upcall.None?
    ensures t.Reject? ==>
      r.driver.state == Disabled && r.driver.buffer == Some(r.bus.frame.data) &&
      r.upcall == Notify(d, ZeroAxes)
    ensures r.driver.busOn == d.busOn
    ensures Held(r.driver) + InFlight(r.bus) == 1
    ensures DriverWellSized(r.driver)
    ensures r.driver.hasClient == d.hasClient && r.driver.pinIsInput == d.pinIsInput
  {
    SubmitOrReset(d.(irqOn := true), Write(Stamp(b, [CTRL_REG1, 1]), 2), ReadAccelWait, t)
  }

  /** `ReadAccelWait` done: the race check.  The data-ready line is active
      low: if it already reads low, the sample is ready and is read at once;
      otherwise the buffer is kept and the driver waits for the edge. */
  function CompleteAccelWait(d: Driver, b: Buffer, env: Env): (r: Outcome)
    requires WellSized(b)
    ensures !env.pinLevel ==>
      && !r.driver.irqOn
      && !r.bus.NoTransfer? && r.bus.frame == SampleRead(b)
      && r.driver.busOn == d.busOn
    ensures !env.pinLevel && env.transport.Accept? ==>
      r.driver.state == ReadAccelReading && r.driver.buffer.None? && r.upcall.None?
    ensures !env.pinLevel && env.transport.Reject? ==>
      r.driver.state == Disabled && r.driver.buffer == Some(r.bus.frame.data) &&
      r.upcall == Notify(d, ZeroAxes)
    ensures env.pinLevel ==>
      && r.driver.state == ReadAccelWaiting
      && r.driver.buffer == Some(b)
      && !r.driver.busOn
      && r.driver.irqOn == d.irqOn
      && r.bus == NoTransfer && r.upcall.None?
    ensures Held(r.driver) + InFlight(r.bus) == 1
    ensures DriverWellSized(r.driver)
    ensures r.driver.hasClient == d.hasClient && r.driver.pinIsInput == d.pinIsInput
  {
    if !env.pinLevel then
      SubmitOrReset(d.(irqOn := false), SampleRead(b), ReadAccelReading, env.transport)
    else
      Outcome(d.(buffer := Some(b), busOn := false, state := ReadAccelWaiting), NoTransfer, None)
  }

  /** `ReadAccelReading` done: decode the sample, then put the sensor in
      standby (CTRL_REG1 = 0), carrying the values in the next state. */
  function CompleteAccelReading(d: Driver, b: Buffer, t: Transport): (r: Outcome)
    requires WellSized(b)
    ensures !r.bus.NoTransfer? && r.bus.frame.Write? && r.bus.frame.Valid()
    ensures r.bus.frame.Sent() == [CTRL_REG1, 0] && |r.bus.frame.data| == |b|
    ensures t.Accept? ==>
      && r.driver.state.ReadAccelDeactivating?
      && Axes(r.driver.state.x, r.driver.state.y, r.driver.state.z) == DecodeAccel(b)
      && r.driver.buffer.None? && r.upcall.None?
    ensures t.Reject? ==>
      r.driver.state == Disabled && r.driver.buffer == Some(r.bus.frame.data) &&
      r.upcall == Notify(d, ZeroAxes)
    ensures r.driver.busOn == d.busOn && r.driver.irqOn == d.irqOn
    ensures Held(r.driver) + InFlight(r.bus) == 1
    ensures DriverWellSized(r.driver)
    ensures r.driver.hasClient == d.hasClient && r.driver.pinIsInput == d.pinIsInput
  {
    var a := DecodeAccel(b);
    SubmitOrReset(d, Write(Stamp(b, [CTRL_REG1, 0]), 2), ReadAccelDeactivating(a.x, a.y, a.z), t)
  }

  /** `ReadMagStart` done: read the six magnetometer bytes from M_OUT_X_MSB. */
  function CompleteMagStart(d: Driver, b: Buffer, t: Transport): (r: Outcome)
    requires WellSized(b)
    ensures !r.bus.NoTransfer? && r.bus.frame.WriteRead? && r.bus.frame.Valid()
    ensures r.bus.frame.Sent() == [M_OUT_X_MSB] && r.bus.frame.readLen == SAMPLE_LEN
    ensures |r.bus.frame.data| == |b|
    ensures t.Accept? ==> r.driver.state == ReadMagValues && r.driver.buffer.None? && r.upcall.None?
    ensures t.Reject? ==>
      r.driver.state == Disabled && r.driver.buffer == Some(r.bus.frame.data) &&
      r.upcall == Notify(d, ZeroAxes)
    ensures r.driver.busOn == d.busOn && r.driver.irqOn == d.irqOn
    ensures Held(r.driver) + InFlight(r.bus) == 1
    ensures DriverWellSized(r.driver)
    ensures r.driver.hasClient == d.hasClient && r.driver.pinIsInput == d.pinIsInput
  {
    SubmitOrReset(d, WriteRead(Stamp(b, [M_OUT_X_MSB]), 1, SAMPLE_LEN), ReadMagValues, t)
  }

  /** The last step of both sequences: bus off, standby, buffer back, and the
      values delivered to the client. */
  function DeliverAndStop(d: Driver, b: Buffer, a: Axes): (r: Outcome)
    requires WellSized(b)
    ensures r.driver == d.(busOn := false, state := Disabled, buffer := Some(b))
    ensures r.bus == NoTransfer
    ensures r.upcall == Notify(d, a)
    ensures Held(r.driver) + InFlight(r.bus) == 1
    ensures DriverWellSized(r.driver)
    ensures r.driver.hasClient == d.hasClient && r.driver.pinIsInput == d.pinIsInput
  {
    Outcome(d.(busOn := false, state := Disabled, buffer := Some(b)), NoTransfer, Notify(d, a))
  }
}
