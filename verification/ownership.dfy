/** The driver together with the transport that holds its buffer while a
    transfer is outstanding.

    `System` pairs the driver record with the frame the transport owns, if
    any.  The invariant `Inv` says the buffer has exactly one owner, that a
    transfer is outstanding exactly in the states that expect a completion,
    and which transfer each such state is waiting for.  Every event the
    environment can deliver keeps it; from it follow the buffer-ownership
    guarantees, and the end-to-end sequences are proved on top. */
module Ownership {
  import opened Wrappers
  import opened Decode
  import opened Fxos8700cq

  datatype System = System(driver: Driver, pending: Option<Frame>)

  /** What the outside world can do to the driver. */
  datatype Event =
    | RequestAccel(t: Transport)
    | RequestMag(t: Transport)
    | RegisterClient
    | Interrupt(t: Transport)
    | Complete(status: Result<(), BusError>, returned: Buffer, env: Env)

  /** The states in which the driver has handed its buffer to the bus. */
  predicate AwaitsCompletion(st: State)
  {
    !(st.Disabled? || st.ReadAccelWaiting?)
  }

  /** The transfer each waiting state has outstanding. */
  predicate Expected(st: State, f: Frame)
  {
    && f.Valid()
    && WellSized(f.data)
    && match st
       case ReadAccelSetup => f.Write? && f.Sent() == [CTRL_REG4, 1, 1]
       case ReadAccelWait => f.Write? && f.Sent() == [CTRL_REG1, 1]
       case ReadAccelReading => f.WriteRead? && f.Sent() == [OUT_X_MSB] && f.readLen == SAMPLE_LEN
       case ReadAccelDeactivating(_, _, _) => f.Write? && f.Sent() == [CTRL_REG1, 0]
       case ReadMagStart => f.Write? && f.Sent() == [M_CTRL_REG1, 0x23]
       case ReadMagValues => f.WriteRead? && f.Sent() == [M_OUT_X_MSB] && f.readLen == SAMPLE_LEN
       case Disabled => false
       case ReadAccelWaiting => false
  }

  predicate Inv(s: System)
  {
    && (s.driver.buffer.Some? <==> s.pending.None?)
    && (s.pending.Some? <==> AwaitsCompletion(s.driver.state))
    && (s.pending.Some? ==> Expected(s.driver.state, s.pending.value) && s.driver.busOn)
    && ((s.driver.state.ReadAccelReading? || s.driver.state.ReadAccelDeactivating?) ==> !s.driver.irqOn)
    && DriverWellSized(s.driver)
  }

  /** Whether the environment can deliver `e` now: the pin reports an edge
      only while its interrupt is enabled, the transport completes only the
      transfer it holds and returns a buffer of the length it was given. */
  predicate Enabled(s: System, e: Event)
  {
    match e
    case Interrupt(_) => s.driver.irqOn
    case Complete(_, returned, _) => s.pending.Some? && |returned| == |s.pending.value.data|
    case _ => true
  }

  /** The transport's holding after a bus action. */
  function Pending(before: Option<Frame>, a: BusAction): Option<Frame>
  {
    if a.Submitted? then Some(a.frame) else before
  }

  datatype Transition = Transition(next: System, upcall: Option<Axes>)

  /** One event, dispatched to the driver entry point that handles it. */
  function Step(s: System, e: Event): (r: Transition)
    requires Inv(s) && Enabled(s, e)
    ensures Inv(r.next)
    // the buffer changes hands but is never duplicated or lost
    ensures r.next.driver.buffer.Some? <==> r.next.pending.None?
    // a request while busy changes nothing
    ensures (e.RequestAccel? || e.RequestMag?) && s.driver.state != Disabled ==> r == Transition(s, None)
    // every completion reaches a state that expected it
    ensures e.Complete? ==> AwaitsCompletion(s.driver.state)
    ensures r.upcall.Some? ==> s.driver.hasClient
  {
    match e
    case RequestAccel(t) => OnRequestAccel(s, t)
    case RequestMag(t) => OnRequestMag(s, t)
    case RegisterClient => Transition(System(SetClient(s.driver), s.pending), None)
    case Interrupt(t) => OnInterrupt(s, t)
    case Complete(status, returned, env) => OnComplete(s, status, returned, env)
  }

  function OnRequestAccel(s: System, t: Transport): (r: Transition)
    requires Inv(s)
    ensures Inv(r.next) && r.upcall.None?
    ensures s.driver.state != Disabled ==> r == Transition(s, None)
  {
    var o := StartReadAccel(s.driver, t).outcome;
    Transition(System(o.driver, Pending(s.pending, o.bus)), o.upcall)
  }

  function OnRequestMag(s: System, t: Transport): (r: Transition)
    requires Inv(s)
    ensures Inv(r.next) && r.upcall.None?
    ensures s.driver.state != Disabled ==> r == Transition(s, None)
  {
    var o := StartReadMagnetometer(s.driver, t).outcome;
    Transition(System(o.driver, Pending(s.pending, o.bus)), o.upcall)
  }

  function OnInterrupt(s: System, t: Transport): (r: Transition)
    requires Inv(s)
    ensures Inv(r.next) && r.upcall.None?
  {
    var o := Fired(s.driver, t);
    Transition(System(o.driver, Pending(s.pending, o.bus)), o.upcall)
  }

  function OnComplete(s: System, status: Result<(), BusError>, returned: Buffer, env: Env): (r: Transition)
    requires Inv(s) && s.pending.Some? && |returned| == |s.pending.value.data|
    ensures Inv(r.next)
    ensures AwaitsCompletion(s.driver.state)
    ensures r.upcall.Some? ==> s.driver.hasClient
  {
    var o := CommandComplete(s.driver, returned, status, env);
    Transition(System(o.driver, Pending(None, o.bus)), o.upcall)
  }

  /** One event if the environment can deliver it now; otherwise nothing. */
  function Advance(s: System, e: Event): (t: Transition)
    requires Inv(s)
    ensures Inv(t.next)
  {
    if Enabled(s, e) then Step(s, e) else Transition(s, None)
  }

  /** The system after a sequence of events, with the callbacks made on the
      way; events the environment cannot deliver at that point are skipped. */
  function Run(s: System, es: seq<Event>): (r: (System, seq<Axes>))
    requires Inv(s)
    ensures Inv(r.0)
    ensures |r.1| <= |es|
    decreases |es|
  {
    if |es| == 0 then (s, [])
    else
      var t := Advance(s, es[0]);
      var rest := Run(t.next, es[1..]);
      (rest.0, (if t.upcall.Some? then [t.upcall.value] else []) + rest.1)
  }

  /** The system a fresh driver starts as. */
  function Initial(b: Buffer): (s: System)
    requires WellSized(b)
    ensures Inv(s)
    ensures s.driver.state == Disabled && s.driver.buffer == Some(b)
  {
    System(New(b), None)
  }

  // ---------------------------------------------------------------------------
  // Buffer ownership
  // ---------------------------------------------------------------------------

  /** Every system reachable from a fresh driver keeps the invariant, so the
      buffer is never both held and in flight, never lost, and the catch-all
      arm of `command_complete` is never reached. */
  lemma {:induction false} ReachableInv(b: Buffer, es: seq<Event>)
    requires WellSized(b)
    ensures var s := Run(Initial(b), es).0;
            && Inv(s)
            && (s.driver.buffer.Some? <==> s.pending.None?)
            && (s.driver.state == Disabled ==> s.driver.buffer.Some?)
  {
  }

  /** While the invariant holds, a completion never meets `Disabled` or
      `ReadAccelWaiting`, where the returned buffer would be dropped. */
  lemma CompletionNeverDropsBuffer(s: System, e: Event)
    requires Inv(s) && e.Complete? && Enabled(s, e)
    ensures !s.driver.state.Disabled? && !s.driver.state.ReadAccelWaiting?
    ensures Step(s, e).next.pending.Some? || Step(s, e).next.driver.buffer.Some?
  {
  }

  /** Any transport failure, in any state that can receive one, returns the
      driver to standby holding its buffer, makes one all-zero callback when
      a client is set, and leaves the driver ready for a fresh request. */
  lemma {:induction false} FailureRecovers(s: System, e: Event, t: Transport)
    requires Inv(s) && e.Complete? && e.status.Err? && Enabled(s, e)
    ensures var r := Step(s, e);
            && r.next.driver.state == Disabled
            && r.next.driver.buffer == Some(e.returned)
            && r.next.pending.None?
            && r.upcall == (if s.driver.hasClient then Some(ZeroAxes) else None)
            && StartReadAccel(r.next.driver, t).result != Err(NOMEM)
            && StartReadAccel(r.next.driver, t).result != Err(BUSY)
            && StartReadMagnetometer(r.next.driver, t).result != Err(NOMEM)
            && StartReadMagnetometer(r.next.driver, t).result != Err(BUSY)
  {
    var r := Step(s, e);
    assert WellSized(e.returned);
    assert r.next.driver.buffer == Some(e.returned);
  }

  // ---------------------------------------------------------------------------
  // End-to-end sequences
  // ---------------------------------------------------------------------------

  /** A driver in standby, holding a buffer, with a client. */
  predicate ReadyWithClient(s: System)
  {
    Inv(s) && s.driver.state == Disabled && s.driver.hasClient
  }

  /** The accelerometer sequence, on both sides of the ready-pin race check:
      if the pin already reads low the sample is read at once, otherwise the
      driver waits for the edge.  Both deliver the decoded sample exactly
      once and end in standby holding the buffer with the interrupt off.
      `r0` to `r3` are the buffers the transport hands back, one per
      completion; `r2` carries the sample. */
  lemma {:induction false} AccelSequence(s: System, pinLow: bool, r0: Buffer, r1: Buffer, r2: Buffer, r3: Buffer)
    requires ReadyWithClient(s)
    requires |r0| == |r1| == |r2| == |r3| == |s.driver.buffer.value|
    ensures var (fin, upcalls) := Run(s, AccelEvents(pinLow, r0, r1, r2, r3));
            && upcalls == [DecodeAccel(r2)]
            && fin.driver.state == Disabled
            && fin.driver.buffer == Some(r3)
            && !fin.driver.busOn
            && !fin.driver.irqOn
  {
    var ok := Env(Accept, !pinLow);
    var arm := [RequestAccel(Accept), Complete(Ok(()), r0, ok)];
    var race := [Complete(Ok(()), r1, ok)] + (if pinLow then [] else [Interrupt(Accept)]);
    var finish := [Complete(Ok(()), r2, ok), Complete(Ok(()), r3, ok)];
    assert AccelEvents(pinLow, r0, r1, r2, r3) == arm + (race + finish);
    var s2 := AccelArmed(s, r0, ok);
    var s4 := AccelRace(s2, pinLow, r1);
    AccelFinish(s4, r2, r3, ok);
    RunAppend(s2, race, finish);
    RunAppend(s, arm, race + finish);
  }

  /** The events of a successful accelerometer read. */
  function AccelEvents(pinLow: bool, r0: Buffer, r1: Buffer, r2: Buffer, r3: Buffer): seq<Event>
  {
    var ok := Env(Accept, !pinLow);
    [RequestAccel(Accept), Complete(Ok(()), r0, ok), Complete(Ok(()), r1, ok)]
    + (if pinLow then [] else [Interrupt(Accept)])
    + [Complete(Ok(()), r2, ok), Complete(Ok(()), r3, ok)]
  }

  /** Request and interrupt configuration: the driver is activating the
      accelerometer with its interrupt armed. */
  lemma {:induction false} AccelArmed(s: System, r0: Buffer, env: Env) returns (s2: System)
    requires ReadyWithClient(s) && env.transport.Accept?
    requires |r0| == |s.driver.buffer.value|
    ensures Run(s, [RequestAccel(Accept), Complete(Ok(()), r0, env)]) == (s2, [])
    ensures Inv(s2) && s2.driver.state == ReadAccelWait && s2.driver.irqOn && s2.driver.hasClient
    ensures |s2.pending.value.data| == |r0|
  {
    var s1 := Step(s, RequestAccel(Accept)).next;
    s2 := Step(s1, Complete(Ok(()), r0, env)).next;
    assert [RequestAccel(Accept), Complete(Ok(()), r0, env)] == [RequestAccel(Accept)] + [Complete(Ok(()), r0, env)];
    RunStep(s, RequestAccel(Accept), [Complete(Ok(()), r0, env)]);
    assert [Complete(Ok(()), r0, env)] == [Complete(Ok(()), r0, env)] + [];
    RunStep(s1, Complete(Ok(()), r0, env), []);
  }

  /** The race check, either way: the driver ends up reading the sample with
      its interrupt disabled. */
  lemma {:induction false} AccelRace(s2: System, pinLow: bool, r1: Buffer) returns (s4: System)
    requires Inv(s2) && s2.driver.state == ReadAccelWait && s2.driver.irqOn && s2.driver.hasClient
    requires |s2.pending.value.data| == |r1|
    ensures Run(s2, [Complete(Ok(()), r1, Env(Accept, !pinLow))] + (if pinLow then [] else [Interrupt(Accept)]))
            == (s4, [])
    ensures Inv(s4) && s4.driver.state == ReadAccelReading && !s4.driver.irqOn && s4.driver.hasClient
    ensures s4.pending == Some(SampleRead(r1))
  {
    var e := Complete(Ok(()), r1, Env(Accept, !pinLow));
    var s3 := Step(s2, e).next;
    if pinLow {
      s4 := s3;
      RunStep(s2, e, []);
    } else {
      assert s3.driver.state == ReadAccelWaiting && s3.driver.buffer == Some(r1) && s3.driver.irqOn;
      s4 := Step(s3, Interrupt(Accept)).next;
      RunStep(s2, e, [Interrupt(Accept)]);
      RunStep(s3, Interrupt(Accept), []);
    }
  }

  /** Reading and standby: the decoded sample is delivered once. */
  lemma {:induction false} AccelFinish(s4: System, r2: Buffer, r3: Buffer, env: Env)
    requires Inv(s4) && s4.driver.state == ReadAccelReading && s4.driver.hasClient
    requires env.transport.Accept?
    requires |r2| == |r3| == |s4.pending.value.data|
    ensures var (fin, upcalls) := Run(s4, [Complete(Ok(()), r2, env), Complete(Ok(()), r3, env)]);
            && upcalls == [DecodeAccel(r2)]
            && fin.driver.state == Disabled
            && fin.driver.buffer == Some(r3)
            && !fin.driver.busOn
            && !fin.driver.irqOn
  {
    var s5 := AccelDecoded(s4, r2, env);
    RunStep(s4, Complete(Ok(()), r2, env), [Complete(Ok(()), r3, env)]);
    RunStep(s5, Complete(Ok(()), r3, env), []);
  }

  /** The sample read completes: the decoded values are parked in the state
      while the accelerometer is put back in standby. */
  lemma AccelDecoded(s4: System, r2: Buffer, env: Env) returns (s5: System)
    requires Inv(s4) && s4.driver.state == ReadAccelReading
    requires env.transport.Accept?
    requires |r2| == |s4.pending.value.data|
    ensures Enabled(s4, Complete(Ok(()), r2, env))
    ensures s5 == Step(s4, Complete(Ok(()), r2, env)).next
    ensures Step(s4, Complete(Ok(()), r2, env)).upcall.None?
    ensures Inv(s5) && s5.driver.hasClient == s4.driver.hasClient && !s5.driver.irqOn
    ensures s5.driver.state == ReadAccelDeactivating(DecodeAccel(r2).x, DecodeAccel(r2).y, DecodeAccel(r2).z)
    ensures |s5.pending.value.data| == |r2|
  {
    s5 := Step(s4, Complete(Ok(()), r2, env)).next;
  }

  /** Running two event sequences one after the other is running their
      concatenation. */
  lemma {:induction false} RunAppend(s: System, a: seq<Event>, b: seq<Event>)
    requires Inv(s)
    ensures Run(s, a + b) == (Run(Run(s, a).0, b).0, Run(s, a).1 + Run(Run(s, a).0, b).1)
    decreases |a|
  {
    if |a| == 0 {
      assert a + b == b;
      assert Run(s, a) == (s, []);
      assert [] + Run(s, b).1 == Run(s, b).1;
    } else {
      var t := Advance(s, a[0]);
      assert (a + b)[0] == a[0];
      assert (a + b)[1..] == a[1..] + b;
      RunAppend(t.next, a[1..], b);
      var up := if t.upcall.Some? then [t.upcall.value] else [];
      var mid := Run(t.next, a[1..]);
      assert Run(s, a) == (mid.0, up + mid.1);
      assert (up + mid.1) + Run(mid.0, b).1 == up + (mid.1 + Run(mid.0, b).1);
    }
  }

  /** The magnetometer sequence delivers the decoded sample exactly once and
      ends in standby holding the buffer, with no interrupt involved. */
  lemma {:induction false} MagSequence(s: System, r1: Buffer, r2: Buffer)
    requires ReadyWithClient(s)
    requires |r1| == |r2| == |s.driver.buffer.value|
    ensures var ok := Env(Accept, true);
            var (fin, upcalls) := Run(s, [RequestMag(Accept), Complete(Ok(()), r1, ok), Complete(Ok(()), r2, ok)]);
            && upcalls == [DecodeMag(r2)]
            && fin.driver.state == Disabled
            && fin.driver.buffer == Some(r2)
            && !fin.driver.busOn
            && fin.driver.irqOn == s.driver.irqOn
  {
    var ok := Env(Accept, true);
    var s1 := Step(s, RequestMag(Accept)).next;
    var s2 := Step(s1, Complete(Ok(()), r1, ok)).next;
    assert s2.driver.state == ReadMagValues;
    RunStep(s, RequestMag(Accept), [Complete(Ok(()), r1, ok), Complete(Ok(()), r2, ok)]);
    RunStep(s1, Complete(Ok(()), r1, ok), [Complete(Ok(()), r2, ok)]);
    RunStep(s2, Complete(Ok(()), r2, ok), []);
  }

  /** Unfolds `Run` by one enabled event. */
  lemma RunStep(s: System, e: Event, rest: seq<Event>)
    requires Inv(s) && Enabled(s, e)
    ensures Run(s, [e] + rest) ==
      (Run(Step(s, e).next, rest).0,
       (if Step(s, e).upcall.Some? then [Step(s, e).upcall.value] else []) + Run(Step(s, e).next, rest).1)
  {
    assert ([e] + rest)[0] == e;
    assert ([e] + rest)[1..] == rest;
  }

  // ---------------------------------------------------------------------------
  // Consequences of following the code
  // ---------------------------------------------------------------------------

  /** A rejected sample read in `fired` while waiting for the edge leaves the
      driver in `ReadAccelWaiting` with its interrupt disabled and nothing in
      flight: no event can move it again, and every later request is
      answered `BUSY`. */
  lemma {:induction false} RejectedInterruptWedges(s: System, err: BusError, es: seq<Event>)
    requires Inv(s) && s.driver.state == ReadAccelWaiting && s.driver.irqOn
    ensures var s1 := Step(s, Interrupt(Reject(err))).next;
            && s1.driver.state == ReadAccelWaiting
            && !s1.driver.irqOn
            && s1.pending.None?
            && Run(s1, es).0.driver.state == ReadAccelWaiting
            && Run(s1, es).1 == []
  {
    var s1 := Step(s, Interrupt(Reject(err))).next;
    StaysWedged(s1, es);
  }

  /** A wedged driver stays wedged: requests are refused as busy, the pin
      cannot interrupt, and there is no transfer to complete. */
  lemma {:induction false} StaysWedged(s: System, es: seq<Event>)
    requires Inv(s) && s.driver.state == ReadAccelWaiting && !s.driver.irqOn
    ensures Run(s, es).0.driver.state == ReadAccelWaiting
    ensures !Run(s, es).0.driver.irqOn
    ensures Run(s, es).1 == []
    decreases |es|
  {
    if |es| > 0 {
      var t := Advance(s, es[0]);
      assert t.next.driver.state == ReadAccelWaiting && !t.next.driver.irqOn;
      assert t.upcall.None?;
      StaysWedged(t.next, es[1..]);
    }
  }

  /** The failure path does not disable the pin's interrupt.  A failure
      reported while the accelerometer is being activated leaves the driver in
      standby with the interrupt armed, and a later edge starts a sample read
      although nothing requested one. */
  lemma {:induction false} FailureLeavesInterruptArmed(s: System, err: BusError, returned: Buffer, env: Env)
    requires Inv(s) && s.driver.state == ReadAccelWait && s.driver.irqOn
    requires |returned| == |s.pending.value.data|
    ensures var s1 := Step(s, Complete(Err(err), returned, env)).next;
            && s1.driver.state == Disabled
            && s1.driver.irqOn
            && Enabled(s1, Interrupt(Accept))
            && Step(s1, Interrupt(Accept)).next.driver.state == ReadAccelReading
            && Step(s1, Interrupt(Accept)).next.pending.Some?
  {
    assert WellSized(returned);
  }

  /** The events of one accelerometer request whose activation write fails,
      followed by the edge of the still-armed interrupt and the transfers it
      starts. */
  function FailedRequestEvents(err: BusError, r0: Buffer, r1: Buffer, r2: Buffer, r3: Buffer): seq<Event>
  {
    var ok := Env(Accept, true);
    [RequestAccel(Accept), Complete(Ok(()), r0, ok), Complete(Err(err), r1, ok),
     Interrupt(Accept), Complete(Ok(()), r2, ok), Complete(Ok(()), r3, ok)]
  }

  /** One request, two callbacks: after the failure's all-zero callback, the
      interrupt left armed starts a sample read nobody requested, and its
      values reach the client as a second callback. */
  lemma {:induction false} FailureThenSecondCallback(s: System, err: BusError, r0: Buffer, r1: Buffer, r2: Buffer, r3: Buffer)
    requires ReadyWithClient(s)
    requires |r0| == |r1| == |r2| == |r3| == |s.driver.buffer.value|
    ensures var (fin, upcalls) := Run(s, FailedRequestEvents(err, r0, r1, r2, r3));
            && upcalls == [ZeroAxes, DecodeAccel(r2)]
            && fin.driver.state == Disabled
            && fin.driver.buffer == Some(r3)
  {
    var ok := Env(Accept, true);
    var arm := [RequestAccel(Accept), Complete(Ok(()), r0, ok)];
    var rest := [Complete(Err(err), r1, ok), Interrupt(Accept), Complete(Ok(()), r2, ok), Complete(Ok(()), r3, ok)];
    assert FailedRequestEvents(err, r0, r1, r2, r3) == arm + rest;
    var s2 := AccelArmed(s, r0, ok);
    FailedThenRead(s2, err, r1, r2, r3, ok);
    RunAppend(s, arm, rest);
    assert [] + [ZeroAxes, DecodeAccel(r2)] == [ZeroAxes, DecodeAccel(r2)];
  }

  /** From activation: the failure's zero callback, then the unrequested
      read's values. */
  lemma {:induction false} FailedThenRead(s2: System, err: BusError, r1: Buffer, r2: Buffer, r3: Buffer, env: Env)
    requires Inv(s2) && s2.driver.state == ReadAccelWait && s2.driver.irqOn && s2.driver.hasClient
    requires env.transport.Accept?
    requires |r1| == |r2| == |r3| == |s2.pending.value.data|
    ensures var (fin, upcalls) :=
              Run(s2, [Complete(Err(err), r1, env), Interrupt(Accept), Complete(Ok(()), r2, env), Complete(Ok(()), r3, env)]);
            && upcalls == [ZeroAxes, DecodeAccel(r2)]
            && fin.driver.state == Disabled
            && fin.driver.buffer == Some(r3)
  {
    var fail := [Complete(Err(err), r1, env), Interrupt(Accept)];
    var finish := [Complete(Ok(()), r2, env), Complete(Ok(()), r3, env)];
    assert [Complete(Err(err), r1, env), Interrupt(Accept), Complete(Ok(()), r2, env), Complete(Ok(()), r3, env)]
        == fail + finish;
    var s4 := FailThenEdge(s2, err, r1, env);
    AccelFinish(s4, r2, r3, env);
    RunAppend(s2, fail, finish);
    assert [ZeroAxes] + [DecodeAccel(r2)] == [ZeroAxes, DecodeAccel(r2)];
  }

  /** A failure while the accelerometer is being activated makes the zero
      callback; the edge that follows starts a sample read. */
  lemma {:induction false} FailThenEdge(s2: System, err: BusError, r1: Buffer, env: Env) returns (s4: System)
    requires Inv(s2) && s2.driver.state == ReadAccelWait && s2.driver.irqOn && s2.driver.hasClient
    requires |s2.pending.value.data| == |r1|
    ensures Run(s2, [Complete(Err(err), r1, env), Interrupt(Accept)]) == (s4, [ZeroAxes])
    ensures Inv(s4) && s4.driver.state == ReadAccelReading && s4.driver.hasClient
    ensures |s4.pending.value.data| == |r1|
  {
    var e := Complete(Err(err), r1, env);
    var s3 := Step(s2, e).next;
    assert Step(s2, e).upcall == Some(ZeroAxes);
    assert s3.driver.state == Disabled && s3.driver.buffer == Some(r1) && s3.driver.irqOn;
    s4 := Step(s3, Interrupt(Accept)).next;
    assert [e, Interrupt(Accept)] == [e] + [Interrupt(Accept)];
    RunStep(s2, e, [Interrupt(Accept)]);
    assert [Interrupt(Accept)] == [Interrupt(Accept)] + [];
    RunStep(s3, Interrupt(Accept), []);
    assert Run(s3, [Interrupt(Accept)]) == (s4, []);
    assert [ZeroAxes] + [] == [ZeroAxes];
  }
}
