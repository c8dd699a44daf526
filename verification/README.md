# FXOS8700CQ accelerometer/magnetometer driver — a Dafny model

This project models the Tock kernel capsule for the NXP FXOS8700CQ, a
six-axis sensor (accelerometer and magnetometer) driven over I2C with one
data-ready interrupt pin (`capsules/extra/src/fxos8700cq.rs`). The driver
owns one transfer buffer. It hands the buffer to the I2C transport for each
transfer and gets it back in `command_complete`. It runs a small state
machine that takes one request to a single client callback carrying three
axis values.

The model has four modules:

- `Wrappers` holds `Option` and `Result`.
- `Decode` is the sample arithmetic.
  - An accelerometer axis is a big-endian 14-bit left-justified value. It is
    shifted right arithmetically by two, scaled by 244 and divided by 1000,
    truncating toward zero. The result is in milli-g.
  - A magnetometer axis is the big-endian 16-bit value reinterpreted as
    signed.
  - The model builds both from the bit-level operations the driver performs
    (`bv16` shift-or, arithmetic shift right). It proves them equal to plain
    integer definitions: `BeValue`, floor division by 4, and `TruncDiv`.
- `Fxos8700cq` is the driver itself.
  - Each entry point (`start_read_accel`, `start_read_magnetometer`,
    `fired`, `command_complete`, `set_client`) is a pure function.
  - Each takes the driver record and what the environment answers: whether
    the transport accepts the submitted transfer, the completion status, and
    the level the pin reads.
  - Each returns the new driver record, the transfer handed to the bus (or
    refused by it), and the client callback made, if any.
- `Ownership` pairs the driver with the frame the transport holds.
  - It states the system invariant `Inv`: exactly one owner of the buffer,
    a transfer outstanding exactly in the states that expect a completion,
    and the transfer each such state is waiting for.
  - It proves that every event keeps `Inv`.
  - It derives the end-to-end sequences and two consequences of the code as
    written.

Behaviour the model reproduces as the code is written:

- `fired` has no state guard. Whenever the driver holds its buffer, an edge
  starts a sample read.
- The failure path of `command_complete` does not disable the bus or the
  pin's interrupt. After a failure while the accelerometer is being
  activated, the interrupt stays armed in standby, and a later edge starts
  an unrequested read (`Ownership.FailureLeavesInterruptArmed`). So one
  accelerometer request can produce two callbacks: the all-zero callback of
  the failure, then the values of the unrequested read
  (`Ownership.FailureThenSecondCallback`).
- A sample read refused by the transport in `fired` returns the buffer with
  no callback and leaves the state unchanged. Reached from
  `ReadAccelWaiting`, this leaves the driver in that state for good, with
  its interrupt off: every later request is answered `BUSY` and no callback
  follows (`Ownership.RejectedInterruptWedges`, `Ownership.StaysWedged`).
- The catch-all arm of `command_complete` (`Disabled`, `ReadAccelWaiting`)
  would drop the returned buffer. The invariant shows it is never reached
  (`Ownership.CompletionNeverDropsBuffer`).

Details the model takes from the code, where a quick reading might expect
otherwise:

- The data-ready line is active low. The race check in `ReadAccelWait`
  reads the sample at once when the pin reads low (`false`).
- Raw accelerometer words `0x1000, 0x2000, 0x3000` decode to
  `(249, 499, 749)`: 1024·244/1000, 2048·244/1000 and 3072·244/1000, each
  truncated toward zero (`Decode.AccelExample`).
- `start_read_accel` configures the pin as an input before it checks for
  the buffer, so a `NOMEM` answer still sets the pin up.
- A failed completion resets the state but leaves the I2C device enabled
  and the interrupt configuration as it was.

## Model

All source cells refer to `capsules/extra/src/fxos8700cq.rs`.

| member | source | states |
|---|---|---|
| Decode.AccelAxis | capsules/extra/src/fxos8700cq.rs:340-346 | one accelerometer axis built from the bit-level shift-or and arithmetic shift: it equals the integer value of the big-endian word, floor-divided by 4, times 244, divided by 1000 truncating toward zero; the result lies within ±1998 milli-g |
| Decode.MagAxis | capsules/extra/src/fxos8700cq.rs:389-391 | one magnetometer axis: the unsigned big-endian word reinterpreted as signed 16-bit equals the integer value `signed(hi)·256 + lo` |
| Decode.DecodeAccel | capsules/extra/src/fxos8700cq.rs:340-346 | each of x, y and z is the big-endian signed value of its byte pair (0-1, 2-3, 4-5), floor-divided by 4, times 244, divided by 1000 truncating toward zero |
| Decode.DecodeMag | capsules/extra/src/fxos8700cq.rs:389-391 | each of x, y and z is the big-endian signed value of its byte pair (0-1, 2-3, 4-5) |
| Decode.TruncDiv | capsules/extra/src/fxos8700cq.rs:344-346 | integer division rounding toward zero: the quotient times the divisor lies within one divisor of the dividend, on the dividend's side of zero |
| Decode.BitsValue | capsules/extra/src/fxos8700cq.rs:340-342 | the i16 shift-or of two bytes, read as signed, is the big-endian integer value |
| Decode.AsrIsFloorDiv4 | capsules/extra/src/fxos8700cq.rs:340-342 | the arithmetic shift right by two of a 16-bit word, read as signed, is floor division by 4 of its signed value |
| Decode.EncodeBe | capsules/extra/src/fxos8700cq.rs:389-391 | the partner of `MagAxis`: two bytes whose big-endian signed value is the given i16 |
| Decode.BeValueInjective | capsules/extra/src/fxos8700cq.rs:389-391 | two byte pairs with equal big-endian signed value are equal |
| Decode.MagRoundTrip | capsules/extra/src/fxos8700cq.rs:389-391 | decoding the encoding of any i16 gives it back |
| Decode.MagBytesRoundTrip | capsules/extra/src/fxos8700cq.rs:389-391 | encoding a decoded magnetometer axis gives back the original two bytes, so the decoding loses nothing |
| Decode.TruncDivMonotone | capsules/extra/src/fxos8700cq.rs:344-346 | truncating division by a positive divisor is monotone |
| Decode.AccelMonotone | capsules/extra/src/fxos8700cq.rs:340-346 | a larger raw accelerometer word never decodes to a smaller milli-g value |
| Decode.AccelZeroBand | capsules/extra/src/fxos8700cq.rs:340-346 | an axis decodes to 0 exactly when its raw word is between -16 and 19 |
| Decode.AccelExample | capsules/extra/src/fxos8700cq.rs:340-346 | raw words 0x1000, 0x2000, 0x3000 decode to (249, 499, 749) |
| Decode.AccelAllOnes | capsules/extra/src/fxos8700cq.rs:340-346 | six 0xFF bytes (raw -1, shifted to -1) decode to (0, 0, 0) because the division truncates toward zero |
| Decode.MagExample | capsules/extra/src/fxos8700cq.rs:389-391 | bytes FF FF 00 01 80 00 decode to (-1, 1, -32768) |
| Fxos8700cq.New | capsules/extra/src/fxos8700cq.rs:193-205 | a fresh driver is in standby, holds its buffer and has no client |
| Fxos8700cq.SetClient | capsules/extra/src/fxos8700cq.rs:408-410 | registering the client changes nothing but the client slot |
| Fxos8700cq.StartReadAccel | capsules/extra/src/fxos8700cq.rs:207-229 | BUSY exactly outside standby, with nothing changed; every path out of standby makes the pin an input, before the buffer is checked; NOMEM without a buffer; a refused write returns the buffer, disables the bus and passes the transport error on; an accepted write moves to ReadAccelSetup; the frame carries CTRL_REG4, 1, 1; no callback; the buffer is conserved |
| Fxos8700cq.StartReadMagnetometer | capsules/extra/src/fxos8700cq.rs:231-252 | the same shape as the accelerometer request, without touching the pin; the frame carries M_CTRL_REG1, 0x23; success moves to ReadMagStart |
| Fxos8700cq.SampleRead | capsules/extra/src/fxos8700cq.rs:262-268 | the sample read writes OUT_X_MSB and reads six bytes, in the same buffer |
| Fxos8700cq.Fired | capsules/extra/src/fxos8700cq.rs:256-275 | without a buffer nothing happens; with one, whatever the state, interrupts are disabled and the sample read is submitted; acceptance moves to ReadAccelReading; refusal returns the buffer, disables the bus and leaves the state as it was, with no callback |
| Fxos8700cq.CommandComplete | capsules/extra/src/fxos8700cq.rs:279-292 | any failed transfer, in any state, returns to standby holding the returned buffer, touches neither bus nor interrupt, and makes exactly one all-zero callback when a client is set; success dispatches on the state; the buffer is conserved outside the catch-all arm |
| Fxos8700cq.CompleteOk | capsules/extra/src/fxos8700cq.rs:293-403 | the last step of each sequence disables the bus, returns to standby with the buffer and delivers the values once; the catch-all arm changes nothing and drops the buffer; elsewhere the buffer is conserved |
| Fxos8700cq.CompleteAccelSetup | capsules/extra/src/fxos8700cq.rs:294-314 | arms the interrupt before writing CTRL_REG1 = 1; acceptance moves to ReadAccelWait; refusal resets with a zero callback and leaves the interrupt armed |
| Fxos8700cq.CompleteAccelWait | capsules/extra/src/fxos8700cq.rs:315-338 | pin low: disable interrupts and submit the sample read, moving to ReadAccelReading or resetting with a zero callback; pin high: keep the buffer, disable the bus, wait in ReadAccelWaiting with the interrupt as it was |
| Fxos8700cq.CompleteAccelReading | capsules/extra/src/fxos8700cq.rs:339-364 | writes CTRL_REG1 = 0; acceptance carries the decoded sample of the returned buffer into ReadAccelDeactivating; refusal resets with a zero callback |
| Fxos8700cq.CompleteMagStart | capsules/extra/src/fxos8700cq.rs:373-387 | submits the six-byte read from M_OUT_X_MSB; acceptance moves to ReadMagValues; refusal resets with a zero callback |
| Fxos8700cq.DeliverAndStop | capsules/extra/src/fxos8700cq.rs:365-372 | the final step disables the bus, returns to standby holding the returned buffer with nothing in flight, and delivers the values once if a client is set; nothing else changes |
| Ownership.Step | capsules/extra/src/fxos8700cq.rs:207-410 | every event the environment can deliver keeps the invariant; a request while busy changes nothing; a completion only arrives in a state that awaits one; a callback needs a client |
| Ownership.Run | capsules/extra/src/fxos8700cq.rs:207-410 | any sequence of events keeps the invariant and makes at most one callback per event |
| Ownership.Initial | capsules/extra/src/fxos8700cq.rs:193-205 | a fresh driver satisfies the invariant |
| Ownership.ReachableInv | capsules/extra/src/fxos8700cq.rs:184-205 | every system reachable from a fresh driver keeps the invariant, so the buffer is held exactly when no transfer is outstanding, and in standby it is held |
| Ownership.CompletionNeverDropsBuffer | capsules/extra/src/fxos8700cq.rs:402 | under the invariant a completion never reaches the catch-all arm, and the buffer survives every completion |
| Ownership.FailureRecovers | capsules/extra/src/fxos8700cq.rs:285-291 | after any failed transfer the driver is in standby holding the returned buffer, with nothing outstanding and one zero callback if a client is set; neither kind of request that follows is answered NOMEM or BUSY |
| Ownership.AccelSequence | capsules/extra/src/fxos8700cq.rs:207-372 | a successful accelerometer read, on either side of the race check and for any buffers the transport hands back, delivers the decoded sample exactly once and ends in standby, holding the last returned buffer, with the bus and the interrupt off |
| Ownership.AccelArmed | capsules/extra/src/fxos8700cq.rs:207-314 | request and interrupt setup leave the driver activating the accelerometer with the interrupt armed and no callback |
| Ownership.AccelRace | capsules/extra/src/fxos8700cq.rs:256-338 | either outcome of the race check ends with the sample read outstanding and the interrupt disabled |
| Ownership.AccelFinish | capsules/extra/src/fxos8700cq.rs:339-372 | the sample read and the standby write deliver the decoded sample once and end in standby with the bus and the interrupt off |
| Ownership.AccelDecoded | capsules/extra/src/fxos8700cq.rs:339-364 | completing the sample read parks the decoded values in ReadAccelDeactivating without a callback |
| Ownership.MagSequence | capsules/extra/src/fxos8700cq.rs:231-401 | a successful magnetometer read delivers the decoded sample exactly once and ends in standby, with the bus off and the interrupt as it was |
| Ownership.RunAppend | capsules/extra/src/fxos8700cq.rs:207-410 | running two event sequences one after the other is running their concatenation |
| Ownership.RejectedInterruptWedges | capsules/extra/src/fxos8700cq.rs:256-275 | a sample read refused in `fired` while waiting for the edge leaves the driver in ReadAccelWaiting with interrupts off and nothing outstanding; no later events move it or produce a callback |
| Ownership.StaysWedged | capsules/extra/src/fxos8700cq.rs:207-252 | in ReadAccelWaiting with interrupts off, every request is refused as busy, so the state never changes and no callback is made |
| Ownership.FailureThenSecondCallback | capsules/extra/src/fxos8700cq.rs:285-291 | one accelerometer request whose activation write fails makes two callbacks: all zeros, then the decoded values of the read started by the still-armed interrupt |
| Ownership.FailedThenRead | capsules/extra/src/fxos8700cq.rs:256-291 | from activation, a failure followed by an edge and two completions yields the zero callback and then the decoded sample, ending in standby with the last buffer |
| Ownership.FailThenEdge | capsules/extra/src/fxos8700cq.rs:256-291 | a failure during activation makes the zero callback, and the next edge leaves the sample read outstanding |
| Ownership.FailureLeavesInterruptArmed | capsules/extra/src/fxos8700cq.rs:285-291 | a failure while activating the accelerometer leaves standby with the interrupt armed, and a later edge starts a sample read |

## Left out

- The I2C device and the GPIO pin are outside this model. Their effects are
  recorded as flags on the driver: `busOn`, `irqOn` and `pinIsInput`. Their
  answers are parameters: acceptance or refusal of a transfer, the
  completion status, and the pin level.
- `error.into()`, the conversion of a transport error to a kernel error
  code, is kept opaque as `FromBus(cause)`.
- The callback's `usize` arguments are modelled as the signed i16 values
  before the cast. The cast's sign extension is the client's concern.
- The full `Registers` enumeration is left out. Only the five addresses the
  driver uses appear, as constants.
- Interrupt context and concurrency are left out. Events are delivered one
  at a time.
- Every buffer is assumed to hold at least six bytes (`WellSized`). The
  source indexes the buffer without a check and would panic on a shorter
  one.
- A transfer the transport refuses is modelled as returning the same buffer
  the driver handed over.
- An edge arrives only while the pin's interrupt is enabled, and a
  completion only while a transfer is outstanding and with a buffer of the
  length handed over. `Ownership.Run` skips events that cannot happen at
  that point.
- `read_accelerometer` and `read_magnetometer` (lines 412-418) only
  delegate. They are modelled as `ReadAccelerometer` and
  `ReadMagnetometer` with no contract of their own.
- Board setup and the component that instantiates the driver are not part
  of this model.
