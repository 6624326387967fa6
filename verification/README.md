# TWI_ATmega4809 master driver — a Dafny model

This project models the interrupt-driven I2C (TWI) master driver for the
ATmega4809. The driver object holds a 32-byte buffer, two 8-bit counters, a
target address, a sendStop flag and a shared result code. The foreground API
has two halves. For a write, `beginTransmission` resets the counters and
sets the address, the `write` overloads stage bytes into the buffer, and
`endTransmission` starts the transfer. For a read, `requestFrom` arms the
buffer and starts the transfer. `endTransmission` and `requestFrom` are the
only calls that write the address register, and each then busy-waits until
the interrupt handler `masterISRHandler` publishes a terminal result.
The handler runs once per peripheral interrupt. It pushes the next staged
byte, stores a received byte, or ends the bus phase with a stop or a
repeated start.

The model is purely functional:

- `TwiTypes` (types.dfy): the driver state `Driver`, result codes with their
  numbering 0–6, the bus commands the driver issues (`Action`), a status
  snapshot (`Status`), and the framing of the on-wire address byte.
- `Clock` (clock.dfy): the baud-divisor computation of `setFrequency`,
  including uint32 wrap-around and truncation to the 8-bit register. `F_CPU`
  is a parameter.
- `Staging` (staging.dfy): the five `write` overloads, all specified against
  one reference definition `StageAll`. The class declaration in
  TWI_ATmega4809.h lists only `write(const uint8_t)`; the model takes the
  five definitions in TWI_ATmega4809.cpp as the overloads the driver offers.
- `Handler` (handler.dfy): `masterISRHandler` as a step function. One status
  snapshot goes in; the next state and the one command issued come out.
- `Controller` (controller.dfy): `begin`, `setFrequency`, `end`, `beginTransmission`,
  `endTransmission`, `requestFrom`, `available` and `read`. The busy-wait is
  `Wait`, which folds the handler over a finite list of status snapshots.
  It returns `None` if the list runs out while the result is still Unknown,
  which is where the real program would spin forever.
- `Scenarios` (scenarios.dfy): whole transactions proved end to end. These
  cover an acknowledged write, a NACK part-way through, a complete read, an
  empty read and a read cut short by arbitration loss.

Behaviour a reader may not expect, which the code settles and the model
follows:

- An unrecognised bus frequency selects the 100 kHz rise time only. The
  divisor is still computed from the frequency the caller asked for
  (`Clock.FallbackKeepsCallerFrequency`).
- Arbitration lost and bus error raised together match no case of the
  handler's switch, so the result is Fail. Neither fault takes precedence
  (`Handler.SimultaneousFaultsFail`).
- After a complete read, `read()` returns the received bytes in arrival
  order (`Scenarios.ReadRoundTrip`). After a read cut short it returns a
  window that ends in a buffer cell the transfer never wrote
  (`Scenarios.PartialReadReturnsStale`).

## Model

| member | source | states |
|---|---|---|
| TwiTypes.Decode | TWI_ATmega4809.h:14-22 | exactly the bytes 0..6 are result codes the driver publishes |
| TwiTypes.CodeRoundTrip | TWI_ATmega4809.h:14-22 | storing a code and reading it back gives the same code, and every readable byte is the number of the code it reads as |
| TwiTypes.CodesDistinct | TWI_ATmega4809.h:14-22 | no two result codes share a number |
| TwiTypes.PowerOn | TWI_ATmega4809.cpp:327 | the statically allocated driver starts not begun, result Unknown, nothing staged, satisfying the buffer invariant |
| TwiTypes.WriteAddress | TWI_ATmega4809.cpp:77 | a write's address byte has R/W clear and carries the 7-bit address; the top bit of the argument is lost |
| TwiTypes.ReadAddress | TWI_ATmega4809.cpp:196 | a read's address byte has R/W set and carries the 7-bit address; the top bit of the argument is lost |
| TwiTypes.EndWrite | TWI_ATmega4809.cpp:274-277 | a write phase ends the bus phase, and releases the bus with a stop exactly when sendStop is non-zero |
| TwiTypes.EndRead | TWI_ATmega4809.cpp:300-303 | a read phase ends the bus phase (after a NACK), and releases the bus exactly when sendStop is non-zero |
| Clock.RiseCyclesFit | TWI_ATmega4809.cpp:65 | the rise-time product F_CPU/1000000 * t_rise fits in 32 bits, so only the final subtraction can wrap |
| Clock.BaudInvertsPeriod | TWI_ATmega4809.cpp:65-66 | when the divisor lies in the register's range, 2*BAUD + 10 + rise cycles is within one cycle of F_CPU/frequency |
| Clock.BaudWrapsWhenNegative | TWI_ATmega4809.cpp:65-66 | when the requested frequency is too fast, the register receives the low byte of half of 2^32 plus the negative difference; with F_CPU at most 20 MHz that is 0xF1 or more, the slowest divisors, rather than zero |
| Clock.FallbackKeepsCallerFrequency | TWI_ATmega4809.cpp:52-66 | an unlisted frequency uses the 100 kHz rise time but its own period; at 16 MHz, 100/200/400 kHz and 1 MHz give 67/27/13/2 |
| Clock.FastRequestWraps | TWI_ATmega4809.cpp:65-66 | at 16 MHz a 2 MHz request yields the raw value -18 and the register value 0xF7 |
| Staging.StageAll | TWI_ATmega4809.cpp:132-140 | staging reports Ok exactly when all the bytes fit the room left; as many leading bytes as fit are appended after the staged ones, cells after them keep their contents, and nothing outside the buffer and its write count changes |
| Staging.WriteByte | TWI_ATmega4809.cpp:88-94 | writing one byte is staging a one-byte sequence, and a full buffer gives BufferOverflow with no change |
| Staging.StageSnoc | TWI_ATmega4809.cpp:134-138 | staging a sequence byte by byte, stopping at the first failure, is the same as staging it at once |
| Staging.StageOverflowSticks | TWI_ATmega4809.cpp:136-137 | once staging overflows, staging more bytes changes nothing further |
| Staging.LittleEndianRoundTrip | TWI_ATmega4809.cpp:117-120 | the low-byte-first split of a value below 256^n reassembles to the value |
| Staging.WriteWordStagesLittleEndian | TWI_ATmega4809.cpp:102-107 | the 16-bit write stages the word low byte first and the two bytes decode back to the word; when only one cell is free the low byte stays staged and BufferOverflow is reported |
| Staging.WriteDwordStagesLittleEndian | TWI_ATmega4809.cpp:115-122 | the 32-bit write stages the four bytes least significant first and they decode back to the word; on overflow the bytes that fit stay staged |
| Staging.WriteArray | TWI_ATmega4809.cpp:132-140 | the byte-array write, looping over the bytes and stopping at the first overflow, agrees with staging the array at once |
| Staging.WriteBlock | TWI_ATmega4809.cpp:150-153 | the untyped-block write stages the block's bytes exactly as the byte-array write does |
| Handler.Step | TWI_ATmega4809.cpp:255-324 | one interrupt either continues the transaction and leaves the result alone, or publishes a terminal result; it keeps the buffer invariant and the transaction fields; stops obey sendStop; outgoing bytes leave in staging order; the buffer changes only at the read cursor |
| Handler.WriteComplete | TWI_ATmega4809.cpp:261-280 | on write complete: a NACK gives NackReceived and ends the phase; else the next staged byte is pushed; with none left the phase ends with Ok |
| Handler.ReadComplete | TWI_ATmega4809.cpp:283-306 | on read complete: with room, the byte is stored at the cursor and the next one is requested, or the last one is NACKed with Ok; without room, BufferOverflow and the counter cleared |
| Handler.BusFaults | TWI_ATmega4809.cpp:308-318 | arbitration lost or bus error alone publishes its own result and writes the status back, changing nothing else |
| Handler.UnexpectedCauses | TWI_ATmega4809.cpp:320-322 | no cause, or more than one at once, gives Fail with no command and no other change |
| Handler.SimultaneousFaultsFail | TWI_ATmega4809.cpp:320-322 | arbitration lost together with bus error gives Fail |
| Controller.Begin | TWI_ATmega4809.cpp:28-42 | begin fails with no change once begun; otherwise it marks the driver begun, programs the baud divisor, clears the result, and changes nothing else |
| Controller.End | TWI_ATmega4809.cpp:238-250 | end fails with no change when not begun; otherwise it clears the begun flag and the result, and changes nothing else |
| Controller.SetFrequency | TWI_ATmega4809.cpp:49-66 | setFrequency reprograms the baud divisor whether or not the driver has begun, and changes nothing else |
| Controller.SetFrequencyOverridesBegin | TWI_ATmega4809.cpp:30-34 | after begin, a direct setFrequency takes effect and a repeated begin fails without restoring the earlier divisor |
| Controller.BeginTwiceKeepsFrequency | TWI_ATmega4809.cpp:30-34 | a second begin, with no direct setFrequency in between, fails and keeps the divisor the first begin programmed |
| Controller.BeginEndAlternate | TWI_ATmega4809.cpp:238-243 | begin then end succeed and return to the original state with the new divisor; a further end fails |
| Controller.BeginTransmission | TWI_ATmega4809.cpp:74-80 | a fresh write transaction: nothing staged or sent, result Unknown, write address byte; other fields unchanged |
| Controller.Wait | TWI_ATmega4809.cpp:165 | the busy-wait returns only with a terminal result, having issued only continuing commands followed by one ending command; it keeps the handler-invariant fields; every stop obeys sendStop; with no interrupts left it does not return |
| Controller.EndTransmission | TWI_ATmega4809.cpp:161-167 | the address register is written first, the call returns the terminal result it observed with sendStop recorded, and a stale terminal result is returned at once |
| Controller.EndTransmissionDefault | TWI_ATmega4809.cpp:173-176 | the no-argument form always releases the bus with a stop |
| Controller.ArmRead | TWI_ATmega4809.cpp:192-196 | a read is armed with the target amount, zero progress, the sendStop flag and a read address byte; buffer and begin state kept |
| Controller.RequestFrom | TWI_ATmega4809.cpp:187-200 | an amount over 32 is refused at once with BufferOverflow and no change; otherwise the call reports Ok whatever terminal result the handler published |
| Controller.RequestFromDefault | TWI_ATmega4809.cpp:209-212 | the two-argument form always releases the bus with a stop |
| Controller.Available | TWI_ATmega4809.cpp:218-221 | available() is the number of bytes read() will still return |
| Controller.Read | TWI_ATmega4809.cpp:227-232 | read() returns 0 with no change when nothing is available; otherwise it returns the first unread byte and consumes exactly it |
| Controller.Drain | TWI_ATmega4809.cpp:227-232 | reading until nothing is available returns exactly the unread window, in order |
| Scenarios.WaitSends | TWI_ATmega4809.cpp:270-271 | m acknowledged write interrupts push the next m staged bytes, in order, and advance the cursor by m |
| Scenarios.WaitReceives | TWI_ATmega4809.cpp:284-297 | read interrupts before the last one store their bytes at consecutive cursor positions and each requests the next byte |
| Scenarios.WriteAllAcked | TWI_ATmega4809.cpp:161-167 | a write every byte of which is acknowledged puts address, staged bytes and the ending command on the bus, and gives Ok |
| Scenarios.WriteNacked | TWI_ATmega4809.cpp:262-269 | a NACK after j data bytes ends the write at once with NackReceived, having sent only the first j staged bytes |
| Scenarios.WriteLeavesSentBytesReadable | TWI_ATmega4809.cpp:218-232 | after a completed write, available() equals the bytes sent and read() returns them in order |
| Scenarios.ReadRoundTrip | TWI_ATmega4809.cpp:187-200 | a complete read of n bytes gives Ok, n receive commands ending in a NACK, and read() returns exactly the received bytes in order |
| Scenarios.EmptyRequestOverflows | TWI_ATmega4809.cpp:286-294 | a request for zero bytes reports Ok while the stored result is BufferOverflow and nothing is available |
| Scenarios.PartialReadReturnsStale | TWI_ATmega4809.cpp:231 | after arbitration is lost with k of n bytes received, available() is k but read() yields the window ending at index n-1, whose last byte is the old, never-received buffer cell |
| Scenarios.TwoByteWriteExample | TWI_ATmega4809.cpp:161-167 | begin(100 kHz), beginTransmission(0x50) and two writes put 0xA0, 0xAA, 0x55 and a stop on the bus and give Ok |

## Left out

- The busy-wait's concurrency is not modelled: the interrupts it waits for are an explicit finite list of status snapshots, and a wait that never ends is `None`.
- The writes to PORTMUX, MCTRLA and MSTATUS in begin and end (TWI_ATmega4809.cpp:36-40, 245-248) are peripheral configuration with no effect on the driver's state.
- The address-register write that starts a transaction is represented only by the `Address` command at the head of the bus trace.
- Interrupt-vector binding and the global singleton (TWI_ATmega4809.cpp:326-332) are platform glue; only the all-zero initial state is modelled (`PowerOn`).
- The constructor and destructor (TWI_ATmega4809.cpp:9-20) only store and clear the address of the peripheral's registers.
- The sub-handlers declared in the header (TWI_ATmega4809.h:57-60) have no definition in the source.
- Result codes 7–10 (TWI_ATmega4809.h:23-26) are declared but never produced by the driver.
- Concrete register bit masks are abstracted into the boolean cause flags of `Status` and the named commands of `Action`.
- Controller.Begin: requires a non-zero frequency when it reaches setFrequency, because dividing by zero there is undefined behaviour in the source.
- Controller.SetFrequency: requires a non-zero frequency, for the same reason.
- Controller.EndTransmission: when the result is already terminal (no beginTransmission since the last transfer) the call returns that result at once with the state it found. In the source the address register is still written, so a new transfer starts and its interrupts go on changing the counters, the buffer and the result after the call has returned; the model does not show that transfer.
- Controller.Begin: the `began` field is a uint8 in the source and is modelled as a boolean, because the driver only ever stores 0 or 1 in it.
- Staging.WriteArray: requires fewer than 256 bytes, because the source's length parameter is 8 bits wide.
- Staging.WriteBlock: requires fewer than 256 bytes, because the source's length parameter is 8 bits wide.
