/**
 This module holds what the TWI (I2C) master driver's header declares: the
 fixed-width integer types of its fields, the result codes, the staging buffer
 and the driver's state record, plus the abstract bus commands and interrupt
 snapshots that the handler works on.
 */
module TwiTypes {

  type byte = x: int | 0 <= x < 0x100
  type uint16 = x: int | 0 <= x < 0x1_0000
  type uint32 = x: int | 0 <= x < 0x1_0000_0000

  datatype Option<+T> = None | Some(value: T)

  function Min(a: int, b: int): int {
    if a <= b then a else b
  }

  /** Capacity of the staging buffer, in bytes. */
  const BufferSize := 32

  /** The staging buffer: exactly BufferSize byte cells. */
  type Buffer = s: seq<byte> | |s| == BufferSize witness seq(32, _ => 0)

  /** The driver's result codes. Unknown means "transaction in flight";
      every other code is terminal. Codes 7..10 of the enumeration are
      never produced by the driver and have no constructor here. */
  datatype ResultCode =
    | Unknown
    | Ok
    | Fail
    | BufferOverflow
    | NackReceived
    | ArbitrationLost
    | BusError
  {
    /** The uint8 value stored in the result field and returned to callers. */
    function Code(): (c: byte)
      ensures c == 0 <==> this == Unknown
      ensures c <= 6
    {
      match this
      case Unknown => 0
      case Ok => 1
      case Fail => 2
      case BufferOverflow => 3
      case NackReceived => 4
      case ArbitrationLost => 5
      case BusError => 6
    }

    predicate IsTerminal() {
      !Unknown?
    }
  }

  /** Reads a stored result byte back as a code, if it is one the driver produces. */
  function Decode(c: byte): (r: Option<ResultCode>)
    ensures r.Some? <==> c <= 6
  {
    if c == 0 then Some(Unknown)
    else if c == 1 then Some(Ok)
    else if c == 2 then Some(Fail)
    else if c == 3 then Some(BufferOverflow)
    else if c == 4 then Some(NackReceived)
    else if c == 5 then Some(ArbitrationLost)
    else if c == 6 then Some(BusError)
    else None
  }

  /** Storing a code and reading it back gives the same code, and every
      readable byte is the code of what it reads back as: the numbering
      is a bijection between the seven codes and 0..6. */
  lemma CodeRoundTrip(r: ResultCode, c: byte)
    ensures Decode(r.Code()) == Some(r)
    ensures Decode(c).Some? ==> Decode(c).value.Code() == c
  {
  }

  /** No two result codes share a number. */
  lemma CodesDistinct(r1: ResultCode, r2: ResultCode)
    ensures r1.Code() == r2.Code() ==> r1 == r2
  {
    CodeRoundTrip(r1, 0);
    CodeRoundTrip(r2, 0);
  }

  /** Commands the driver issues to the peripheral. */
  datatype Action =
    | Address(addr: byte)   // address register written: starts a transaction
    | DataOut(data: byte)   // data register written with an outgoing byte
    | Stop                  // ACK, then a stop condition
    | RepStart              // ACK, then a repeated start
    | NackStop              // NACK, then a stop condition
    | NackRepStart          // NACK, then a repeated start
    | RecvTrans             // ACK and clock in the next byte
    | ClearStatus           // status snapshot written back to clear its flags
    | NoCommand             // no register written
  {
    /** The transaction goes on: the handler will be invoked again. */
    predicate Continues() {
      DataOut? || RecvTrans?
    }

    /** A command that ends the bus phase. */
    predicate EndsBus() {
      Stop? || RepStart? || NackStop? || NackRepStart?
    }

    /** An ending command that releases the bus (stop rather than repeated start). */
    predicate Releases() {
      Stop? || NackStop?
    }
  }

  /** How a write phase ends, as chosen by the sendStop flag. */
  function EndWrite(sendStop: byte): (a: Action)
    ensures a.EndsBus() && !a.Continues()
    ensures a.Releases() <==> sendStop != 0
  {
    if sendStop != 0 then Stop else RepStart
  }

  /** How a read phase ends: the last byte is NACKed, then stop or repeated start. */
  function EndRead(sendStop: byte): (a: Action)
    ensures a.EndsBus() && !a.Continues()
    ensures a.Releases() <==> sendStop != 0
  {
    if sendStop != 0 then NackStop else NackRepStart
  }

  /** Interrupt causes the handler dispatches on (the masked status bits). */
  datatype Cause = WIF | RIF | ARBLOST | BUSERR

  /** An abstract snapshot of the status register at interrupt time: the
      four cause flags, the acknowledge flag (set when the slave did NOT
      acknowledge) and the byte the data register holds. */
  datatype Status = Status(wif: bool, rif: bool, arbLost: bool, busErr: bool, rxack: bool, data: byte)
  {
    /** The masked cause bits are exactly the bit of c. */
    predicate Only(c: Cause) {
      && wif == (c == WIF)
      && rif == (c == RIF)
      && arbLost == (c == ARBLOST)
      && busErr == (c == BUSERR)
    }

    /** How many of the four cause flags are raised. */
    function Raised(): nat {
      (if wif then 1 else 0) + (if rif then 1 else 0)
      + (if arbLost then 1 else 0) + (if busErr then 1 else 0)
    }
  }

  /** The driver's state. Every integer field is eight bits wide; baud is
      the last value written to the baud register. */
  datatype Driver = Driver(
    began: bool,
    baud: byte,
    result: ResultCode,
    address: byte,
    buffer: Buffer,
    bytesToProcess: byte,
    bytesProcessed: byte,
    sendStop: byte)

  /** Holds in every reachable state: progress never passes the target, and
      the target never passes the capacity, so every buffer index is in range. */
  predicate Inv(d: Driver) {
    d.bytesProcessed <= d.bytesToProcess <= BufferSize
  }

  /** The state of the statically allocated driver object: all zero. */
  function PowerOn(): (d: Driver)
    ensures Inv(d) && !d.began && d.result == Unknown
    ensures d.bytesToProcess == 0 && d.bytesProcessed == 0
  {
    Driver(false, 0, Unknown, 0, seq(BufferSize, _ => 0), 0, 0, 0)
  }

  /** The bytes queued for the next write transaction. */
  function Staged(d: Driver): seq<byte>
    requires d.bytesToProcess <= BufferSize
  {
    d.buffer[..d.bytesToProcess]
  }

  /** The 7-bit slave address carried in an on-wire address byte. */
  function SlaveOf(addressByte: byte): byte {
    addressByte / 2
  }

  /** The R/W bit of an on-wire address byte: set for a read. */
  predicate IsRead(addressByte: byte) {
    addressByte % 2 == 1
  }

  /** The address byte of a write: the address shifted left, R/W clear,
      truncated to eight bits. */
  function WriteAddress(a: byte): (b: byte)
    ensures !IsRead(b)
    ensures SlaveOf(b) == a % 128
  {
    (a * 2) % 0x100
  }

  /** The address byte of a read: the address shifted left, R/W set,
      truncated to eight bits. */
  function ReadAddress(a: byte): (b: byte)
    ensures IsRead(b)
    ensures SlaveOf(b) == a % 128
  {
    (a * 2 + 1) % 0x100
  }

  /** A foreground call's effect: the new state and the code it returns. */
  datatype Reply = Reply(next: Driver, code: ResultCode)

  /** read(): the new state and the byte returned. */
  datatype ByteReply = ByteReply(next: Driver, value: byte)

  /** One interrupt: the new state and the command issued. */
  datatype Transition = Transition(next: Driver, action: Action)

  /** A run of interrupts: the final state and the commands issued, in order. */
  datatype Run = Run(next: Driver, bus: seq<Action>)

  /** A blocking transaction call: the final state, the code returned and
      every command issued, starting with the address-register write. */
  datatype Completion = Completion(next: Driver, code: ResultCode, bus: seq<Action>)
}
