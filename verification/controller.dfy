/**
 The foreground API: begin/end, the transaction calls and read-back. The
 busy-wait on the shared result is modelled by feeding the interrupt handler
 a finite list of status snapshots: the wait returns at the first snapshot
 after which the result is terminal, and yields None when the list runs out
 while the result is still Unknown (the caller would spin forever).
 */
module Controller {
  import opened TwiTypes
  import Clock
  import Handler

  /** begin(frequency): fails without any change when already begun;
      otherwise marks the driver begun, programs the divisor and clears the
      result. Pin routing and enable-register writes are not modelled. */
  /** setFrequency(frequency): reprograms the baud divisor, whether or not
      the driver has begun; nothing else changes. */
  function SetFrequency(d: Driver, fcpu: uint32, frequency: uint32): (e: Driver)
    requires frequency > 0
    ensures e.baud == Clock.Baud(fcpu, frequency)
    ensures e.began == d.began
    ensures e == d.(baud := e.baud)
  {
    d.(baud := Clock.Baud(fcpu, frequency))
  }

  function Begin(d: Driver, fcpu: uint32, frequency: uint32): (r: Reply)
    requires !d.began ==> frequency > 0
    ensures r.next.began
    ensures r.code == Ok <==> !d.began
    ensures r.code == Fail <==> d.began
    ensures d.began ==> r.next == d
    ensures !d.began ==> r.next.result == Unknown && r.next.baud == Clock.Baud(fcpu, frequency)
    ensures r.next == d.(began := r.next.began, baud := r.next.baud, result := r.next.result)
  {
    if d.began then Reply(d, Fail)
    else Reply(SetFrequency(d, fcpu, frequency).(began := true, result := Unknown), Ok)
  }

  /** end(): fails without any change when not begun; otherwise clears the
      begun flag and the result. */
  function End(d: Driver): (r: Reply)
    ensures !r.next.began
    ensures r.code == Ok <==> d.began
    ensures r.code == Fail <==> !d.began
    ensures !d.began ==> r.next == d
    ensures d.began ==> r.next.result == Unknown
    ensures r.next == d.(began := r.next.began, result := r.next.result)
  {
    if !d.began then Reply(d, Fail)
    else Reply(d.(began := false, result := Unknown), Ok)
  }

  /** A second begin, with no direct setFrequency call in between, fails
      and leaves the divisor programmed by the first: setFrequency is not
      run again. */
  lemma BeginTwiceKeepsFrequency(d: Driver, fcpu: uint32, first: uint32, second: uint32)
    requires !d.began && first > 0
    ensures var once := Begin(d, fcpu, first);
            var twice := Begin(once.next, fcpu, second);
            && once.code == Ok
            && twice == Reply(once.next, Fail)
            && twice.next.baud == Clock.Baud(fcpu, first)
  {
  }

  /** A direct setFrequency after begin takes effect while the driver stays
      begun, and a later begin fails without restoring the earlier divisor:
      the divisor is the one last programmed, by either call. */
  lemma SetFrequencyOverridesBegin(d: Driver, fcpu: uint32, first: uint32, second: uint32)
    requires !d.began && first > 0 && second > 0
    ensures var e := SetFrequency(Begin(d, fcpu, first).next, fcpu, second);
            && e.began
            && e.baud == Clock.Baud(fcpu, second)
            && Begin(e, fcpu, first) == Reply(e, Fail)
  {
  }

  /** begin and end alternate: end undoes begin's flag, and a second end fails. */
  lemma BeginEndAlternate(d: Driver, fcpu: uint32, frequency: uint32)
    requires !d.began && frequency > 0
    ensures var on := Begin(d, fcpu, frequency);
            var off := End(on.next);
            && off.code == Ok
            && off.next == d.(baud := Clock.Baud(fcpu, frequency), result := Unknown)
            && End(off.next) == Reply(off.next, Fail)
  {
  }

  /** beginTransmission(address): a fresh write transaction with nothing
      staged and nothing sent, the result in flight, and the on-wire address
      byte carrying the 7-bit address (top bit of the argument lost) with
      the R/W bit clear. */
  function BeginTransmission(d: Driver, a: byte): (e: Driver)
    ensures Inv(e)
    ensures e.result == Unknown
    ensures Staged(e) == [] && e.bytesProcessed == 0
    ensures !IsRead(e.address) && SlaveOf(e.address) == a % 128
    ensures e == d.(result := e.result, address := e.address,
                    bytesToProcess := e.bytesToProcess, bytesProcessed := e.bytesProcessed)
  {
    d.(result := Unknown, address := WriteAddress(a), bytesToProcess := 0, bytesProcessed := 0)
  }

  /** The busy-wait: handler steps, one per snapshot, until the result is
      terminal. Every run that returns ends on the first command that does
      not continue the transaction, after only continuing ones. */
  function Wait(d: Driver, evs: seq<Status>): (r: Option<Run>)
    requires Inv(d)
    decreases |evs|
    ensures d.result.IsTerminal() ==> r == Some(Run(d, []))
    ensures r.Some? ==>
              && Inv(r.value.next)
              && r.value.next.result.IsTerminal()
              && Handler.HandlerKeeps(d, r.value.next)
              && |r.value.bus| <= |evs|
    ensures r.Some? ==>
              forall i :: 0 <= i < |r.value.bus| && r.value.bus[i].EndsBus() ==>
                (r.value.bus[i].Releases() <==> d.sendStop != 0)
    ensures r.Some? && d.result == Unknown ==>
              && |r.value.bus| > 0
              && !r.value.bus[|r.value.bus| - 1].Continues()
              && forall i :: 0 <= i < |r.value.bus| - 1 ==> r.value.bus[i].Continues()
    ensures d.result == Unknown && |evs| == 0 ==> r.None?
  {
    if d.result.IsTerminal() then Some(Run(d, []))
    else if |evs| == 0 then None
    else
      var t := Handler.Step(d, evs[0]);
      match Wait(t.next, evs[1..])
      case None => None
      case Some(run) => Some(Run(run.next, [t.action] + run.bus))
  }

  /** endTransmission(sendStop): records the flag, writes the address
      register, and waits. It returns the terminal result it observed. */
  function EndTransmission(d: Driver, sendStop: byte, evs: seq<Status>): (r: Option<Completion>)
    requires Inv(d)
    ensures r.Some? ==>
              && Inv(r.value.next)
              && r.value.code == r.value.next.result
              && r.value.code.IsTerminal()
              && r.value.next.sendStop == sendStop
              && |r.value.bus| > 0 && r.value.bus[0] == Address(d.address)
    ensures r.Some? ==>
              forall i :: 0 <= i < |r.value.bus| && r.value.bus[i].EndsBus() ==>
                (r.value.bus[i].Releases() <==> sendStop != 0)
    // Without a new beginTransmission the old terminal result is returned at once.
    ensures d.result.IsTerminal() ==>
              r == Some(Completion(d.(sendStop := sendStop), d.result, [Address(d.address)]))
  {
    var armed := d.(sendStop := sendStop);
    assert [Address(d.address)] + [] == [Address(d.address)];
    match Wait(armed, evs)
    case None => None
    case Some(run) => Some(Completion(run.next, run.next.result, [Address(d.address)] + run.bus))
  }

  /** endTransmission(): the same with sendStop = 1, so the bus is always
      released with a stop, never held with a repeated start. */
  function EndTransmissionDefault(d: Driver, evs: seq<Status>): (r: Option<Completion>)
    requires Inv(d)
    ensures r == EndTransmission(d, 1, evs)
    ensures r.Some? ==>
              forall i :: 0 <= i < |r.value.bus| && r.value.bus[i].EndsBus() ==> r.value.bus[i].Releases()
  {
    EndTransmission(d, 1, evs)
  }

  /** The state requestFrom sets up before writing the address register. */
  function ArmRead(d: Driver, a: byte, amount: byte, sendStop: byte): (e: Driver)
    requires amount <= BufferSize
    ensures Inv(e) && e.result == Unknown
    ensures e.bytesToProcess == amount && e.bytesProcessed == 0 && e.sendStop == sendStop
    ensures IsRead(e.address) && SlaveOf(e.address) == a % 128
    ensures e.buffer == d.buffer && e.began == d.began && e.baud == d.baud
  {
    d.(result := Unknown, bytesToProcess := amount, bytesProcessed := 0,
       sendStop := sendStop, address := ReadAddress(a))
  }

  /** requestFrom(address, amount, sendStop): an amount over the capacity is
      refused at once with BufferOverflow, no state change and no register
      written. Otherwise the read is armed and triggered, and once the wait
      ends the call reports Ok whatever terminal result the handler published. */
  function RequestFrom(d: Driver, a: byte, amount: byte, sendStop: byte, evs: seq<Status>): (r: Option<Completion>)
    ensures amount > BufferSize ==> r == Some(Completion(d, BufferOverflow, []))
    ensures amount <= BufferSize && r.Some? ==>
              && r.value.code == Ok
              && Inv(r.value.next)
              && r.value.next.result.IsTerminal()
              && r.value.next.bytesToProcess == amount
              && r.value.next.sendStop == sendStop
              && |r.value.bus| > 0 && r.value.bus[0] == Address(r.value.next.address)
              && IsRead(r.value.next.address) && SlaveOf(r.value.next.address) == a % 128
  {
    if amount > BufferSize then Some(Completion(d, BufferOverflow, []))
    else
      var armed := ArmRead(d, a, amount, sendStop);
      match Wait(armed, evs)
      case None => None
      case Some(run) => Some(Completion(run.next, Ok, [Address(armed.address)] + run.bus))
  }

  /** requestFrom(address, amount): the same with sendStop = 1. */
  function RequestFromDefault(d: Driver, a: byte, amount: byte, evs: seq<Status>): (r: Option<Completion>)
    ensures r == RequestFrom(d, a, amount, 1, evs)
    ensures r.Some? ==>
              forall i :: 0 <= i < |r.value.bus| && r.value.bus[i].EndsBus() ==> r.value.bus[i].Releases()
  {
    RequestFrom(d, a, amount, 1, evs)
  }

  /** The bytes successive read() calls return, in order: the window of the
      buffer that ends at the target count and is as long as the progress
      counter. */
  function Unread(d: Driver): seq<byte>
    requires Inv(d)
  {
    d.buffer[d.bytesToProcess - d.bytesProcessed..d.bytesToProcess]
  }

  /** available(): the number of bytes read() will still return. */
  function Available(d: Driver): (n: byte)
    ensures Inv(d) ==> n == |Unread(d)|
  {
    d.bytesProcessed
  }

  /** read(): with nothing available returns 0 and changes nothing; otherwise
      returns the first unread byte and consumes it. */
  function Read(d: Driver): (r: ByteReply)
    requires Inv(d)
    ensures Inv(r.next)
    ensures |Unread(d)| == 0 ==> r == ByteReply(d, 0)
    ensures |Unread(d)| > 0 ==>
              && r.value == Unread(d)[0]
              && Unread(r.next) == Unread(d)[1..]
              && Available(r.next) == Available(d) - 1
    ensures r.next == d.(bytesProcessed := r.next.bytesProcessed)
  {
    if Available(d) == 0 then ByteReply(d, 0)
    else
      var index := d.bytesToProcess - d.bytesProcessed;
      ByteReply(d.(bytesProcessed := d.bytesProcessed - 1), d.buffer[index])
  }

  /** Calling read() while available() is non-zero returns exactly the
      unread window, in order, and leaves nothing available. */
  function Drain(d: Driver): (out: seq<byte>)
    requires Inv(d)
    decreases d.bytesProcessed
    ensures out == Unread(d)
  {
    if Available(d) == 0 then []
    else
      var r := Read(d);
      [r.value] + Drain(r.next)
  }
}
