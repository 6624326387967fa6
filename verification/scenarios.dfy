/**
 End-to-end transactions: the blocking calls run against scripted slaves,
 given as finite lists of interrupt snapshots.
 */
module Scenarios {
  import opened TwiTypes
  import Staging
  import Handler
  import opened Controller

  /** A write-complete interrupt; nack is the slave's NACK. */
  function WriteDone(nack: bool): (st: Status)
    ensures st.Only(WIF) && st.rxack == nack
  {
    Status(true, false, false, false, nack, 0)
  }

  /** A read-complete interrupt carrying one incoming byte. */
  function ReadDone(b: byte): (st: Status)
    ensures st.Only(RIF) && st.data == b
  {
    Status(false, true, false, false, false, b)
  }

  /** n write-complete interrupts, each with the slave's ACK. */
  function Acked(n: nat): (evs: seq<Status>)
    ensures |evs| == n
    ensures forall i :: 0 <= i < n ==> evs[i] == WriteDone(false)
  {
    seq(n, _ => WriteDone(false))
  }

  /** One read-complete interrupt per incoming byte. */
  function Incoming(data: seq<byte>): (evs: seq<Status>)
    ensures |evs| == |data|
    ensures forall i :: 0 <= i < |data| ==> evs[i] == ReadDone(data[i])
  {
    seq(|data|, i requires 0 <= i < |data| => ReadDone(data[i]))
  }

  function DataOuts(bytes: seq<byte>): (acts: seq<Action>)
    ensures |acts| == |bytes|
    ensures forall i :: 0 <= i < |bytes| ==> acts[i] == DataOut(bytes[i])
  {
    seq(|bytes|, i requires 0 <= i < |bytes| => DataOut(bytes[i]))
  }

  function Repeat(a: Action, n: nat): (acts: seq<Action>)
    ensures |acts| == n
    ensures forall i :: 0 <= i < n ==> acts[i] == a
  {
    seq(n, _ => a)
  }

  /** Commands issued before a run, added in front of it. */
  function Prepend(acts: seq<Action>, r: Option<Run>): Option<Run> {
    match r
    case None => None
    case Some(run) => Some(Run(run.next, acts + run.bus))
  }

  /** The state after the next |got| bytes were received into the buffer. */
  function Received(d: Driver, got: seq<byte>): (e: Driver)
    requires Inv(d) && d.bytesProcessed + |got| <= d.bytesToProcess
    ensures Inv(e)
  {
    var i := d.bytesProcessed;
    d.(buffer := d.buffer[..i] + got + d.buffer[i + |got|..], bytesProcessed := i + |got|)
  }

  /** One step of the busy-wait while the result is still Unknown. */
  lemma WaitUnfold(d: Driver, evs: seq<Status>)
    requires Inv(d) && d.result == Unknown && |evs| > 0
    ensures var t := Handler.Step(d, evs[0]);
            Wait(d, evs) == Prepend([t.action], Wait(t.next, evs[1..]))
  {
  }

  lemma PrependTwice(a: seq<Action>, b: seq<Action>, r: Option<Run>)
    ensures Prepend(a, Prepend(b, r)) == Prepend(a + b, r)
  {
    if r.Some? {
      assert a + (b + r.value.bus) == (a + b) + r.value.bus;
    }
  }

  /** m ACKed write-complete interrupts push the next m staged bytes, in
      order, and leave the rest of the wait to what follows. */
  lemma {:induction false} WaitSends(d: Driver, m: nat, rest: seq<Status>)
    requires Inv(d) && d.result == Unknown
    requires d.bytesProcessed + m <= d.bytesToProcess
    ensures Wait(d, Acked(m) + rest)
            == Prepend(DataOuts(d.buffer[d.bytesProcessed..d.bytesProcessed + m]),
                       Wait(d.(bytesProcessed := d.bytesProcessed + m), rest))
    decreases m, 2
  {
    if m == 0 {
      SendsNone(d, rest);
    } else {
      SendsMore(d, m, rest);
    }
  }

  lemma SendsNone(d: Driver, rest: seq<Status>)
    requires Inv(d)
    ensures Wait(d, Acked(0) + rest)
            == Prepend(DataOuts(d.buffer[d.bytesProcessed..d.bytesProcessed]),
                       Wait(d.(bytesProcessed := d.bytesProcessed + 0), rest))
  {
    assert Acked(0) + rest == rest;
    assert d.(bytesProcessed := d.bytesProcessed + 0) == d;
    assert DataOuts(d.buffer[d.bytesProcessed..d.bytesProcessed]) == [];
    PrependNothing(Wait(d, rest));
  }

  lemma PrependNothing(r: Option<Run>)
    ensures Prepend([], r) == r
  {
    if r.Some? {
      assert [] + r.value.bus == r.value.bus;
    }
  }

  /** The inductive step of WaitSends: one byte, then the other m - 1. */
  lemma {:induction false} SendsMore(d: Driver, m: nat, rest: seq<Status>)
    requires Inv(d) && d.result == Unknown
    requires 0 < m && d.bytesProcessed + m <= d.bytesToProcess
    ensures Wait(d, Acked(m) + rest)
            == Prepend(DataOuts(d.buffer[d.bytesProcessed..d.bytesProcessed + m]),
                       Wait(d.(bytesProcessed := d.bytesProcessed + m), rest))
    decreases m, 1
  {
    var i := d.bytesProcessed;
    var evs := Acked(m) + rest;
    var b := d.buffer[i];
    var e := d.(bytesProcessed := i + 1);
    var dn := d.(bytesProcessed := i + m);
    var later := Wait(dn, rest);
    var tail := DataOuts(d.buffer[i + 1..i + m]);
    calc {
      Wait(d, evs);
      { SendOne(d, evs); }
      Prepend([DataOut(b)], Wait(e, evs[1..]));
      { AckedTail(m, rest); }
      Prepend([DataOut(b)], Wait(e, Acked(m - 1) + rest));
      { WaitSendsFrom(e, m - 1, rest, dn, tail); }
      Prepend([DataOut(b)], Prepend(tail, later));
      { PrependTwice([DataOut(b)], tail, later); }
      Prepend([DataOut(b)] + tail, later);
      { DataOutsCons(d.buffer, i, m); }
      Prepend(DataOuts(d.buffer[i..i + m]), later);
    }
  }

  /** An ACKed write-complete interrupt with bytes left pushes the next one. */
  lemma SendOne(d: Driver, evs: seq<Status>)
    requires Inv(d) && d.result == Unknown && d.bytesProcessed < d.bytesToProcess
    requires |evs| > 0 && evs[0] == WriteDone(false)
    ensures Wait(d, evs)
            == Prepend([DataOut(d.buffer[d.bytesProcessed])],
                       Wait(d.(bytesProcessed := d.bytesProcessed + 1), evs[1..]))
  {
    Handler.WriteComplete(d, evs[0]);
    WaitUnfold(d, evs);
  }

  /** WaitSends restated with its resulting state and commands as
      parameters. It proves nothing new: SendsMore calls it in place of
      WaitSends so that the solver sees the induction hypothesis as one
      equation between named terms, which keeps that proof cheap. */
  lemma {:induction false} WaitSendsFrom(e: Driver, m: nat, rest: seq<Status>, dn: Driver, tail: seq<Action>)
    requires Inv(e) && e.result == Unknown
    requires e.bytesProcessed + m <= e.bytesToProcess
    requires dn == e.(bytesProcessed := e.bytesProcessed + m)
    requires tail == DataOuts(e.buffer[e.bytesProcessed..e.bytesProcessed + m])
    ensures Wait(e, Acked(m) + rest) == Prepend(tail, Wait(dn, rest))
    decreases m, 3
  {
    WaitSends(e, m, rest);
  }

  lemma AckedTail(m: nat, rest: seq<Status>)
    requires m > 0
    ensures (Acked(m) + rest)[1..] == Acked(m - 1) + rest
  {
  }

  lemma DataOutsCons(buf: seq<byte>, i: nat, m: nat)
    requires 0 < m && i + m <= |buf|
    ensures [DataOut(buf[i])] + DataOuts(buf[i + 1..i + m]) == DataOuts(buf[i..i + m])
  {
  }

  /** |got| read-complete interrupts that stay below the target store the
      bytes at the cursor and ask for more each time. */
  lemma {:induction false} WaitReceives(d: Driver, got: seq<byte>, rest: seq<Status>)
    requires Inv(d) && d.result == Unknown
    requires d.bytesProcessed + |got| < d.bytesToProcess
    ensures Wait(d, Incoming(got) + rest)
            == Prepend(Repeat(RecvTrans, |got|), Wait(Received(d, got), rest))
    decreases |got|, 2
  {
    if |got| == 0 {
      ReceivesNone(d, got, rest);
    } else {
      ReceivesMore(d, got, rest);
    }
  }

  lemma ReceivesNone(d: Driver, got: seq<byte>, rest: seq<Status>)
    requires Inv(d) && d.bytesProcessed < d.bytesToProcess && |got| == 0
    ensures Wait(d, Incoming(got) + rest)
            == Prepend(Repeat(RecvTrans, |got|), Wait(Received(d, got), rest))
  {
    var i := d.bytesProcessed;
    assert Incoming(got) + rest == rest;
    assert d.buffer[..i] + got + d.buffer[i..] == d.buffer;
    assert Received(d, got) == d;
    assert Repeat(RecvTrans, 0) == [];
    PrependNothing(Wait(d, rest));
  }

  /** The inductive step of WaitReceives: one byte, then the others. */
  lemma {:induction false} ReceivesMore(d: Driver, got: seq<byte>, rest: seq<Status>)
    requires Inv(d) && d.result == Unknown
    requires 0 < |got| && d.bytesProcessed + |got| < d.bytesToProcess
    ensures Wait(d, Incoming(got) + rest)
            == Prepend(Repeat(RecvTrans, |got|), Wait(Received(d, got), rest))
    decreases |got|, 1
  {
    var i := d.bytesProcessed;
    var evs := Incoming(got) + rest;
    var e := d.(buffer := d.buffer[i := got[0]], bytesProcessed := i + 1);
    var done := Received(d, got);
    var later := Wait(done, rest);
    var more := Repeat(RecvTrans, |got| - 1);
    calc {
      Wait(d, evs);
      { ReceiveOne(d, evs); }
      Prepend([RecvTrans], Wait(e, evs[1..]));
      { IncomingTail(got, rest); }
      Prepend([RecvTrans], Wait(e, Incoming(got[1..]) + rest));
      { ReceivedCons(d, got);
        WaitReceivesFrom(e, got[1..], rest, done, more); }
      Prepend([RecvTrans], Prepend(more, later));
      { PrependTwice([RecvTrans], more, later); }
      Prepend([RecvTrans] + more, later);
      { RepeatCons(RecvTrans, |got|); }
      Prepend(Repeat(RecvTrans, |got|), later);
    }
  }

  /** A read-complete interrupt below the target stores the byte at the
      cursor and asks for the next one. */
  lemma ReceiveOne(d: Driver, evs: seq<Status>)
    requires Inv(d) && d.result == Unknown && d.bytesProcessed + 1 < d.bytesToProcess
    requires |evs| > 0 && evs[0].Only(RIF)
    ensures var i := d.bytesProcessed;
            Wait(d, evs)
            == Prepend([RecvTrans],
                       Wait(d.(buffer := d.buffer[i := evs[0].data], bytesProcessed := i + 1), evs[1..]))
  {
    Handler.ReadComplete(d, evs[0]);
    WaitUnfold(d, evs);
  }

  /** WaitReceives restated with its resulting state and commands as
      parameters. It proves nothing new: ReceivesMore calls it in place of
      WaitReceives so that the solver sees the induction hypothesis as one
      equation between named terms, which keeps that proof cheap. */
  lemma {:induction false} WaitReceivesFrom(e: Driver, got: seq<byte>, rest: seq<Status>, done: Driver, more: seq<Action>)
    requires Inv(e) && e.result == Unknown
    requires e.bytesProcessed + |got| < e.bytesToProcess
    requires done == Received(e, got)
    requires more == Repeat(RecvTrans, |got|)
    ensures Wait(e, Incoming(got) + rest) == Prepend(more, Wait(done, rest))
    decreases |got|, 3
  {
    WaitReceives(e, got, rest);
  }

  lemma RepeatCons(a: Action, n: nat)
    requires n > 0
    ensures [a] + Repeat(a, n - 1) == Repeat(a, n)
  {
  }

  lemma IncomingTail(got: seq<byte>, rest: seq<Status>)
    requires |got| > 0
    ensures (Incoming(got) + rest)[1..] == Incoming(got[1..]) + rest
  {
  }

  /** Receiving the first byte, then the others, is receiving them all. */
  lemma ReceivedCons(d: Driver, got: seq<byte>)
    requires Inv(d) && d.bytesProcessed + |got| <= d.bytesToProcess && |got| > 0
    ensures var i := d.bytesProcessed;
            Received(d.(buffer := d.buffer[i := got[0]], bytesProcessed := i + 1), got[1..]) == Received(d, got)
  {
    var i := d.bytesProcessed;
    var e := d.(buffer := d.buffer[i := got[0]], bytesProcessed := i + 1);
    assert e.buffer[..i + 1] + got[1..] + e.buffer[i + |got|..]
           == d.buffer[..i] + got + d.buffer[i + |got|..];
  }

  /** A snapshot that ends the transaction ends the wait with its command. */
  lemma WaitLast(d: Driver, st: Status)
    requires Inv(d) && d.result == Unknown
    requires !Handler.Step(d, st).action.Continues()
    ensures var t := Handler.Step(d, st);
            Wait(d, [st]) == Some(Run(t.next, [t.action]))
  {
    var t := Handler.Step(d, st);
    WaitUnfold(d, [st]);
    assert [st][1..] == [];
    assert Wait(t.next, []) == Some(Run(t.next, []));
    assert [t.action] + [] == [t.action];
  }

  /** endTransmission's result in terms of the wait it performs. */
  lemma EndTransmissionOf(d: Driver, sendStop: byte, evs: seq<Status>, run: Run)
    requires Inv(d)
    requires Wait(d.(sendStop := sendStop), evs) == Some(run)
    ensures EndTransmission(d, sendStop, evs)
            == Some(Completion(run.next, run.next.result, [Address(d.address)] + run.bus))
  {
  }

  /** requestFrom's result in terms of the wait it performs. */
  lemma RequestFromOf(d: Driver, a: byte, amount: byte, sendStop: byte, evs: seq<Status>, run: Run)
    requires amount <= BufferSize
    requires Wait(ArmRead(d, a, amount, sendStop), evs) == Some(run)
    ensures RequestFrom(d, a, amount, sendStop, evs)
            == Some(Completion(run.next, Ok, [Address(ReadAddress(a))] + run.bus))
  {
  }

  /** A slave that ACKs the address and every byte of an n-byte staged
      write: n data-register writes in staging order, then a stop (or a
      repeated start), and the call returns Ok. */
  lemma WriteAllAcked(d: Driver, sendStop: byte)
    requires Inv(d) && d.result == Unknown && d.bytesProcessed == 0
    ensures EndTransmission(d, sendStop, Acked(d.bytesToProcess + 1))
            == Some(Completion(d.(sendStop := sendStop, bytesProcessed := d.bytesToProcess, result := Ok),
                               Ok,
                               [Address(d.address)] + DataOuts(Staged(d)) + [EndWrite(sendStop)]))
  {
    var n := d.bytesToProcess;
    var armed := d.(sendStop := sendStop);
    var full := armed.(bytesProcessed := n);
    var done := full.(result := Ok);
    var sends := DataOuts(Staged(d));
    Handler.WriteComplete(full, WriteDone(false));
    WaitLast(full, WriteDone(false));
    assert Acked(n + 1) == Acked(n) + [WriteDone(false)];
    assert armed.buffer[0..n] == Staged(d);
    WaitSendsFrom(armed, n, [WriteDone(false)], full, sends);
    var run := Run(done, sends + [EndWrite(sendStop)]);
    assert Wait(armed, Acked(n + 1)) == Some(run);
    EndTransmissionOf(d, sendStop, Acked(n + 1), run);
    assert [Address(d.address)] + (sends + [EndWrite(sendStop)])
           == [Address(d.address)] + sends + [EndWrite(sendStop)];
  }

  /** After a write, available() counts the bytes sent and read() hands the
      sent bytes back, in order. */
  lemma WriteLeavesSentBytesReadable(d: Driver, sendStop: byte)
    requires Inv(d) && d.result == Unknown && d.bytesProcessed == 0
    ensures var r := EndTransmission(d, sendStop, Acked(d.bytesToProcess + 1));
            && r.Some?
            && Available(r.value.next) == d.bytesToProcess
            && Drain(r.value.next) == Staged(d)
  {
    WriteAllAcked(d, sendStop);
  }

  /** The slave NACKs after j ACKed interrupts (j = 0: the address itself;
      otherwise data byte j): the bytes before it went out, the call returns
      NackReceived, and the bus is stopped or held per sendStop. */
  lemma WriteNacked(d: Driver, sendStop: byte, j: nat)
    requires Inv(d) && d.result == Unknown && d.bytesProcessed == 0
    requires j <= d.bytesToProcess
    ensures var r := EndTransmission(d, sendStop, Acked(j) + [WriteDone(true)]);
            && r.Some?
            && r.value.code == NackReceived
            && r.value.bus == [Address(d.address)] + DataOuts(Staged(d)[..j]) + [EndWrite(sendStop)]
            && Available(r.value.next) == j
  {
    var armed := d.(sendStop := sendStop);
    var sent := armed.(bytesProcessed := j);
    var done := sent.(result := NackReceived);
    var sends := DataOuts(Staged(d)[..j]);
    Handler.WriteComplete(sent, WriteDone(true));
    WaitLast(sent, WriteDone(true));
    assert armed.buffer[0..j] == Staged(d)[..j];
    WaitSendsFrom(armed, j, [WriteDone(true)], sent, sends);
    var run := Run(done, sends + [EndWrite(sendStop)]);
    assert Wait(armed, Acked(j) + [WriteDone(true)]) == Some(run);
    EndTransmissionOf(d, sendStop, Acked(j) + [WriteDone(true)], run);
    assert [Address(d.address)] + (sends + [EndWrite(sendStop)])
           == [Address(d.address)] + sends + [EndWrite(sendStop)];
  }

  /** The wait of a read whose every requested byte arrives: the bytes
      land at the front of the buffer in arrival order, all but the last are
      ACKed, and the last ends the phase with Ok. */
  lemma ReadAllArrive(armed: Driver, data: seq<byte>)
    requires Inv(armed) && armed.result == Unknown
    requires armed.bytesProcessed == 0 && armed.bytesToProcess == |data| > 0
    ensures var n := |data|;
            Wait(armed, Incoming(data))
            == Some(Run(armed.(buffer := data + armed.buffer[n..], bytesProcessed := n, result := Ok),
                        Repeat(RecvTrans, n - 1) + [EndRead(armed.sendStop)]))
  {
    var n := |data|;
    var init := data[..n - 1];
    var last := ReadDone(data[n - 1]);
    var e := Received(armed, init);
    var done := armed.(buffer := data + armed.buffer[n..], bytesProcessed := n, result := Ok);
    assert e.buffer[n - 1 := data[n - 1]] == data + armed.buffer[n..];
    Handler.ReadComplete(e, last);
    assert Handler.Step(e, last) == Transition(done, EndRead(armed.sendStop));
    WaitLast(e, last);
    assert Incoming(data) == Incoming(init) + [last];
    WaitReceivesFrom(armed, init, [last], e, Repeat(RecvTrans, n - 1));
  }

  /** The wait of a read cut short by lost arbitration after the bytes in
      got: they are stored, and the fault ends the phase. */
  lemma ReadCutShort(armed: Driver, got: seq<byte>, fault: Status)
    requires Inv(armed) && armed.result == Unknown
    requires armed.bytesProcessed + |got| < armed.bytesToProcess
    requires fault.Only(ARBLOST)
    ensures Wait(armed, Incoming(got) + [fault])
            == Some(Run(Received(armed, got).(result := ArbitrationLost),
                        Repeat(RecvTrans, |got|) + [ClearStatus]))
  {
    var e := Received(armed, got);
    Handler.BusFaults(e, fault);
    WaitLast(e, fault);
    WaitReceivesFrom(armed, got, [fault], e, Repeat(RecvTrans, |got|));
  }

  /** After a partial read from the start of the buffer the received bytes
      lead it, the unread window still ends at the target, and the last cell
      of that window was not written by this read. */
  lemma ReceivedWindow(armed: Driver, got: seq<byte>, e: Driver)
    requires Inv(armed) && armed.bytesProcessed == 0 && |got| < armed.bytesToProcess
    requires e == Received(armed, got).(result := e.result)
    ensures var n := armed.bytesToProcess;
            && Available(e) == |got|
            && e.buffer[..|got|] == got
            && Unread(e) == e.buffer[n - |got|..n]
            && e.buffer[n - 1] == armed.buffer[n - 1]
  {
    var n := armed.bytesToProcess;
    var k := |got|;
    assert e.bytesProcessed == k && e.bytesToProcess == n;
    assert e.buffer == got + armed.buffer[k..];
    assert e.buffer[..k] == got;
    assert e.buffer[n - 1] == armed.buffer[n - 1];
  }

  /** A slave that sends n bytes for an n-byte request (1 <= n <= capacity):
      every byte but the last is ACKed, the last is NACKed before the stop
      or repeated start, the result is Ok, available() is n, and read()
      returns the received bytes in the order they arrived. */
  lemma ReadRoundTrip(d: Driver, a: byte, data: seq<byte>, sendStop: byte)
    requires 1 <= |data| <= BufferSize
    ensures var r := RequestFrom(d, a, |data|, sendStop, Incoming(data));
            && r.Some?
            && r.value.code == Ok
            && r.value.next.result == Ok
            && r.value.bus == [Address(ReadAddress(a))] + Repeat(RecvTrans, |data| - 1) + [EndRead(sendStop)]
            && Available(r.value.next) == |data|
            && Drain(r.value.next) == data
  {
    var n := |data|;
    var armed := ArmRead(d, a, n, sendStop);
    var done := armed.(buffer := data + armed.buffer[n..], bytesProcessed := n, result := Ok);
    var acks := Repeat(RecvTrans, n - 1);
    ReadAllArrive(armed, data);
    RequestFromOf(d, a, n, sendStop, Incoming(data), Run(done, acks + [EndRead(sendStop)]));
    assert [Address(ReadAddress(a))] + (acks + [EndRead(sendStop)])
           == [Address(ReadAddress(a))] + acks + [EndRead(sendStop)];
    assert done.buffer[0..n] == data;
  }

  /** A request for zero bytes: the first byte the slave sends finds no room,
      so it is NACKed and the handler publishes BufferOverflow, yet the call
      itself returns Ok, and nothing is available. */
  lemma EmptyRequestOverflows(d: Driver, a: byte, sendStop: byte, x: byte)
    ensures var r := RequestFrom(d, a, 0, sendStop, [ReadDone(x)]);
            && r.Some?
            && r.value.code == Ok
            && r.value.next.result == BufferOverflow
            && r.value.bus == [Address(ReadAddress(a)), EndRead(sendStop)]
            && Available(r.value.next) == 0
  {
    var armed := ArmRead(d, a, 0, sendStop);
    var done := armed.(result := BufferOverflow, bytesProcessed := 0);
    Handler.ReadComplete(armed, ReadDone(x));
    WaitLast(armed, ReadDone(x));
    RequestFromOf(d, a, 0, sendStop, [ReadDone(x)], Run(done, [EndRead(sendStop)]));
  }

  /** Arbitration lost after k of n requested bytes arrived (k < n): the call
      still returns Ok, available() is k, but read() returns the window that
      ends at the n-th cell, so its last byte is a cell no byte of this
      transfer reached: stale contents from before the request. */
  lemma PartialReadReturnsStale(d: Driver, a: byte, n: byte, got: seq<byte>, sendStop: byte, x: byte)
    requires |got| < n <= BufferSize
    ensures var r := RequestFrom(d, a, n, sendStop, Incoming(got) + [Status(false, false, true, false, false, x)]);
            && r.Some?
            && r.value.code == Ok
            && r.value.next.result == ArbitrationLost
            && Available(r.value.next) == |got|
            && r.value.next.buffer[..|got|] == got
            && Unread(r.value.next) == r.value.next.buffer[n - |got|..n]
            && (|got| > 0 ==> Unread(r.value.next)[|got| - 1] == d.buffer[n - 1])
  {
    var armed := ArmRead(d, a, n, sendStop);
    var fault := Status(false, false, true, false, false, x);
    var done := Received(armed, got).(result := ArbitrationLost);
    ReadCutShort(armed, got, fault);
    RequestFromOf(d, a, n, sendStop, Incoming(got) + [fault],
                  Run(done, Repeat(RecvTrans, |got|) + [ClearStatus]));
    ReceivedWindow(armed, got, done);
  }

  /** begin(100 kHz); beginTransmission(0x50); write(0xAA); write(0x55);
      endTransmission(1) against a slave that ACKs everything: the address
      byte 0xA0, two data-register writes, then a stop, and Ok. */
  lemma TwoByteWriteExample()
    ensures var on := Begin(PowerOn(), 16000000, 100000).next;
            var t := BeginTransmission(on, 0x50);
            var w1 := Staging.WriteByte(t, 0xAA);
            var w2 := Staging.WriteByte(w1.next, 0x55);
            var r := EndTransmission(w2.next, 1, Acked(3));
            && w1.code == Ok && w2.code == Ok
            && r.Some?
            && r.value.code == Ok
            && r.value.bus == [Address(0xA0), DataOut(0xAA), DataOut(0x55), Stop]
  {
    var on := Begin(PowerOn(), 16000000, 100000).next;
    var t := BeginTransmission(on, 0x50);
    var w1 := Staging.WriteByte(t, 0xAA);
    var w2 := Staging.WriteByte(w1.next, 0x55);
    assert Staged(w2.next) == [0xAA, 0x55];
    assert w2.next.address == 0xA0;
    assert DataOuts([0xAA, 0x55]) == [DataOut(0xAA), DataOut(0x55)];
    assert EndWrite(1) == Stop;
    WriteAllAcked(w2.next, 1);
    assert [Address(0xA0)] + [DataOut(0xAA), DataOut(0x55)] + [Stop]
           == [Address(0xA0), DataOut(0xAA), DataOut(0x55), Stop];
  }
}
