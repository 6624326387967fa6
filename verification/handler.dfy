/**
 The master interrupt handler (masterISRHandler) as a pure step function:
 one status snapshot in, the new driver state and the one command the
 handler issues out. The handler dispatches on the exact set of masked
 cause bits, so two causes raised together fall into the catch-all.
 */
module Handler {
  import opened TwiTypes

  /** The transaction fields the handler never writes. */
  predicate HandlerKeeps(d: Driver, e: Driver) {
    && e.began == d.began
    && e.baud == d.baud
    && e.address == d.address
    && e.bytesToProcess == d.bytesToProcess
    && e.sendStop == d.sendStop
  }

  function Step(d: Driver, st: Status): (t: Transition)
    requires Inv(d)
    ensures Inv(t.next)
    ensures HandlerKeeps(d, t.next)
    // A step either lets the transaction go on, leaving the published
    // result alone, or publishes a terminal result; never both.
    ensures t.action.Continues() ==> t.next.result == d.result
    ensures !t.action.Continues() ==> t.next.result.IsTerminal()
    // Every stop/repeated-start obeys the sendStop flag.
    ensures t.action.EndsBus() ==> (t.action.Releases() <==> d.sendStop != 0)
    // Outgoing bytes leave in staging order, one at a time.
    ensures t.action.DataOut? ==>
              && d.bytesProcessed < d.bytesToProcess
              && t.action.data == Staged(d)[d.bytesProcessed]
              && t.next.bytesProcessed == d.bytesProcessed + 1
    // The buffer changes only by storing the received byte at the read cursor.
    ensures t.next.buffer == d.buffer
            || (&& d.bytesProcessed < d.bytesToProcess
                && t.next.buffer == d.buffer[d.bytesProcessed := st.data]
                && t.next.bytesProcessed == d.bytesProcessed + 1)
  {
    var sent := d.bytesProcessed;
    if st.Only(WIF) then
      if st.rxack then
        Transition(d.(result := NackReceived), EndWrite(d.sendStop))
      else if sent < d.bytesToProcess then
        Transition(d.(bytesProcessed := sent + 1), DataOut(d.buffer[sent]))
      else
        Transition(d.(result := Ok), EndWrite(d.sendStop))
    else if st.Only(RIF) then
      if sent < d.bytesToProcess then
        var e := d.(buffer := d.buffer[sent := st.data], bytesProcessed := sent + 1);
        if e.bytesProcessed < e.bytesToProcess then Transition(e, RecvTrans)
        else Transition(e.(result := Ok), EndRead(d.sendStop))
      else
        Transition(d.(result := BufferOverflow, bytesProcessed := 0), EndRead(d.sendStop))
    else if st.Only(ARBLOST) then
      Transition(d.(result := ArbitrationLost), ClearStatus)
    else if st.Only(BUSERR) then
      Transition(d.(result := BusError), ClearStatus)
    else
      Transition(d.(result := Fail), NoCommand)
  }

  /** Write complete: a NACK ends the phase with NackReceived and leaves the
      counters alone; otherwise the next staged byte goes out; once none is
      left the phase ends with Ok. */
  lemma WriteComplete(d: Driver, st: Status)
    requires Inv(d) && st.Only(WIF)
    ensures var t := Step(d, st);
            if st.rxack then
              t == Transition(d.(result := NackReceived), EndWrite(d.sendStop))
            else if d.bytesProcessed < d.bytesToProcess then
              t == Transition(d.(bytesProcessed := d.bytesProcessed + 1), DataOut(d.buffer[d.bytesProcessed]))
            else
              t == Transition(d.(result := Ok), EndWrite(d.sendStop))
  {
  }

  /** Read complete: while room remains the byte is stored at the cursor and
      either the next byte is requested or, at the target count, the last one
      is NACKed with Ok; with no room left the byte is refused with a NACK,
      BufferOverflow, and the progress counter cleared. */
  lemma ReadComplete(d: Driver, st: Status)
    requires Inv(d) && st.Only(RIF)
    ensures var t := Step(d, st);
            var i := d.bytesProcessed;
            if i < d.bytesToProcess then
              var e := d.(buffer := d.buffer[i := st.data], bytesProcessed := i + 1);
              if i + 1 < d.bytesToProcess then t == Transition(e, RecvTrans)
              else t == Transition(e.(result := Ok), EndRead(d.sendStop))
            else
              t == Transition(d.(result := BufferOverflow, bytesProcessed := 0), EndRead(d.sendStop))
  {
  }

  /** Arbitration lost and bus error alone each clear the status flags and
      publish their own result, touching nothing else. */
  lemma BusFaults(d: Driver, st: Status)
    requires Inv(d)
    ensures st.Only(ARBLOST) ==> Step(d, st) == Transition(d.(result := ArbitrationLost), ClearStatus)
    ensures st.Only(BUSERR) ==> Step(d, st) == Transition(d.(result := BusError), ClearStatus)
  {
  }

  /** No cause, or two or more causes at once (arbitration lost together with
      bus error, say), is unexpected: Fail, no command, nothing else changes. */
  lemma UnexpectedCauses(d: Driver, st: Status)
    requires Inv(d)
    requires st.Raised() != 1
    ensures Step(d, st) == Transition(d.(result := Fail), NoCommand)
  {
  }

  /** In particular, arbitration lost and bus error together give Fail: no
      cause takes precedence over the other. */
  lemma SimultaneousFaultsFail(d: Driver, rxack: bool, data: byte)
    requires Inv(d)
    ensures Step(d, Status(false, false, true, true, rxack, data)).next.result == Fail
    ensures Step(d, Status(false, false, true, true, rxack, data)).action == NoCommand
  {
    UnexpectedCauses(d, Status(false, false, true, true, rxack, data));
  }
}
