// What the UART driver promises over whole runs.

module UartTheorems {
  import opened Bytes
  import opened UartState
  import opened UartProtocol

  function Run(s: System, es: seq<Event>): System
    decreases |es|
  {
    if es == [] then s else Next(Run(s, es[..|es| - 1]), es[|es| - 1])
  }

  /** Every event of the run is one the environment, under these rules, can make. */
  predicate Obeys(s: System, es: seq<Event>, rules: Rules)
    decreases |es|
  {
    es == [] || (Obeys(s, es[..|es| - 1], rules) && Allowed(Run(s, es[..|es| - 1]), es[|es| - 1], rules))
  }

  lemma RunSnoc(s: System, es: seq<Event>, e: Event, rules: Rules)
    ensures Run(s, es + [e]) == Next(Run(s, es), e)
    ensures Obeys(s, es + [e], rules) <==> Obeys(s, es, rules) && Allowed(Run(s, es), e, rules)
  {
    assert (es + [e])[..|es|] == es;
  }

  lemma {:induction false} RunConcat(s: System, es: seq<Event>, fs: seq<Event>, rules: Rules)
    ensures Run(s, es + fs) == Run(Run(s, es), fs)
    ensures Obeys(s, es + fs, rules) <==> Obeys(s, es, rules) && Obeys(Run(s, es), fs, rules)
    decreases |fs|
  {
    if fs == [] {
      assert es + fs == es;
    } else {
      var n := |fs| - 1;
      assert es + fs == (es + fs[..n]) + [fs[n]];
      RunConcat(s, es, fs[..n], rules);
      RunSnoc(s, es + fs[..n], fs[n], rules);
    }
  }

  lemma {:induction false} ReachableInv(es: seq<Event>)
    requires Obeys(START, es, ALL_RULES)
    ensures Inv(Run(START, es))
    decreases |es|
  {
    if es != [] {
      ReachableInv(es[..|es| - 1]);
      StepKeepsInv(Run(START, es[..|es| - 1]), es[|es| - 1]);
    }
  }

  /** No run reaches a JD_PANIC, a failed assertion or an access outside a client buffer: a client that waits for
      jd_tx_completed finds the driver ready for the next packet. While a transmission is in progress no reception
      is open and no read moves or overwrites its buffer. */
  lemma TransmitterIsUndisturbed(es: seq<Event>, force: bool)
    requires Obeys(START, es, ALL_RULES)
    ensures var s := Run(START, es);
            && !s.m.d.failed
            && (!s.h.busy ==> !s.m.d.inTx && s.m.d.txLen == 0)
            && (s.m.d.inTx ==>
                  && s.m.d.rxLen == 0 && !s.m.d.seenLow && s.m.txMem == s.h.txData
                  && ReadFifo(s.m, force).(hw := s.m.hw) == s.m)
  {
    ReachableInv(es);
    if Run(START, es).m.d.inTx {
      ReadStoresNothing(Run(START, es).m, force);
    }
  }

  /** A callback flag is never stranded: with the timer off and the task idle all three are clear. The client is
      busy exactly while a transmission is in progress or its callback is due, never both, and jd_tx_completed has
      been called once for every accepted transmission but that one. */
  lemma NoCallbackIsLost(es: seq<Event>)
    requires Obeys(START, es, ALL_RULES)
    ensures var s := Run(START, es);
            && (s.task.Idle? && !s.m.d.timer0 ==> !s.m.d.cbRx && !s.m.d.cbTx && !s.m.d.cbFall)
            && (s.h.busy <==> s.m.d.inTx || s.m.d.cbTx) && !(s.m.d.inTx && s.m.d.cbTx)
            && s.h.accepted == s.h.completed + Bit(s.h.busy)
  {
    ReachableInv(es);
  }

  /** An open lossless reception: what is stored is a prefix of what arrived since the falling edge,
      stored and remaining lengths add up, and nothing is missing while there is room. */
  lemma ReceptionIsPrefix(es: seq<Event>)
    requires Obeys(START, es, ALL_RULES)
    requires var s := Run(START, es); s.m.d.seenLow && !s.h.lost
    ensures var m, received := Run(START, es).m, Run(START, es).h.received;
            match m.d.fifoBuf
            case Null => m.hw.rxFifo == received
            case InTx(_) => false
            case InRx(stored) =>
              && stored + m.d.rxLen == |m.rxMem| % 65536
              && m.rxMem[..stored] <= received
              && (m.d.rxLen > 0 ==> m.rxMem[..stored] + m.hw.rxFifo == received)
  {
    ReachableInv(es);
  }

  /** The frame that ends leaves in the buffer exactly the bytes that arrived, up to its length;
      data_left is the room that is left, cb_rx is set and the timer armed. */
  predicate Delivered(s: System, m: Machine) {
    var capacity := |s.m.rxMem| % 65536;
    var n := Min(|s.h.received|, capacity);
    && |m.rxMem| == |s.m.rxMem| && m.rxMem[..n] == s.h.received[..n]
    && m.d.dataLeft == capacity - n
    && m.d.cbRx && m.d.timer0 && !m.d.seenLow && m.d.fifoBuf.Null?
  }

  lemma EndDelivers(s: System)
    requires Inv(s) && s.m.d.seenLow && !s.h.lost && s.m.d.fifoBuf.InRx? && IsrEndsFrame(s.m)
    ensures Delivered(s, Isr(s.m))
  {
    var acked := s.m.(hw := s.m.hw.(raw := Minus(s.m.hw.raw, Status(s.m))));
    assert StoredSoFar(acked, s.h.received);
    ReadIntoBuffer(acked, false);
  }

  /** In every run, while a reception is open, a break, a timeout or a framing error is raised only to be served:
      these interrupts are on, and those of a transmission are off. */
  lemma ReceptionListens(es: seq<Event>)
    requires Obeys(START, es, ALL_RULES)
    ensures var s := Run(START, es);
            s.m.d.seenLow ==>
              && s.m.hw.ena.brkDet && s.m.hw.ena.rxFifoTout && s.m.hw.ena.frmErr && s.m.hw.ena.rxFifoFull
              && !s.m.hw.ena.txBrkDone && !s.m.hw.ena.txFifoEmpty && !s.m.d.inTx
  {
    ReachableInv(es);
  }

  /** A break, a timeout or a framing error raised while a buffer is installed ends the frame, and the handler
      delivers it. */
  lemma FrameIsDelivered(es: seq<Event>)
    requires Obeys(START, es, ALL_RULES)
    requires var s := Run(START, es);
             && Enabled(s, Interrupt) && s.m.d.seenLow && !s.h.lost && s.m.d.fifoBuf.InRx?
             && (s.m.hw.raw.brkDet || s.m.hw.raw.rxFifoTout || s.m.hw.raw.frmErr)
    ensures Delivered(Run(START, es), Run(START, es + [Interrupt]).m)
  {
    RunSnoc(START, es, Interrupt, ALL_RULES);
    ReachableInv(es);
    ReceptionListens(es);
    EndDelivers(Run(START, es));
  }

  lemma OnlyTxDoneEndsTransmission(s: System)
    requires Inv(s) && s.m.d.inTx && !Isr(s.m).d.inTx
    ensures Status(s.m).txBrkDone
  {
    AcknowledgeInTx(s);
  }

  lemma SentAtEnd(s: System)
    requires Inv(s) && s.m.d.inTx && !Isr(s.m).d.inTx
    ensures var t := Interrupted(s);
            && s.h.wire <= s.h.txData && |s.h.wire| == |s.h.txData| % 65536
            && !s.m.d.cbTx && t.m.d.cbTx && t.m.d.timer0
            && t.h.completed + 1 == t.m.hw.breaks == t.h.accepted
  {
    OnlyTxDoneEndsTransmission(s);
    AcknowledgeInTx(s);
  }

  /** When the break is over the wire has carried exactly the accepted data (its length taken modulo
      2^16), with one break for it, and cb_tx, clear before, is set with the timer armed. */
  lemma TransmissionIsSent(es: seq<Event>)
    requires Obeys(START, es, ALL_RULES)
    requires var s := Run(START, es); Enabled(s, Interrupt) && s.m.d.inTx && !Isr(s.m).d.inTx
    ensures var s, t := Run(START, es), Run(START, es + [Interrupt]);
            && s.h.wire <= s.h.txData && |s.h.wire| == |s.h.txData| % 65536
            && !s.m.d.cbTx && t.m.d.cbTx && t.m.d.timer0
            && t.h.completed + 1 == t.m.hw.breaks == t.h.accepted
  {
    RunSnoc(START, es, Interrupt, ALL_RULES);
    ReachableInv(es);
    SentAtEnd(Run(START, es));
  }

  /** A refill never overfills the FIFO, and strictly shortens what remains unless the FIFO is full. */
  lemma RefillProgress(s: System)
    requires Inv(s) && s.m.d.inTx && s.m.d.txLen > 0
    ensures var f := FillFifo(s.m);
            && |f.hw.txFifo| <= FIFO_LEN
            && (f.d.txLen < s.m.d.txLen || |s.m.hw.txFifo| == FIFO_LEN)
  {
    RefillKeepsInv(s);
  }

  /** The interrupt that moves a drained transmission on. */
  function PendingIrq(s: System): Irq {
    if s.m.d.txLen > 0 then TxFifoEmpty else TxBrkDone
  }

  lemma PendingInterruptProgress(s: System)
    requires Inv(s) && s.m.d.inTx && |s.h.txData| % 65536 > 0 && s.m.hw.txFifo == []
    requires Plus(s.m.hw.raw, PendingIrq(s)) == s.m.hw.raw
    ensures Enabled(s, Interrupt)
    ensures var t := Next(s, Interrupt); t.h.txData == s.h.txData && (t.m.d.inTx ==> t.m.d.txLen < s.m.d.txLen)
  {
    AcknowledgeInTx(s);
  }

  /** One round of the hardware: drain the FIFO, raise the pending transmit interrupt, serve it. */
  lemma TransmitRound(s: System) returns (es: seq<Event>)
    requires Inv(s) && s.m.d.inTx && |s.h.txData| % 65536 > 0
    ensures Obeys(s, es, ALL_RULES)
    ensures var t := Run(s, es); Inv(t) && t.h.txData == s.h.txData && (t.m.d.inTx ==> t.m.d.txLen < s.m.d.txLen)
  {
    var drain, raise := Shift(|s.m.hw.txFifo|), Raise(PendingIrq(s));
    var drained := Next(s, drain);
    StepKeepsInv(s, drain);
    var raised := Next(drained, raise);
    StepKeepsInv(drained, raise);
    PendingInterruptProgress(raised);
    StepKeepsInv(raised, Interrupt);
    RunSnoc(s, [], drain, ALL_RULES);
    RunSnoc(s, [] + [drain], raise, ALL_RULES);
    RunSnoc(s, [] + [drain] + [raise], Interrupt, ALL_RULES);
    es := [] + [drain] + [raise] + [Interrupt];
  }

  /** From any state in mid-transmission the hardware can drive it to its end, unless its length
      modulo 2^16 is zero... */
  lemma {:induction false} TransmissionCanComplete(s: System) returns (es: seq<Event>)
    requires Inv(s) && s.m.d.inTx && |s.h.txData| % 65536 > 0
    ensures Obeys(s, es, ALL_RULES) && !Run(s, es).m.d.inTx
    decreases s.m.d.txLen
  {
    es := TransmitRound(s);
    if Run(s, es).m.d.inTx {
      var rest := TransmissionCanComplete(Run(s, es));
      RunConcat(s, es, rest, ALL_RULES);
      es := es + rest;
    }
  }

  // ---- every schedule that keeps serving the FIFO ends ----

  /** How much is left to do: a byte still in the buffer has two moves before it, one in the FIFO has one. */
  function Ground(s: System): nat {
    2 * s.m.d.txLen + |s.m.hw.txFifo|
  }

  /** A step that moves a byte of the transmission on: out of the FIFO, or from the buffer into a FIFO with room. */
  predicate MovesByte(s: System, e: Event) {
    (e.Shift? && e.k > 0)
    || (e.Interrupt? && !Status(s.m).txBrkDone && Status(s.m).txFifoEmpty && s.m.d.txLen > 0
        && |s.m.hw.txFifo| < FIFO_LEN)
  }

  lemma InterruptGround(s: System)
    requires Inv(s) && s.m.d.inTx && Enabled(s, Interrupt)
    ensures var t := Interrupted(s);
            t.m.d.inTx ==> t.h.txData == s.h.txData && Ground(t) + Bit(MovesByte(s, Interrupt)) <= Ground(s)
  {
    AcknowledgeInTx(s);
  }

  /** No step of anybody takes the transmission back, and the moves take it forward. */
  lemma StepGround(s: System, e: Event)
    requires Inv(s) && s.m.d.inTx && Enabled(s, e)
    ensures var t := Next(s, e);
            t.m.d.inTx ==> t.h.txData == s.h.txData && Ground(t) + Bit(MovesByte(s, e)) <= Ground(s)
  {
    if e.Interrupt? {
      InterruptGround(s);
    }
  }

  /** The run stays within one transmission. */
  predicate StaysInTx(s: System, es: seq<Event>) {
    Run(s, es).m.d.inTx && (es == [] || StaysInTx(s, es[..|es| - 1]))
  }

  function Moves(s: System, es: seq<Event>): nat {
    if es == [] then 0
    else Moves(s, es[..|es| - 1]) + Bit(MovesByte(Run(s, es[..|es| - 1]), es[|es| - 1]))
  }

  /** In no schedule can the hardware keep moving bytes without coming to the end of the transmission. */
  lemma {:induction false} MovesAreBounded(s: System, es: seq<Event>)
    requires Inv(s) && Obeys(s, es, ALL_RULES) && StaysInTx(s, es)
    ensures var t := Run(s, es);
            Inv(t) && t.h.txData == s.h.txData && Moves(s, es) + Ground(t) <= Ground(s)
    decreases |es|
  {
    if es != [] {
      var n := |es| - 1;
      MovesAreBounded(s, es[..n]);
      StepKeepsInv(Run(s, es[..n]), es[n]);
      StepGround(Run(s, es[..n]), es[n]);
    }
  }

  /** Until it ends there is always a next thing for the hardware to do: a move, or, once no move is left, raising
      the end of the break, whose interrupt ends it. */
  lemma NextMove(s: System)
    requires Inv(s) && s.m.d.inTx && |s.h.txData| % 65536 > 0
    ensures s.m.hw.txFifo != [] ==> Enabled(s, Shift(1)) && MovesByte(s, Shift(1))
    ensures s.m.hw.txFifo == [] ==> Enabled(s, Raise(PendingIrq(s)))
    ensures s.m.hw.txFifo == [] && Plus(s.m.hw.raw, PendingIrq(s)) == s.m.hw.raw ==>
              Enabled(s, Interrupt)
              && (MovesByte(s, Interrupt) || (Ground(s) == 0 && !Next(s, Interrupt).m.d.inTx))
  {
    if s.m.hw.txFifo == [] && Plus(s.m.hw.raw, PendingIrq(s)) == s.m.hw.raw {
      PendingInterruptProgress(s);
      AcknowledgeInTx(s);
    }
  }

  lemma EmptyTransmissionStep(s: System, e: Event)
    requires Inv(s) && s.m.d.inTx && |s.h.txData| % 65536 == 0 && Enabled(s, e)
    ensures var t := Next(s, e); t.m.d.inTx && t.h.txData == s.h.txData && t.h.wire == []
  {
    if e.Interrupt? {
      AcknowledgeInTx(s);
    }
  }

  /** ... and then nothing is ever sent and in_tx never clears. */
  lemma {:induction false} EmptyTransmissionSticks(s: System, es: seq<Event>)
    requires Inv(s) && s.m.d.inTx && |s.h.txData| % 65536 == 0 && Obeys(s, es, ALL_RULES)
    ensures var t := Run(s, es); Inv(t) && t.m.d.inTx && t.h.txData == s.h.txData && t.h.wire == []
    decreases |es|
  {
    if es != [] {
      EmptyTransmissionSticks(s, es[..|es| - 1]);
      StepKeepsInv(Run(s, es[..|es| - 1]), es[|es| - 1]);
      EmptyTransmissionStep(Run(s, es[..|es| - 1]), es[|es| - 1]);
    }
  }

  /** uart_start_tx finishes what it accepts exactly when numbytes is not a multiple of 2^16. */
  lemma TransmissionCompletesIff(s: System)
    requires Inv(s) && s.m.d.inTx
    ensures (exists es :: Obeys(s, es, ALL_RULES) && !Run(s, es).m.d.inTx) <==> |s.h.txData| % 65536 > 0
  {
    if |s.h.txData| % 65536 > 0 {
      var es := TransmissionCanComplete(s);
      assert Obeys(s, es, ALL_RULES) && !Run(s, es).m.d.inTx;
    } else {
      forall es | Obeys(s, es, ALL_RULES) ensures Run(s, es).m.d.inTx {
        EmptyTransmissionSticks(s, es);
      }
    }
  }
}
