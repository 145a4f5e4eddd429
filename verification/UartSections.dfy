// What each section of the UART driver does, on the bits of the interrupt registers and the fields of the record.

module UartSections {
  import opened Bytes
  import opened UartState

  // ---- read_fifo ----

  /** Unless forced, fewer than 119 bytes are left alone while there is no buffer. */
  lemma ReadWaits(m: Machine)
    requires m.d.fifoBuf == Null && |m.hw.rxFifo| < 119
    ensures ReadFifo(m, false) == m
  {
  }

  lemma StoreTouches(m: Machine, n: nat)
    requires n <= |m.hw.rxFifo|
    ensures var t := Store(m, n);
            && t.d == m.d.(fifoBuf := t.d.fifoBuf, failed := t.d.failed)
            && t.hw == m.hw.(rxFifo := t.hw.rxFifo)
            && (t.d.fifoBuf == Null <==> m.d.fifoBuf == Null)
  {
  }

  /** What a read makes of rx_len. */
  function LeftAfter(m: Machine, force: bool): nat {
    if !force && m.d.fifoBuf == Null && |m.hw.rxFifo| < 119 then m.d.rxLen
    else if |m.hw.rxFifo| <= m.d.rxLen then m.d.rxLen - |m.hw.rxFifo| else 0
  }

  /** t is m but for the receive FIFO, the buffers, what rx_len has become and where the pointer is. */
  predicate OnlyRead(m: Machine, t: Machine, left: nat) {
    && t.d == m.d.(rxLen := left, fifoBuf := t.d.fifoBuf, failed := t.d.failed)
    && t.hw == m.hw.(rxFifo := t.hw.rxFifo)
    && (t.d.fifoBuf == Null <==> m.d.fifoBuf == Null)
  }

  lemma ReadBy(m: Machine, force: bool, n: nat)
    requires n == Min(|m.hw.rxFifo|, m.d.rxLen) && n > 0 && (force || !NotYet(m))
    ensures OnlyRead(m, ReadFifo(m, force), m.d.rxLen - n)
  {
    StoreTouches(m.(d := m.d.(rxLen := m.d.rxLen - n)), n);
  }

  lemma ReadNone(m: Machine, force: bool)
    requires Min(|m.hw.rxFifo|, m.d.rxLen) == 0 && (force || !NotYet(m))
    ensures OnlyRead(m, ReadFifo(m, force), m.d.rxLen)
  {
  }

  lemma ReadNotYet(m: Machine)
    requires NotYet(m)
    ensures OnlyRead(m, ReadFifo(m, false), m.d.rxLen)
  {
  }

  /** A read only ever touches rx_len, the pointer, the FIFO and the buffer, and never makes the pointer null. */
  lemma ReadTouches(m: Machine, force: bool)
    ensures OnlyRead(m, ReadFifo(m, force), LeftAfter(m, force))
  {
    if !force && NotYet(m) {
      ReadNotYet(m);
    } else {
      var n := Min(|m.hw.rxFifo|, m.d.rxLen);
      assert LeftAfter(m, force) == m.d.rxLen - n;
      if n == 0 {
        ReadNone(m, force);
      } else {
        ReadBy(m, force, n);
      }
    }
  }

  lemma StoreIntoRx(m: Machine, n: nat, p: nat)
    requires n <= |m.hw.rxFifo| && m.d.fifoBuf == InRx(p) && p + n <= |m.rxMem|
    ensures var t := Store(m, n);
            && t.rxMem == m.rxMem[..p] + m.hw.rxFifo[..n] + m.rxMem[p + n..] && t.txMem == m.txMem
            && t.d == m.d.(fifoBuf := InRx(p + n)) && t.hw == m.hw.(rxFifo := m.hw.rxFifo[n..])
  {
  }

  lemma ReadSome(m: Machine, force: bool, p: nat, n: nat)
    requires m.d.fifoBuf == InRx(p) && p + m.d.rxLen <= |m.rxMem|
    requires 0 < n <= |m.hw.rxFifo| && n <= m.d.rxLen && (n == |m.hw.rxFifo| || n == m.d.rxLen)
    ensures var t := ReadFifo(m, force);
            && t.rxMem == m.rxMem[..p] + m.hw.rxFifo[..n] + m.rxMem[p + n..] && t.txMem == m.txMem
            && t.d == m.d.(rxLen := m.d.rxLen - n, fifoBuf := InRx(p + n)) && t.hw == m.hw.(rxFifo := [])
  {
    var left := m.(d := m.d.(rxLen := m.d.rxLen - n));
    StoreIntoRx(left, n, p);
    assert ReadFifo(m, force) == Store(left, n).(hw := m.hw.(rxFifo := []));
  }

  /** Otherwise the FIFO ends up empty; its first bytes, as many as rx_len allows, are in the buffer, and the pointer
      and rx_len have moved by that many. Nothing else changes. */
  lemma ReadIntoRx(m: Machine, force: bool, p: nat)
    requires m.d.fifoBuf == InRx(p) && p + m.d.rxLen <= |m.rxMem|
    ensures var n := if |m.hw.rxFifo| <= m.d.rxLen then |m.hw.rxFifo| else m.d.rxLen;
            var t := ReadFifo(m, force);
            && t.rxMem == m.rxMem[..p] + m.hw.rxFifo[..n] + m.rxMem[p + n..] && t.txMem == m.txMem
            && t.d == m.d.(rxLen := m.d.rxLen - n, fifoBuf := InRx(p + n)) && t.hw == m.hw.(rxFifo := [])
  {
    var n := if |m.hw.rxFifo| <= m.d.rxLen then |m.hw.rxFifo| else m.d.rxLen;
    if n > 0 {
      ReadSome(m, force, p, n);
    } else {
      ReadsNothing(m, force);
      assert m.rxMem[..p] + m.hw.rxFifo[..0] + m.rxMem[p + 0..] == m.rxMem;
    }
  }

  lemma ReadsNothing(m: Machine, force: bool)
    requires (m.hw.rxFifo == [] || m.d.rxLen == 0) && (force || m.d.fifoBuf != Null)
    ensures ReadFifo(m, force) == m.(hw := m.hw.(rxFifo := []))
  {
  }

  lemma ReadDiscards(m: Machine, force: bool)
    requires m.d.rxLen == 0 && (force || m.d.fifoBuf != Null || |m.hw.rxFifo| >= 119)
    ensures ReadFifo(m, force) == m.(hw := m.hw.(rxFifo := []))
  {
  }

  // ---- uart_isr ----

  /** start_bg_rx. */
  lemma StartBgRxIs(m: Machine)
    requires !m.d.inTx
    ensures var t := StartBgRx(m);
            && t.d.seenLow
            && t.hw.ena == m.hw.ena.(brkDet := true, rxFifoTout := true, frmErr := true, rxFifoFull := true)
            && t.hw.raw == m.hw.raw && t.hw.tied == m.hw.tied && !t.d.inTx
            && t.d.cbFall == (m.d.cbFall || m.d.fifoBuf == Null) && t.d.timer0 == (m.d.timer0 || m.d.fifoBuf == Null)
  {
    ReadTouches(m, true);
  }

  lemma RefillKeepsQuiet(m: Machine)
    requires !m.d.seenLow
    ensures !FillFifo(m).d.seenLow
  {
  }

  /** What the handler does first leaves the record and the interrupts as they are, but for what it acknowledges. */
  lemma AcknowledgeIs(m: Machine)
    ensures var a := Acknowledge(m);
            && a.d == m.d.(rxLen := LeftAfter(m, false), fifoBuf := a.d.fifoBuf, failed := a.d.failed)
            && (a.d.fifoBuf == Null <==> m.d.fifoBuf == Null) && a.hw.ena == m.hw.ena
  {
    ReadTouches(m.(hw := m.hw.(raw := Minus(m.hw.raw, Status(m)))), false);
  }

  /** A break on a quiet line opens a reception: every interrupt that can end it is on, and jd_line_falling is
      scheduled when there is no buffer. Nothing else opens one. */
  lemma FrameStartsIff(m: Machine)
    requires !m.d.seenLow && !m.d.inTx
    ensures var t := Isr(m);
            && (t.d.seenLow <==> m.hw.raw.brkDet && m.hw.ena.brkDet)
            && (t.d.seenLow ==>
                  && t.hw.ena.brkDet && t.hw.ena.rxFifoTout && t.hw.ena.frmErr && t.hw.ena.rxFifoFull
                  && (m.d.fifoBuf == Null ==> t.d.cbFall && t.d.timer0)
                  && (m.d.fifoBuf != Null ==> t.d.cbFall == m.d.cbFall && t.d.timer0 == m.d.timer0))
  {
    var a := Acknowledge(m);
    AcknowledgeIs(m);
    if m.hw.raw.brkDet && m.hw.ena.brkDet {
      StartBgRxIs(a);
      assert Isr(m) == StartBgRx(a);
    } else {
      StaysQuiet(m);
    }
  }

  lemma StaysQuiet(m: Machine)
    requires !m.d.seenLow && !(m.hw.raw.brkDet && m.hw.ena.brkDet)
    ensures !Isr(m).d.seenLow
  {
    var a := Acknowledge(m);
    AcknowledgeIs(m);
    RefillKeepsQuiet(a.(hw := a.hw.(ena := a.hw.ena.(txFifoEmpty := false))));
  }

  /** While a reception is open and no transmit interrupt is raised and enabled, exactly a break, a timeout or a
      framing error that is raised and enabled ends it. What was left of the buffer is in data_left; cb_rx is
      scheduled when there is a buffer, and otherwise rx_ended remembers the end. Only the break interrupt stays on. */
  lemma FrameEndsIff(m: Machine)
    requires m.d.seenLow
    requires !(m.hw.raw.txBrkDone && m.hw.ena.txBrkDone) && !(m.hw.raw.txFifoEmpty && m.hw.ena.txFifoEmpty)
    ensures var raw, ena, t := m.hw.raw, m.hw.ena, Isr(m);
            && (!t.d.seenLow <==>
                  (raw.brkDet && ena.brkDet) || (raw.rxFifoTout && ena.rxFifoTout) || (raw.frmErr && ena.frmErr))
            && (!t.d.seenLow ==>
                  && (if m.d.fifoBuf != Null then t.d.cbRx && t.d.timer0 && !t.d.rxEnded
                      else t.d.rxEnded && t.d.cbRx == m.d.cbRx && t.d.timer0 == m.d.timer0)
                  && t.d.dataLeft == LeftAfter(m, false)
                  && t.d.fifoBuf == Null && t.d.rxLen == 0 && t.d.txLen == 0 && !t.d.cbFall && t.hw.rxFifo == []
                  && t.hw.ena == Irqs(true, false, false, false, false, false))
  {
    var acked := m.(hw := m.hw.(raw := Minus(m.hw.raw, Status(m))));
    ReadTouches(acked, false);
  }

  lemma EndTxIs(m: Machine)
    ensures var t := EndTx(m);
            && !t.d.inTx && t.d.cbTx && t.d.timer0 && !t.hw.txBreak && !t.hw.tied && t.d.fifoBuf == Null
            && t.hw.ena == Irqs(true, false, false, false, false, false)
  {
  }

  lemma RefillKeepsInTx(m: Machine)
    ensures FillFifo(m).d.inTx == m.d.inTx
  {
  }

  lemma EndFrameKeepsInTx(m: Machine)
    ensures EndFrame(m).d.inTx == m.d.inTx
  {
  }

  /** The end of the break ends a transmission, and nothing else does: in_tx and the break are off, cb_tx is
      scheduled. */
  lemma TransmissionEndsIff(m: Machine)
    requires m.d.inTx && !(!m.d.seenLow && m.hw.raw.brkDet && m.hw.ena.brkDet)
    ensures var t := Isr(m);
            && (!t.d.inTx <==> m.hw.raw.txBrkDone && m.hw.ena.txBrkDone)
            && (!t.d.inTx ==> t.d.cbTx && t.d.timer0 && !t.hw.txBreak && !t.hw.tied && t.d.fifoBuf == Null
                              && t.hw.ena == Irqs(true, false, false, false, false, false))
  {
    var a := Acknowledge(m);
    AcknowledgeIs(m);
    if m.hw.raw.txBrkDone && m.hw.ena.txBrkDone {
      EndTxIs(a);
      assert Isr(m) == EndTx(a);
    } else {
      RefillKeepsInTx(a.(hw := a.hw.(ena := a.hw.ena.(txFifoEmpty := false))));
      EndFrameKeepsInTx(a);
    }
  }

  /** Every interrupt that was raised and enabled is acknowledged when no other section runs, and those that were
      only raised stay. */
  lemma OtherwiseOnlyReads(m: Machine)
    requires m.d.seenLow && !(m.hw.raw.brkDet && m.hw.ena.brkDet)
    requires !(m.hw.raw.txBrkDone && m.hw.ena.txBrkDone) && !(m.hw.raw.txFifoEmpty && m.hw.ena.txFifoEmpty)
    requires !(m.hw.raw.rxFifoTout && m.hw.ena.rxFifoTout) && !(m.hw.raw.frmErr && m.hw.ena.frmErr)
    ensures var raw := m.hw.raw.(rxFifoFull := m.hw.raw.rxFifoFull && !m.hw.ena.rxFifoFull);
            Isr(m) == ReadFifo(m.(hw := m.hw.(raw := raw)), false)
  {
  }

  // ---- fill_fifo ----

  lemma RefillBy(m: Machine, p: nat, n: nat)
    requires m.d.fifoBuf == InTx(p) && p + m.d.txLen <= |m.txMem| && m.d.txLen > 0
    requires n <= m.d.txLen && |m.hw.txFifo| + n <= 128 && (n == m.d.txLen || |m.hw.txFifo| + n == 128)
    ensures FillFifo(m) == Feed(m, n).(hw := AwaitIrqs(Feed(m, n).hw, n == m.d.txLen))
  {
    assert Chunk(m) == n && Reaches(m, n);
  }

  /** A refill writes the next bytes of the buffer, as many as the 128 bytes of the FIFO still take; with the last
      one it asks for one break and waits for its end. */
  lemma RefillIs(m: Machine, p: nat)
    requires m.d.fifoBuf == InTx(p) && p + m.d.txLen <= |m.txMem| && m.d.txLen > 0 && |m.hw.txFifo| <= 128
    ensures var n := if 128 - |m.hw.txFifo| <= m.d.txLen then 128 - |m.hw.txFifo| else m.d.txLen;
            var last, t := n == m.d.txLen, FillFifo(m);
            && t.hw.txFifo == m.hw.txFifo + m.txMem[p..p + n]
            && t.d == m.d.(txLen := m.d.txLen - n, fifoBuf := InTx(p + n))
            && t.hw.breaks == m.hw.breaks + (if last then 1 else 0) && t.hw.txBreak == (m.hw.txBreak || last)
            && t.hw.ena == m.hw.ena.(txFifoEmpty := true, txBrkDone := m.hw.ena.txBrkDone || last)
            && t.hw.raw == m.hw.raw.(txFifoEmpty := false, txBrkDone := m.hw.raw.txBrkDone && !last)
            && t.hw.rxFifo == m.hw.rxFifo && t.hw.tied == m.hw.tied && t.txMem == m.txMem && t.rxMem == m.rxMem
  {
    var n := if 128 - |m.hw.txFifo| <= m.d.txLen then 128 - |m.hw.txFifo| else m.d.txLen;
    RefillBy(m, p, n);
    FeedIs(m, n, p);
    AwaitIs(Feed(m, n).hw, n == m.d.txLen);
  }

  lemma FeedIs(m: Machine, n: nat, p: nat)
    requires m.d.fifoBuf == InTx(p) && n <= m.d.txLen && p + n <= |m.txMem|
    ensures var t := Feed(m, n);
            && t.hw == m.hw.(txFifo := m.hw.txFifo + m.txMem[p..p + n])
            && t.d == m.d.(txLen := m.d.txLen - n, fifoBuf := InTx(p + n))
            && t.txMem == m.txMem && t.rxMem == m.rxMem
  {
  }

  lemma AwaitIs(hw: Uart, last: bool)
    ensures var t := AwaitIrqs(hw, last);
            && t.breaks == hw.breaks + (if last then 1 else 0) && t.txBreak == (hw.txBreak || last)
            && t.ena == hw.ena.(txFifoEmpty := true, txBrkDone := hw.ena.txBrkDone || last)
            && t.raw == hw.raw.(txFifoEmpty := false, txBrkDone := hw.raw.txBrkDone && !last)
            && t.rxFifo == hw.rxFifo && t.txFifo == hw.txFifo && t.tied == hw.tied
  {
  }

  /** The FIFO running empty, raised and enabled, refills it. */
  lemma EmptyFifoRefills(m: Machine, p: nat)
    requires m.d.inTx && m.d.rxLen == 0 && !(!m.d.seenLow && m.hw.raw.brkDet && m.hw.ena.brkDet)
    requires !(m.hw.raw.txBrkDone && m.hw.ena.txBrkDone) && m.hw.raw.txFifoEmpty && m.hw.ena.txFifoEmpty
    requires m.d.fifoBuf == InTx(p) && p + m.d.txLen <= |m.txMem| && |m.hw.txFifo| <= 128
    ensures var n := if 128 - |m.hw.txFifo| <= m.d.txLen then 128 - |m.hw.txFifo| else m.d.txLen;
            Isr(m).hw.txFifo == m.hw.txFifo + m.txMem[p..p + n] && Isr(m).d.txLen == m.d.txLen - n
  {
    var acked := m.(hw := m.hw.(raw := Minus(m.hw.raw, Status(m))));
    ReadDiscards(acked, false);
    if m.d.txLen > 0 {
      var a := Acknowledge(m);
      RefillIs(a.(hw := a.hw.(ena := a.hw.ena.(txFifoEmpty := false))), p);
    } else {
      assert m.txMem[p..p] == [];
    }
  }

  // ---- the client's calls ----

  /** uart_disable. */
  lemma DisableIs(m: Machine)
    ensures var d, hw, t := m.d, m.hw, Disable(m);
            && t.d == Context(false, false, d.inTx, 0, 0, d.dataLeft, Null, d.cbRx, d.cbTx, false, d.timer0, d.failed)
            && t.hw.rxFifo == [] && !t.hw.tied && t.hw.ena == Irqs(true, false, false, false, false, false)
            && (t.hw.raw.brkDet <==> hw.raw.brkDet && !hw.ena.brkDet)
            && (t.hw.raw.txBrkDone <==> hw.raw.txBrkDone && !hw.ena.txBrkDone)
            && (t.hw.raw.txFifoEmpty <==> hw.raw.txFifoEmpty && !hw.ena.txFifoEmpty)
            && (t.hw.raw.rxFifoTout <==> hw.raw.rxFifoTout && !hw.ena.rxFifoTout)
            && (t.hw.raw.frmErr <==> hw.raw.frmErr && !hw.ena.frmErr)
            && (t.hw.raw.rxFifoFull <==> hw.raw.rxFifoFull && !hw.ena.rxFifoFull)
            && t.hw.txFifo == hw.txFifo && t.hw.txBreak == hw.txBreak && t.hw.breaks == hw.breaks
            && t.txMem == m.txMem && t.rxMem == m.rxMem
  {
  }

  /** uart_start_tx panics in mid-transmission, refuses while the line is low, opens a reception when it loses the
      line, and otherwise accepts: the receiver is tied high, no interrupt is pending, and the first bytes of the
      client's data are on their way. */
  lemma StartTxIs(m: Machine, data: seq<byte>, lateBreak: bool, fell: bool)
    requires m.hw.txFifo == [] && !m.hw.txBreak && !m.d.failed
    ensures TxAccepted(m, fell) <==> !m.d.inTx && StartTx(m, data, lateBreak, fell).d.inTx
    ensures var t := StartTx(m, data, lateBreak, fell);
            var len := |data| % 65536;
            var n := if len <= 128 then len else 128;
            if m.d.txLen > 0 || m.d.inTx then t.d.failed && t.hw == m.hw
            else if m.d.seenLow || m.hw.raw.brkDet then t == m
            else if fell then
              && t.d.seenLow && !t.hw.tied && t.hw.raw.brkDet == lateBreak && !t.d.inTx
              && (m.d.fifoBuf == Null ==> t.d.cbFall && t.d.timer0)
            else
              && t.d.inTx && t.hw.tied && t.txMem == data && !t.d.failed && !t.d.seenLow
              && t.hw.txFifo == data[..n] && t.d.txLen == len - n
              && t.hw.raw == Irqs(false, false, false, false, false, false)
              && (t.hw.txBreak <==> 0 < len <= 128)
  {
    if m.d.txLen == 0 && !m.d.inTx && !m.d.seenLow && !m.hw.raw.brkDet {
      if fell {
        StartBgRxIs(m.(hw := m.hw.(tied := false, raw := m.hw.raw.(brkDet := lateBreak))));
      } else if |data| % 65536 > 0 {
        RefillIs(m.(d := m.d.(inTx := true, fifoBuf := InTx(0), txLen := |data| % 65536),
                    hw := m.hw.(tied := true, raw := NONE), txMem := data), 0);
        var len := |data| % 65536;
        assert data[0..if 128 <= len then 128 else len] == data[..if len <= 128 then len else 128];
      }
    }
  }

  /** uart_start_rx panics while a reception or a transmission has bytes left; otherwise it installs the buffer with
      its length in 16 bits, and reads what is in the FIFO into it. A frame that ended before is given up. */
  lemma StartRxIs(m: Machine, buffer: seq<byte>)
    ensures RxCheck(m).d.failed <==> m.d.failed || m.d.rxLen > 0 || m.d.txLen > 0
    ensures RxArm(m, buffer) == m.(d := m.d.(fifoBuf := InRx(0), rxLen := |buffer| % 65536), rxMem := buffer)
    ensures FlushRx(m) == ReadFifo(m, true)
    ensures RxFinish(m) == if !m.d.rxEnded then m
                           else m.(d := m.d.(seenLow := false, rxEnded := false, rxLen := 0, fifoBuf := Null))
  {
  }
}
