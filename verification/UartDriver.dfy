// The UART driver as the firmware writes it: one static record, the peripheral's registers, and the
// client's buffers, all updated in place. Each method is proved against its section in UartState.

module UartDriver {
  import opened Bytes
  import opened UartState

  class Driver {
    var context: Context
    var hw: Uart

    // the buffers last handed to uart_start_tx and uart_start_rx, where context.fifoBuf may point
    var txBuf: array<byte>
    var rxBuf: array<byte>

    ghost predicate Valid()
      reads this
    {
      txBuf != rxBuf && |hw.txFifo| <= FIFO_LEN
    }

    ghost function View(): Machine
      reads this, txBuf, rxBuf
    {
      Machine(context, hw, txBuf[..], rxBuf[..])
    }

    constructor ()
      ensures Valid() && View() == INITIAL && fresh(txBuf) && fresh(rxBuf)
    {
      context, hw := INITIAL.d, INITIAL.hw;
      var t := new byte[0];
      var r := new byte[0];
      txBuf, rxBuf := t, r;
    }

    /** uart_ll_read_rxfifo, byte by byte. */
    method CopyOut(buf: array<byte>, p: nat, n: nat)
      requires n <= |hw.rxFifo| && p + n <= buf.Length
      modifies buf
      ensures buf[..] == Overwrite(old(buf[..]), p, hw.rxFifo[..n])
    {
      for i := 0 to n
        invariant forall k :: 0 <= k < i ==> buf[p + k] == hw.rxFifo[k]
        invariant forall k :: 0 <= k < buf.Length && !(p <= k < p + i) ==> buf[k] == old(buf[k])
      {
        buf[p + i] := hw.rxFifo[i];
      }
      ghost var r := Overwrite(old(buf[..]), p, hw.rxFifo[..n]);
      forall k | 0 <= k < buf.Length ensures buf[k] == r[k] {
        assert p <= k < p + n ==> buf[p + (k - p)] == hw.rxFifo[k - p];
      }
    }

    /** The store into the buffer fifo_buf points into, from position p on; the pointer moves on. */
    method StoreInto(buf: array<byte>, p: nat, n: nat, end: Pointer)
      requires n <= |hw.rxFifo|
      modifies this`context, buf
      ensures if p + n <= buf.Length
              then buf[..] == Overwrite(old(buf[..]), p, hw.rxFifo[..n]) && context == old(context).(fifoBuf := end)
              else buf[..] == old(buf[..]) && context == old(context).(failed := true)
    {
      if p + n > buf.Length {
        context := context.(failed := true);
      } else {
        CopyOut(buf, p, n);
        context := context.(fifoBuf := end);
      }
    }

    method ReadIntoTx(n: nat)
      requires Valid() && n <= |hw.rxFifo| && context.fifoBuf.InTx?
      modifies this`context, this`hw, txBuf
      ensures Valid() && View() == Store(old(View()), n)
    {
      var p := context.fifoBuf.pos;
      StoreInto(txBuf, p, n, InTx(p + n));
      hw := hw.(rxFifo := hw.rxFifo[n..]);
      assert rxBuf[..] == old(rxBuf[..]);
    }

    method ReadIntoRx(n: nat)
      requires Valid() && n <= |hw.rxFifo| && context.fifoBuf.InRx?
      modifies this`context, this`hw, rxBuf
      ensures Valid() && View() == Store(old(View()), n)
    {
      var p := context.fifoBuf.pos;
      StoreInto(rxBuf, p, n, InRx(p + n));
      hw := hw.(rxFifo := hw.rxFifo[n..]);
      assert txBuf[..] == old(txBuf[..]);
    }

    /** The store of read_fifo: fifo_buf may point into either buffer, and moves on. */
    method ReadBytes(n: nat)
      requires Valid() && n <= |hw.rxFifo|
      modifies this`context, this`hw, txBuf, rxBuf
      ensures Valid() && View() == Store(old(View()), n)
    {
      match context.fifoBuf {
        case Null =>
          context := context.(failed := true);
          hw := hw.(rxFifo := hw.rxFifo[n..]);
        case InTx(_) => ReadIntoTx(n);
        case InRx(_) => ReadIntoRx(n);
      }
    }

    /** n bytes are read off rxLen and stored. */
    method TakeBytes(n: nat)
      requires Valid() && n <= |hw.rxFifo| && n <= context.rxLen
      modifies this`context, this`hw, txBuf, rxBuf
      ensures Valid()
      ensures View() == Store(old(View()).(d := old(context).(rxLen := old(context).rxLen - n)), n)
    {
      context := context.(rxLen := context.rxLen - n);
      ReadBytes(n);
    }

    /** read_fifo. */
    method ReadFifo(force: bool)
      requires Valid()
      modifies this`context, this`hw, txBuf, rxBuf
      ensures Valid() && View() == UartState.ReadFifo(old(View()), force)
    {
      if !force && context.fifoBuf.Null? && |hw.rxFifo| < FULL_THRESH - 1 {
        return;
      }
      if hw.rxFifo != [] {
        var n := |hw.rxFifo|;
        var needsReset := false;
        if n > context.rxLen {
          n := context.rxLen;
          needsReset := true;
        }
        if n > 0 {
          TakeBytes(n);
          assert hw.rxFifo == old(hw).rxFifo[n..];
        }
        assert !needsReset ==> hw.rxFifo == [];
        if needsReset {
          hw := hw.(rxFifo := []);
        }
      }
    }

    /** The n bytes fifo_buf points at. */
    method Peek(n: nat) returns (chunk: seq<byte>)
      requires Valid() && Reaches(View(), n)
      ensures chunk == Memory(View())[context.fifoBuf.pos..context.fifoBuf.pos + n]
    {
      var p := context.fifoBuf.pos;
      if context.fifoBuf.InTx? {
        chunk := txBuf[p..p + n];
        assert chunk == txBuf[..][p..p + n];
      } else {
        chunk := rxBuf[p..p + n];
        assert chunk == rxBuf[..][p..p + n];
      }
    }

    /** uart_ll_write_txfifo, and the pointer moves on. */
    method Feed(n: nat)
      requires Valid() && n <= Chunk(View())
      requires Reaches(View(), n)
      modifies this`context, this`hw
      ensures Valid() && View() == UartState.Feed(old(View()), n)
    {
      var chunk := Peek(n);
      hw := hw.(txFifo := hw.txFifo + chunk);
      context := context.(fifoBuf := Advance(context.fifoBuf, n));
      context := context.(txLen := context.txLen - n);
    }

    /** fill_fifo. */
    method FillFifo()
      requires Valid()
      modifies this`context, this`hw
      ensures Valid() && View() == UartState.FillFifo(old(View()))
    {
      if context.txLen == 0 {
        return;
      }
      var space := FIFO_LEN - |hw.txFifo|;
      if context.txLen < space {
        space := context.txLen;
      }
      var length := if context.fifoBuf.InTx? then txBuf.Length else rxBuf.Length;
      if context.fifoBuf.Null? || context.fifoBuf.pos + space > length {
        context := context.(failed := true);
        return;
      }
      assert space == Chunk(View());
      Feed(space);
      assert View() == UartState.Feed(old(View()), Chunk(old(View())));
      hw := AwaitIrqs(hw, context.txLen == 0);
    }

    /** uart_disable. */
    method Disable()
      requires Valid()
      modifies this`context, this`hw, txBuf, rxBuf
      ensures Valid() && View() == UartState.Disable(old(View()))
    {
      hw := hw.(raw := Minus(hw.raw, hw.ena));
      hw := hw.(ena := BREAK_ONLY);
      context := context.(seenLow := false);
      context := context.(cbFall := false);
      context := context.(rxLen := 0, txLen := 0);
      context := context.(fifoBuf := Null);
      context := context.(rxEnded := false);
      ReadFifo(true);
      hw := hw.(tied := false);
    }

    /** start_bg_rx. */
    method StartBgRx()
      requires Valid()
      modifies this`context, this`hw, txBuf, rxBuf
      ensures Valid() && View() == UartState.StartBgRx(old(View()))
    {
      if context.inTx {
        context := context.(failed := true);
        return;
      }
      ReadFifo(true);
      context := context.(seenLow := true);
      hw := hw.(ena := ListenTo(hw.ena));
      if context.fifoBuf.Null? {
        context := context.(cbFall := true);
        context := ScheduleTimer0(context);
      }
    }

    /** The handler's branch for the end of a transmission. */
    method EndTx()
      requires Valid()
      modifies this`context, this`hw, txBuf, rxBuf
      ensures Valid() && View() == UartState.EndTx(old(View()))
    {
      hw := hw.(txBreak := false);
      context := context.(inTx := false);
      Disable();
      context := context.(cbTx := true);
      context := ScheduleTimer0(context);
    }

    /** The handler's branch for the end of a frame. */
    method EndFrame()
      requires Valid()
      modifies this`context, this`hw, txBuf, rxBuf
      ensures Valid() && View() == UartState.EndFrame(old(View()))
    {
      context := context.(dataLeft := context.rxLen);
      var hadBuf := context.fifoBuf != Null;
      Disable();
      if hadBuf {
        context := context.(cbRx := true);
        context := ScheduleTimer0(context);
      } else {
        context := context.(rxEnded := true);
      }
    }

    /** uart_isr. */
    method Isr()
      requires Valid()
      modifies this`context, this`hw, txBuf, rxBuf
      ensures Valid() && View() == UartState.Isr(old(View()))
    {
      var status := And(hw.raw, hw.ena);
      hw := hw.(raw := Minus(hw.raw, status));
      ghost var acked := View();
      ReadFifo(false);
      ReadKeepsSeenLow(acked, false);
      assert View() == Acknowledge(old(View()));
      if !context.seenLow && status.brkDet {
        StartBgRx();
      } else if status.txBrkDone {
        EndTx();
      } else if status.txFifoEmpty {
        hw := hw.(ena := hw.ena.(txFifoEmpty := false));
        FillFifo();
      } else if EndRxFlag(status) {
        EndFrame();
      }
    }

    /** The rest of uart_start_tx once the line is won. */
    method BeginTx(data: array<byte>)
      requires Valid() && data != rxBuf
      modifies this`context, this`hw, this`txBuf
      ensures Valid() && txBuf == data && View() == UartState.BeginTx(old(View()), data[..])
    {
      context := context.(inTx := true);
      hw := hw.(tied := true);
      context, txBuf := context.(fifoBuf := InTx(0)), data;
      context := context.(txLen := Uint16(data.Length));
      hw := hw.(raw := NONE);
      FillFifo();
    }

    /** uart_start_tx; lateBreak and fell are what the line does between its tests. */
    method StartTx(data: array<byte>, lateBreak: bool, fell: bool) returns (r: int)
      requires Valid() && data != rxBuf
      modifies this, txBuf, rxBuf
      ensures Valid() && rxBuf == old(rxBuf) && txBuf == if r == 0 then data else old(txBuf)
      ensures View() == UartState.StartTx(old(View()), old(data[..]), lateBreak, fell)
      ensures r == 0 <==> old(TxAccepted(View(), fell))
    {
      if context.txLen > 0 || context.inTx {
        context := context.(failed := true);
        return -1;
      }
      if context.seenLow || hw.raw.brkDet {
        return -1;
      }
      if fell {
        // the line went down in the meantime: tx_race reconnects the pin
        hw := hw.(tied := false, raw := hw.raw.(brkDet := lateBreak));
        StartBgRx();
        return -1;
      }
      BeginTx(data);
      return 0;
    }

    /** uart_start_rx, second section: hand over the buffer. */
    method ArmRx(data: array<byte>)
      requires Valid() && data != txBuf
      modifies this`context, this`rxBuf
      ensures Valid() && rxBuf == data && View() == RxArm(old(View()), data[..])
    {
      context, rxBuf := context.(fifoBuf := InRx(0)), data;
      context := context.(rxLen := Uint16(data.Length));
    }

    /** uart_start_rx, last section: a frame that ended before the buffer came is given up. */
    method FinishRx()
      requires Valid()
      modifies this`context
      ensures Valid() && View() == RxFinish(old(View()))
    {
      if context.rxEnded {
        context := context.(seenLow := false);
        context := context.(rxEnded := false);
        context := context.(rxLen := 0);
        context := context.(fifoBuf := Null);
      }
    }

    /** uart_start_rx, when no interrupt falls between its sections. */
    method StartRx(data: array<byte>)
      requires Valid() && data != txBuf
      modifies this, txBuf, data
      ensures Valid() && txBuf == old(txBuf)
      ensures if old(context.rxLen > 0 || context.txLen > 0) then View() == Fail(old(View())) && rxBuf == old(rxBuf)
              else View() == RxFinish(FlushRx(RxArm(old(View()), old(data[..])))) && rxBuf == data
    {
      if context.rxLen > 0 || context.txLen > 0 {
        context := context.(failed := true);
        return;
      }
      ArmRx(data);
      ReadFifo(true);
      FinishRx();
    }
  }
}
