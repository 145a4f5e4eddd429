// Every interleaving of the UART driver's uninterruptible sections with the hardware, and the
// invariant that all of them keep.
//
// jd_timer0, jd_line_falling (jacdac-c, not part of this model) and everything the client calls
// run in one task; `Task` is that task's program counter. The environment rules are the guards
// in `Allowed`.

module UartProtocol {
  import opened Bytes
  import opened UartState

  datatype Task = Idle
                | AtRx | AtTx | AtFall   // jd_timer0, before its three tests
                | Falling                // in jd_line_falling, before uart_start_rx
                | Checked(buffer: seq<byte>) | Armed | Flushed  // in uart_start_rx

  datatype Event =
    // hardware
    | ByteArrives(b: byte) | Raise(irq: Irq) | Shift(k: nat) | Interrupt
    // the timer task
    | TimerFires | CheckRx | CheckTx | CheckFall
    | RxCheckLengths(buffer: seq<byte>) | RxSupply | RxFlush | RxReturn
    // other client calls
    | Transmit(data: seq<byte>, lateBreak: bool, fell: bool) | ClientDisable

  /** What an observer of the line and of the calls has seen. */
  datatype History = History(
    received: seq<byte>,  // bytes received since the falling-edge flush
    lost: bool,           // since that flush, the receive FIFO overflowed or was emptied without a buffer
    txData: seq<byte>,    // data of the last accepted transmission
    wire: seq<byte>,      // bytes of it that left the transmit FIFO
    accepted: nat,        // calls of uart_start_tx that returned 0
    completed: nat,       // calls of jd_tx_completed
    busy: bool)           // the client's own view: one was accepted and jd_tx_completed has not been called since

  datatype System = System(m: Machine, task: Task, h: History)

  const START := System(INITIAL, Idle, History([], false, [], [], 0, 0, false))

  /** jd_line_falling has begun and uart_start_rx has not returned. */
  predicate InLineFalling(t: Task) {
    t.Falling? || t.Checked? || t.Armed? || t.Flushed?
  }

  /** cb_fall is consumed before the frame that set it ends. */
  predicate FallConsumedBeforeEnd(s: System) {
    IsrEndsFrame(s.m) ==> !s.m.d.cbFall
  }

  /** No second break arrives before uart_start_rx has answered the first. */
  predicate BreakAnswered(s: System) {
    IsrStartsFrame(s.m) ==> !InLineFalling(s.task)
  }

  /** Which of the two timing rules the environment keeps. */
  datatype Rules = Rules(fallConsumed: bool, breakAnswered: bool)

  const ALL_RULES := Rules(true, true)

  predicate Allowed(s: System, e: Event, rules: Rules) {
    match e
    case ByteArrives(_) => !s.m.hw.tied                                // RX reads idle while tied high
    case Raise(irq) =>
      && (irq == BrkDet || irq == FrmErr ==> !s.m.hw.tied)
      && (irq == TxBrkDone ==> s.m.hw.txBreak && s.m.hw.txFifo == [])  // the break follows the last byte
    case Shift(k) => k <= |s.m.hw.txFifo|
    case Interrupt =>
      && (rules.fallConsumed ==> FallConsumedBeforeEnd(s))
      && (rules.breakAnswered ==> BreakAnswered(s))
    case TimerFires => s.task.Idle? && s.m.d.timer0
    case CheckRx => s.task.AtRx?
    case CheckTx => s.task.AtTx?
    case CheckFall => s.task.AtFall?
    case RxCheckLengths(_) => s.task.Falling?                          // called only from jd_line_falling
    case RxSupply => s.task.Checked?
    case RxFlush => s.task.Armed?
    case RxReturn => s.task.Flushed?
    case Transmit(_, _, _) => !InLineFalling(s.task) && !s.h.busy      // the client sends one packet at a time
    case ClientDisable => !InLineFalling(s.task) && !s.m.d.inTx        // never in mid-transmit
  }

  predicate Enabled(s: System, e: Event) {
    Allowed(s, e, ALL_RULES)
  }

  /** The history after machine m took the place of s.m: a falling edge opens a new reception. */
  function Observe(s: System, m: Machine): System {
    var opens := !s.m.d.seenLow && m.d.seenLow;
    System(m, s.task,
           s.h.(received := if opens then [] else s.h.received,
                lost := s.h.lost && !opens))
  }

  /** The interrupt handler empties the FIFO when it is nearly full and no buffer is there yet. */
  predicate DropsUnbuffered(m: Machine) {
    m.d.seenLow && m.d.fifoBuf.Null? && |m.hw.rxFifo| >= FULL_THRESH - 1
  }

  function Receive(s: System, b: byte): System {
    var fits := |s.m.hw.rxFifo| < FIFO_LEN;
    s.(m := s.m.(hw := s.m.hw.(rxFifo := if fits then s.m.hw.rxFifo + [b] else s.m.hw.rxFifo)),
       h := s.h.(received := s.h.received + [b], lost := s.h.lost || !fits))
  }

  function SetRecord(s: System, d: Context, task: Task): System {
    System(s.m.(d := d), task, s.h)
  }

  function Raised(s: System, irq: Irq): System {
    s.(m := s.m.(hw := s.m.hw.(raw := Plus(s.m.hw.raw, irq))))
  }

  /** k bytes leave the transmit FIFO for the wire. */
  function ShiftOut(s: System, k: nat): System {
    var j := Min(k, |s.m.hw.txFifo|);
    s.(m := s.m.(hw := s.m.hw.(txFifo := s.m.hw.txFifo[j..])), h := s.h.(wire := s.h.wire + s.m.hw.txFifo[..j]))
  }

  function Interrupted(s: System): System {
    Observe(s.(h := s.h.(lost := s.h.lost || DropsUnbuffered(s.m))), Isr(s.m))
  }

  /** jd_timer0, section by section. */
  function TimerStep(s: System, e: Event): System {
    match e
    case TimerFires => SetRecord(s, s.m.d.(timer0 := false), AtRx)
    case CheckRx => SetRecord(s, s.m.d.(cbRx := false), AtTx)
    case CheckTx =>
      if s.m.d.cbTx then
        SetRecord(s, s.m.d.(cbTx := false), AtFall).(h := s.h.(completed := s.h.completed + 1, busy := false))
      else SetRecord(s, s.m.d, AtFall)
    case CheckFall => SetRecord(s, s.m.d.(cbFall := false), if s.m.d.cbFall then Falling else Idle)
    case _ => s
  }

  /** uart_start_rx, section by section. */
  function StartRxStep(s: System, e: Event): System {
    match e
    case RxCheckLengths(buffer) => s.(m := RxCheck(s.m), task := Checked(buffer))
    case RxSupply => if s.task.Checked? then s.(m := RxArm(s.m, s.task.buffer), task := Armed) else s
    case RxReturn => s.(m := RxFinish(s.m), task := Idle)
    case _ => s
  }

  function RxFlushed(s: System): System {
    s.(m := FlushRx(s.m), task := Flushed)
  }

  function Transmitted(s: System, data: seq<byte>, lateBreak: bool, fell: bool): System {
    var after := Observe(s, StartTx(s.m, data, lateBreak, fell));
    if TxAccepted(s.m, fell) then
      after.(h := after.h.(txData := data, wire := [], accepted := s.h.accepted + 1, busy := true))
    else after
  }

  function Next(s: System, e: Event): System {
    match e
    case ByteArrives(b) => Receive(s, b)
    case Raise(irq) => Raised(s, irq)
    case Shift(k) => ShiftOut(s, k)
    case Interrupt => Interrupted(s)
    case RxFlush => RxFlushed(s)
    case Transmit(data, lateBreak, fell) => Transmitted(s, data, lateBreak, fell)
    case ClientDisable => Observe(s, Disable(s.m))
    case _ => if e.RxCheckLengths? || e.RxSupply? || e.RxReturn? then StartRxStep(s, e) else TimerStep(s, e)
  }

  // ---- the invariant, part by part ----

  predicate NotTransmitting(m: Machine) {
    && !m.d.inTx && m.d.txLen == 0 && m.hw.txFifo == [] && !m.hw.txBreak && !m.hw.tied
    && !m.hw.ena.txBrkDone && !m.hw.ena.txFifoEmpty
  }

  /** While transmitting, no reception is open or expected, and fifo_buf walks the client's data. */
  predicate Transmitting(s: System) {
    var d, hw, data := s.m.d, s.m.hw, s.h.txData;
    && d.inTx && d.rxLen == 0 && !d.seenLow && !d.rxEnded && !d.cbFall && hw.tied && !InLineFalling(s.task)
    && !hw.ena.rxFifoTout && !hw.ena.frmErr && !hw.ena.rxFifoFull && !hw.raw.brkDet && !hw.raw.frmErr
    && s.m.txMem == data
    && d.fifoBuf.InTx? && d.fifoBuf.pos + d.txLen == Uint16(|data|)
    && s.h.wire + hw.txFifo == data[..d.fifoBuf.pos]
    && |hw.txFifo| <= FIFO_LEN
    && (hw.txBreak <==> d.txLen == 0 && Uint16(|data|) > 0)
    && (hw.raw.txBrkDone ==> hw.txBreak && hw.txFifo == [])
    && (hw.ena.txBrkDone <==> hw.txBreak)
  }

  /** A receive buffer is installed and pos + rxLen is the length the client gave. */
  predicate BufferInstalled(m: Machine) {
    m.d.fifoBuf.InRx? && m.d.fifoBuf.pos + m.d.rxLen == Uint16(|m.rxMem|)
  }

  predicate NoBuffer(m: Machine) {
    m.d.fifoBuf.Null? && m.d.rxLen == 0
  }

  /** Between a falling edge and the end of its frame: cb_fall is pending, then the task is on its way
      to uart_start_rx, then the buffer is there. */
  predicate Receiving(s: System) {
    var m := s.m;
    && NotTransmitting(m) && m.d.seenLow && !m.d.rxEnded
    && m.hw.ena.brkDet && m.hw.ena.rxFifoTout && m.hw.ena.frmErr && m.hw.ena.rxFifoFull
    && (if m.d.cbFall then NoBuffer(m) && !InLineFalling(s.task)
        else if s.task.Falling? || s.task.Checked? then NoBuffer(m)
        else BufferInstalled(m))
  }

  /** The line is idle, or a frame ended before uart_start_rx answered it. */
  predicate Quiet(s: System) {
    var m := s.m;
    && NotTransmitting(m) && m.hw.ena == BREAK_ONLY && !m.d.seenLow && !m.d.cbFall
    && (s.task.Falling? || s.task.Checked? ==> m.d.rxEnded)
    && (m.d.rxEnded ==> InLineFalling(s.task))
    && (if m.d.rxEnded && (s.task.Armed? || s.task.Flushed?) then BufferInstalled(m) else NoBuffer(m))
  }

  /** What a lossless reception has stored and what is still in the FIFO. */
  predicate StoredSoFar(m: Machine, received: seq<byte>) {
    if m.d.fifoBuf.InRx? then
      && m.d.fifoBuf.pos <= |m.rxMem|
      && m.rxMem[..m.d.fifoBuf.pos] <= received
      && (m.d.rxLen > 0 ==> m.rxMem[..m.d.fifoBuf.pos] + m.hw.rxFifo == received)
    else m.hw.rxFifo == received
  }

  predicate Faithful(s: System) {
    s.m.d.seenLow && !s.h.lost ==> StoredSoFar(s.m, s.h.received)
  }

  /** A callback flag that is set will be seen: the timer is armed or the task has not tested it yet. */
  predicate CallbacksPending(s: System) {
    && (s.m.d.cbRx ==> s.m.d.timer0 || s.task.AtRx?)
    && (s.m.d.cbTx ==> s.m.d.timer0 || s.task.AtRx? || s.task.AtTx?)
    && (s.m.d.cbFall ==> s.m.d.timer0 || s.task.AtRx? || s.task.AtTx? || s.task.AtFall?)
  }

  function Bit(b: bool): nat {
    if b then 1 else 0
  }

  /** The client is busy exactly while a transmission or its callback is outstanding; calls and breaks add up. */
  predicate Counts(s: System) {
    && Bit(s.m.d.inTx) + Bit(s.m.d.cbTx) == Bit(s.h.busy)
    && s.h.accepted == s.h.completed + Bit(s.h.busy)
    && s.m.hw.breaks + Bit(s.m.d.inTx) == s.h.accepted + Bit(s.m.hw.txBreak)
  }

  /** Everything but the interrupt that moves a transmission on. */
  predicate Core(s: System) {
    && !s.m.d.failed
    && (Transmitting(s) || Receiving(s) || Quiet(s))
    && Faithful(s) && CallbacksPending(s) && Counts(s)
  }

  predicate Inv(s: System) {
    Core(s) && (s.m.d.txLen > 0 ==> s.m.hw.ena.txFifoEmpty)
  }

  // ---- reading ----

  /** Without room a read stores nothing: it leaves the FIFO alone or empties it. */
  lemma ReadStoresNothing(m: Machine, force: bool)
    requires m.d.rxLen == 0
    ensures ReadFifo(m, force) == if !force && NotYet(m) then m else m.(hw := m.hw.(rxFifo := []))
  {
  }

  /** With a receive buffer a read moves what fits, in order, and drops only the tail. */
  lemma ReadStores(m: Machine, force: bool)
    requires BufferInstalled(m) && m.d.rxLen > 0 && m.hw.rxFifo != []
    ensures var p, n := m.d.fifoBuf.pos, Min(|m.hw.rxFifo|, m.d.rxLen);
            ReadFifo(m, force) == m.(hw := m.hw.(rxFifo := []),
                                     d := m.d.(rxLen := m.d.rxLen - n, fifoBuf := InRx(p + n)),
                                     rxMem := Overwrite(m.rxMem, p, m.hw.rxFifo[..n]))
  {
  }

  /** r is m after a read into the installed buffer: nothing else changed, the bookkeeping holds. */
  ghost predicate ReadDone(m: Machine, r: Machine) {
    && r == m.(hw := m.hw.(rxFifo := []), rxMem := r.rxMem, d := m.d.(rxLen := r.d.rxLen, fifoBuf := r.d.fifoBuf))
    && BufferInstalled(r)
    && (forall received :: StoredSoFar(m, received) ==> StoredSoFar(r, received))
  }

  lemma StoringKeepsPrefix(m: Machine, force: bool)
    requires BufferInstalled(m) && m.d.rxLen > 0 && m.hw.rxFifo != []
    ensures ReadDone(m, ReadFifo(m, force))
  {
    var p, n := m.d.fifoBuf.pos, Min(|m.hw.rxFifo|, m.d.rxLen);
    ReadStores(m, force);
    OverwriteKeeps(m.rxMem, p, m.hw.rxFifo[..n]);
    assert m.rxMem[..p] + m.hw.rxFifo[..n] <= m.rxMem[..p] + m.hw.rxFifo;
    if n < m.d.rxLen {
      assert m.hw.rxFifo[..n] == m.hw.rxFifo;
    }
  }

  lemma ReadIntoBuffer(m: Machine, force: bool)
    requires BufferInstalled(m)
    ensures ReadDone(m, ReadFifo(m, force))
  {
    if m.d.rxLen == 0 {
      ReadStoresNothing(m, force);
    } else if m.hw.rxFifo != [] {
      StoringKeepsPrefix(m, force);
    } else {
      assert ReadFifo(m, force) == m;
    }
  }

  // ---- while transmitting ----

  /** A refill hands the next chunk of the client's data to the FIFO; the one that reaches the end asks
      for the break. */
  lemma RefillKeepsInv(s: System)
    requires Core(s) && Transmitting(s)
    ensures Inv(s.(m := FillFifo(s.m))) && Transmitting(s.(m := FillFifo(s.m)))
  {
    if s.m.d.txLen > 0 {
      var p, n := s.m.d.fifoBuf.pos, Chunk(s.m);
      assert s.h.txData[..p] + s.h.txData[p..p + n] == s.h.txData[..p + n];
    }
  }

  lemma AcknowledgeInTx(s: System)
    requires Transmitting(s)
    ensures Acknowledge(s.m) == s.m.(hw := s.m.hw.(raw := Minus(s.m.hw.raw, Status(s.m)), rxFifo := []))
  {
    ReadStoresNothing(s.m.(hw := s.m.hw.(raw := Minus(s.m.hw.raw, Status(s.m)))), false);
  }

  lemma TxDoneInterrupt(s: System)
    requires Inv(s) && Transmitting(s) && Status(s.m).txBrkDone
    ensures Inv(Interrupted(s))
  {
    AcknowledgeInTx(s);
  }

  lemma RefillInterrupt(s: System)
    requires Inv(s) && Transmitting(s) && !Status(s.m).txBrkDone && Status(s.m).txFifoEmpty
    ensures Inv(Interrupted(s))
  {
    AcknowledgeInTx(s);
    var a := Acknowledge(s.m);
    RefillKeepsInv(s.(m := a.(hw := a.hw.(ena := a.hw.ena.(txFifoEmpty := false)))));
  }

  lemma OtherTxInterrupt(s: System)
    requires Inv(s) && Transmitting(s) && !Status(s.m).txBrkDone && !Status(s.m).txFifoEmpty
    ensures Inv(Interrupted(s))
  {
    AcknowledgeInTx(s);
  }

  // ---- while receiving ----

  lemma BufferedEnd(s: System)
    requires Inv(s) && Receiving(s) && BufferInstalled(s.m) && IsrEndsFrame(s.m)
    ensures Inv(Interrupted(s))
  {
    ReadIntoBuffer(s.m.(hw := s.m.hw.(raw := Minus(s.m.hw.raw, Status(s.m)))), false);
  }

  lemma BufferedInterrupt(s: System)
    requires Inv(s) && Receiving(s) && BufferInstalled(s.m) && !IsrEndsFrame(s.m)
    ensures Inv(Interrupted(s))
  {
    ReadIntoBuffer(s.m.(hw := s.m.hw.(raw := Minus(s.m.hw.raw, Status(s.m)))), false);
  }

  lemma UnbufferedEnd(s: System)
    requires Inv(s) && Receiving(s) && NoBuffer(s.m) && IsrEndsFrame(s.m) && FallConsumedBeforeEnd(s)
    ensures Inv(Interrupted(s))
  {
    ReadStoresNothing(s.m.(hw := s.m.hw.(raw := Minus(s.m.hw.raw, Status(s.m)))), false);
  }

  lemma UnbufferedInterrupt(s: System)
    requires Inv(s) && Receiving(s) && NoBuffer(s.m) && !IsrEndsFrame(s.m)
    ensures Inv(Interrupted(s))
  {
    ReadStoresNothing(s.m.(hw := s.m.hw.(raw := Minus(s.m.hw.raw, Status(s.m)))), false);
  }

  // ---- while quiet ----

  /** A break on a quiet line: the FIFO is flushed, the end-of-frame interrupts go on, cb_fall is scheduled. */
  lemma BgRxOpens(m: Machine)
    requires !m.d.inTx && NoBuffer(m)
    ensures StartBgRx(m) == m.(d := m.d.(seenLow := true, cbFall := true, timer0 := true),
                               hw := m.hw.(rxFifo := [], ena := ListenTo(m.hw.ena)))
  {
    ReadStoresNothing(m, true);
  }

  lemma BreakInterrupt(s: System)
    requires Inv(s) && Quiet(s) && IsrStartsFrame(s.m) && BreakAnswered(s)
    ensures Inv(Interrupted(s))
  {
    ReadStoresNothing(s.m.(hw := s.m.hw.(raw := Minus(s.m.hw.raw, Status(s.m)))), false);
    BgRxOpens(Acknowledge(s.m));
  }

  lemma QuietInterrupt(s: System)
    requires Inv(s) && Quiet(s) && !IsrStartsFrame(s.m)
    ensures Inv(Interrupted(s))
  {
    var acked := s.m.(hw := s.m.hw.(raw := Minus(s.m.hw.raw, Status(s.m))));
    if BufferInstalled(s.m) {
      ReadIntoBuffer(acked, false);
    } else {
      ReadStoresNothing(acked, false);
    }
  }

  lemma InterruptKeepsInv(s: System)
    requires Inv(s) && Enabled(s, Interrupt)
    ensures Inv(Interrupted(s))
  {
    if Transmitting(s) {
      if Status(s.m).txBrkDone { TxDoneInterrupt(s); }
      else if Status(s.m).txFifoEmpty { RefillInterrupt(s); }
      else { OtherTxInterrupt(s); }
    } else if Receiving(s) {
      if BufferInstalled(s.m) {
        if IsrEndsFrame(s.m) { BufferedEnd(s); } else { BufferedInterrupt(s); }
      } else {
        if IsrEndsFrame(s.m) { UnbufferedEnd(s); } else { UnbufferedInterrupt(s); }
      }
    } else if IsrStartsFrame(s.m) {
      BreakInterrupt(s);
    } else {
      QuietInterrupt(s);
    }
  }

  // ---- the other events ----

  lemma ByteKeepsInv(s: System, b: byte)
    requires Inv(s) && Enabled(s, ByteArrives(b))
    ensures Inv(Receive(s, b))
  {
  }

  lemma RaiseKeepsInv(s: System, irq: Irq)
    requires Inv(s) && Enabled(s, Raise(irq))
    ensures Inv(Raised(s, irq))
  {
  }

  lemma ShiftWhileTransmitting(s: System, k: nat)
    requires Inv(s) && Transmitting(s) && k <= |s.m.hw.txFifo|
    ensures Inv(ShiftOut(s, k))
  {
    assert s.m.hw.txFifo[..k] + s.m.hw.txFifo[k..] == s.m.hw.txFifo;
  }

  lemma ShiftOfNothing(s: System)
    requires s.m.hw.txFifo == []
    ensures ShiftOut(s, 0) == s
  {
    assert s.h.wire + s.m.hw.txFifo[..0] == s.h.wire;
  }

  lemma ShiftKeepsInv(s: System, k: nat)
    requires Inv(s) && k <= |s.m.hw.txFifo|
    ensures Inv(ShiftOut(s, k))
  {
    if k == 0 && s.m.hw.txFifo == [] {
      ShiftOfNothing(s);
    } else {
      assert Transmitting(s);
      ShiftWhileTransmitting(s, k);
    }
  }

  lemma FlushKeepsInv(s: System)
    requires Inv(s) && s.task.Armed?
    ensures Inv(RxFlushed(s))
  {
    if BufferInstalled(s.m) {
      ReadIntoBuffer(s.m, true);
    } else {
      ReadStoresNothing(s.m, true);
    }
  }

  lemma AcceptedTransmit(s: System, data: seq<byte>, lateBreak: bool)
    requires Inv(s) && Enabled(s, Transmit(data, lateBreak, false)) && TxAccepted(s.m, false)
    ensures Inv(Transmitted(s, data, lateBreak, false))
  {
    RefillKeepsInv(s.(m := s.m.(d := s.m.d.(inTx := true, fifoBuf := InTx(0), txLen := Uint16(|data|)),
                                hw := s.m.hw.(tied := true, raw := NONE), txMem := data),
                      h := s.h.(txData := data, wire := [], accepted := s.h.accepted + 1, busy := true)));
  }

  lemma LostRace(s: System, data: seq<byte>, lateBreak: bool)
    requires Inv(s) && Enabled(s, Transmit(data, lateBreak, true)) && !s.m.d.seenLow && !s.m.hw.raw.brkDet
    ensures Inv(Transmitted(s, data, lateBreak, true))
  {
    BgRxOpens(s.m.(hw := s.m.hw.(tied := false, raw := s.m.hw.raw.(brkDet := lateBreak))));
  }

  lemma TransmitKeepsInv(s: System, data: seq<byte>, lateBreak: bool, fell: bool)
    requires Inv(s) && Enabled(s, Transmit(data, lateBreak, fell))
    ensures Inv(Transmitted(s, data, lateBreak, fell))
  {
    if s.m.d.seenLow || s.m.hw.raw.brkDet {
    } else if fell {
      LostRace(s, data, lateBreak);
    } else {
      AcceptedTransmit(s, data, lateBreak);
    }
  }

  /** jd_timer0, and the sections of uart_start_rx that read no FIFO. */
  lemma TimerKeepsInv(s: System, e: Event)
    requires Inv(s) && Enabled(s, e) && (e.TimerFires? || e.CheckRx? || e.CheckTx? || e.CheckFall?)
    ensures Inv(TimerStep(s, e))
  {
  }

  lemma StartRxKeepsInv(s: System, e: Event)
    requires Inv(s) && Enabled(s, e) && (e.RxCheckLengths? || e.RxSupply? || e.RxReturn?)
    ensures Inv(StartRxStep(s, e))
  {
  }

  lemma StepKeepsInv(s: System, e: Event)
    requires Inv(s) && Enabled(s, e)
    ensures Inv(Next(s, e))
  {
    match e
    case ByteArrives(b) => ByteKeepsInv(s, b);
    case Raise(irq) => RaiseKeepsInv(s, irq);
    case Shift(k) => ShiftKeepsInv(s, k);
    case Interrupt => InterruptKeepsInv(s);
    case RxFlush => FlushKeepsInv(s);
    case Transmit(data, lateBreak, fell) => TransmitKeepsInv(s, data, lateBreak, fell);
    case ClientDisable =>
    case TimerFires => TimerKeepsInv(s, e);
    case CheckRx => TimerKeepsInv(s, e);
    case CheckTx => TimerKeepsInv(s, e);
    case CheckFall => TimerKeepsInv(s, e);
    case _ => StartRxKeepsInv(s, e);
  }
}
