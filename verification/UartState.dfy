// The Jacdac single-wire UART driver: one record shared by the interrupt handler, the deferred
// timer callback and the client, and the part of the UART peripheral the driver touches.
//
// Every function below is one uninterruptible section of the driver, as a function on the machine.
// UartDriver.dfy holds the same sections as methods that update the record in place.

module UartState {
  import opened Bytes

  const FIFO_LEN := 128
  const FULL_THRESH := 120

  /** Assignment of a length to one of the record's uint16_t fields. */
  function Uint16(n: nat): (r: nat)
    ensures r <= n
  {
    n % 65536
  }

  /** `fifo_buf`: one pointer that serves both directions. */
  datatype Pointer = Null | InTx(pos: nat) | InRx(pos: nat)

  function Advance(p: Pointer, n: nat): Pointer {
    match p
    case Null => Null
    case InTx(k) => InTx(k + n)
    case InRx(k) => InRx(k + n)
  }

  /** The static driver record. `failed`: a JD_PANIC, a failed JD_ASSERT, or an access outside a client buffer. */
  datatype Context = Context(
    seenLow: bool, rxEnded: bool, inTx: bool, txLen: nat, rxLen: nat, dataLeft: nat, fifoBuf: Pointer,
    cbRx: bool, cbTx: bool, cbFall: bool, timer0: bool, failed: bool)

  datatype Irq = BrkDet | TxBrkDone | TxFifoEmpty | RxFifoTout | FrmErr | RxFifoFull

  /** One bit for each interrupt source, as in the peripheral's int_raw, int_ena and int_st registers. */
  datatype Irqs = Irqs(
    brkDet: bool, txBrkDone: bool, txFifoEmpty: bool, rxFifoTout: bool, frmErr: bool, rxFifoFull: bool)

  const NONE := Irqs(false, false, false, false, false, false)
  const BREAK_ONLY := Irqs(true, false, false, false, false, false)

  function And(a: Irqs, b: Irqs): Irqs {
    Irqs(a.brkDet && b.brkDet, a.txBrkDone && b.txBrkDone, a.txFifoEmpty && b.txFifoEmpty,
         a.rxFifoTout && b.rxFifoTout, a.frmErr && b.frmErr, a.rxFifoFull && b.rxFifoFull)
  }

  function Minus(a: Irqs, b: Irqs): Irqs {
    Irqs(a.brkDet && !b.brkDet, a.txBrkDone && !b.txBrkDone, a.txFifoEmpty && !b.txFifoEmpty,
         a.rxFifoTout && !b.rxFifoTout, a.frmErr && !b.frmErr, a.rxFifoFull && !b.rxFifoFull)
  }

  function Plus(a: Irqs, irq: Irq): Irqs {
    match irq
    case BrkDet => a.(brkDet := true)
    case TxBrkDone => a.(txBrkDone := true)
    case TxFifoEmpty => a.(txFifoEmpty := true)
    case RxFifoTout => a.(rxFifoTout := true)
    case FrmErr => a.(frmErr := true)
    case RxFifoFull => a.(rxFifoFull := true)
  }

  /** END_RX_FLAGS. */
  predicate EndRxFlag(a: Irqs) {
    a.rxFifoTout || a.brkDet || a.frmErr
  }

  /** The end-of-frame and FIFO-full interrupts go on. */
  function ListenTo(ena: Irqs): Irqs {
    ena.(rxFifoTout := true, brkDet := true, frmErr := true, rxFifoFull := true)
  }

  /** The peripheral: its FIFOs and interrupt bits, a break being sent, the number of breaks asked for,
      and whether its RX input is tied high. */
  datatype Uart = Uart(
    rxFifo: seq<byte>, txFifo: seq<byte>, ena: Irqs, raw: Irqs, txBreak: bool, breaks: nat, tied: bool)

  /** Driver record, peripheral, and the client buffers that fifo_buf may point into. */
  datatype Machine = Machine(d: Context, hw: Uart, txMem: seq<byte>, rxMem: seq<byte>)

  const INITIAL := Machine(Context(false, false, false, 0, 0, 0, Null, false, false, false, false, false),
                           Uart([], [], BREAK_ONLY, NONE, false, 0, false), [], [])

  function Fail(m: Machine): Machine {
    m.(d := m.d.(failed := true))
  }

  /** schedule_timer0. */
  function ScheduleTimer0(d: Context): Context {
    d.(timer0 := true)
  }

  /** The memory fifo_buf points into. */
  function Memory(m: Machine): seq<byte> {
    match m.d.fifoBuf
    case Null => []
    case InTx(_) => m.txMem
    case InRx(_) => m.rxMem
  }

  /** n bytes from fifo_buf on are inside a client buffer. */
  predicate Reaches(m: Machine, n: nat) {
    !m.d.fifoBuf.Null? && m.d.fifoBuf.pos + n <= |Memory(m)|
  }

  /** uart_ll_read_rxfifo: n bytes go from the receive FIFO to wherever fifo_buf points. */
  function Store(m: Machine, n: nat): Machine
    requires n <= |m.hw.rxFifo|
  {
    var ok := Reaches(m, n);
    Machine(m.d.(fifoBuf := if ok then Advance(m.d.fifoBuf, n) else m.d.fifoBuf, failed := m.d.failed || !ok),
            m.hw.(rxFifo := m.hw.rxFifo[n..]),
            if ok && m.d.fifoBuf.InTx? then Overwrite(m.txMem, m.d.fifoBuf.pos, m.hw.rxFifo[..n]) else m.txMem,
            if ok && m.d.fifoBuf.InRx? then Overwrite(m.rxMem, m.d.fifoBuf.pos, m.hw.rxFifo[..n]) else m.rxMem)
  }

  /** The handler leaves the FIFO alone while no buffer is there and it is not nearly full. */
  predicate NotYet(m: Machine) {
    m.d.fifoBuf.Null? && |m.hw.rxFifo| < FULL_THRESH - 1
  }

  /** read_fifo: store what fits, and drop the rest by resetting the FIFO. */
  function ReadFifo(m: Machine, force: bool): Machine {
    var n := Min(|m.hw.rxFifo|, m.d.rxLen);
    if !force && NotYet(m) then m
    else if n == 0 then m.(hw := m.hw.(rxFifo := []))
    else
      var stored := Store(m.(d := m.d.(rxLen := m.d.rxLen - n)), n);
      stored.(hw := m.hw.(rxFifo := []))
  }

  lemma ReadKeepsSeenLow(m: Machine, force: bool)
    ensures ReadFifo(m, force).d.seenLow == m.d.seenLow
  {
  }

  /** The chunk that one refill hands to the transmit FIFO: what fits, or all there is. */
  function Chunk(m: Machine): (n: nat)
    requires |m.hw.txFifo| <= FIFO_LEN
    ensures n <= m.d.txLen && |m.hw.txFifo| + n <= FIFO_LEN
    ensures n == m.d.txLen || |m.hw.txFifo| + n == FIFO_LEN
  {
    Min(FIFO_LEN - |m.hw.txFifo|, m.d.txLen)
  }

  /** n bytes go from wherever fifo_buf points to the transmit FIFO. */
  function Feed(m: Machine, n: nat): Machine
    requires n <= m.d.txLen && Reaches(m, n)
  {
    var p := m.d.fifoBuf.pos;
    m.(d := m.d.(fifoBuf := Advance(m.d.fifoBuf, n), txLen := m.d.txLen - n),
       hw := m.hw.(txFifo := m.hw.txFifo + Memory(m)[p..p + n]))
  }

  /** After a refill: the next interrupt is the FIFO running empty, or the end of the break (uart_ll_tx_break). */
  function AwaitIrqs(hw: Uart, last: bool): Uart {
    hw.(txBreak := hw.txBreak || last,
        breaks := if last then hw.breaks + 1 else hw.breaks,
        raw := hw.raw.(txFifoEmpty := false, txBrkDone := hw.raw.txBrkDone && !last),
        ena := hw.ena.(txFifoEmpty := true, txBrkDone := hw.ena.txBrkDone || last))
  }

  /** fill_fifo. */
  function FillFifo(m: Machine): Machine {
    if m.d.txLen == 0 then m
    else if |m.hw.txFifo| > FIFO_LEN || !Reaches(m, Chunk(m)) then Fail(m)
    else
      var fed := Feed(m, Chunk(m));
      fed.(hw := AwaitIrqs(fed.hw, fed.d.txLen == 0))
  }

  /** uart_disable: rx_len is 0 when it flushes, so the FIFO is reset. */
  function Disable(m: Machine): Machine {
    m.(d := m.d.(seenLow := false, cbFall := false, rxLen := 0, txLen := 0, fifoBuf := Null, rxEnded := false),
       hw := m.hw.(raw := Minus(m.hw.raw, m.hw.ena), ena := BREAK_ONLY, rxFifo := [], tied := false))
  }

  /** start_bg_rx: flush, listen for the end of the frame, and have jd_line_falling called if no buffer is there. */
  function StartBgRx(m: Machine): Machine {
    if m.d.inTx then Fail(m)
    else
      var read := ReadFifo(m, true);
      var falls := read.d.fifoBuf.Null?;
      read.(d := read.d.(seenLow := true, cbFall := read.d.cbFall || falls, timer0 := read.d.timer0 || falls),
            hw := read.hw.(ena := ListenTo(read.hw.ena)))
  }

  /** The interrupt status the handler works on: raised and enabled. */
  function Status(m: Machine): Irqs {
    And(m.hw.raw, m.hw.ena)
  }

  predicate IsrStartsFrame(m: Machine) {
    !m.d.seenLow && Status(m).brkDet
  }

  predicate IsrEndsFrame(m: Machine) {
    !IsrStartsFrame(m) && !Status(m).txBrkDone && !Status(m).txFifoEmpty && EndRxFlag(Status(m))
  }

  /** The handler has cleared the interrupts it will serve and read the FIFO. */
  function Acknowledge(m: Machine): Machine {
    ReadFifo(m.(hw := m.hw.(raw := Minus(m.hw.raw, Status(m)))), false)
  }

  function EndTx(m: Machine): Machine {
    var off := Disable(m.(d := m.d.(inTx := false), hw := m.hw.(txBreak := false)));
    off.(d := ScheduleTimer0(off.d.(cbTx := true)))
  }

  function EndFrame(m: Machine): Machine {
    var off := Disable(m.(d := m.d.(dataLeft := m.d.rxLen)));
    off.(d := if m.d.fifoBuf != Null then ScheduleTimer0(off.d.(cbRx := true)) else off.d.(rxEnded := true))
  }

  /** uart_isr. */
  function Isr(m: Machine): Machine {
    var a := Acknowledge(m);
    if IsrStartsFrame(m) then StartBgRx(a)
    else if Status(m).txBrkDone then EndTx(a)
    else if Status(m).txFifoEmpty then FillFifo(a.(hw := a.hw.(ena := a.hw.ena.(txFifoEmpty := false))))
    else if IsrEndsFrame(m) then EndFrame(a)
    else a
  }

  /** The rest of uart_start_tx once the line is won. */
  function BeginTx(m: Machine, data: seq<byte>): Machine {
    FillFifo(m.(d := m.d.(inTx := true, fifoBuf := InTx(0), txLen := Uint16(|data|)),
                hw := m.hw.(tied := true, raw := NONE), txMem := data))
  }

  /** uart_start_tx. lateBreak: the break detector latches between the test and tying RX high;
      fell: the line went down before the pin could be driven. */
  function StartTx(m: Machine, data: seq<byte>, lateBreak: bool, fell: bool): Machine {
    if m.d.txLen > 0 || m.d.inTx then Fail(m)
    else if m.d.seenLow || m.hw.raw.brkDet then m
    else if fell then StartBgRx(m.(hw := m.hw.(tied := false, raw := m.hw.raw.(brkDet := lateBreak))))
    else BeginTx(m, data)
  }

  /** True exactly when uart_start_tx returns 0. */
  predicate TxAccepted(m: Machine, fell: bool) {
    m.d.txLen == 0 && !m.d.inTx && !m.d.seenLow && !m.hw.raw.brkDet && !fell
  }

  // uart_start_rx, section by section

  function RxCheck(m: Machine): Machine {
    if m.d.rxLen > 0 || m.d.txLen > 0 then Fail(m) else m
  }

  function RxArm(m: Machine, buffer: seq<byte>): Machine {
    m.(d := m.d.(fifoBuf := InRx(0), rxLen := Uint16(|buffer|)), rxMem := buffer)
  }

  function FlushRx(m: Machine): Machine {
    ReadFifo(m, true)
  }

  function RxFinish(m: Machine): Machine {
    if m.d.rxEnded then m.(d := m.d.(seenLow := false, rxEnded := false, rxLen := 0, fifoBuf := Null)) else m
  }
}
