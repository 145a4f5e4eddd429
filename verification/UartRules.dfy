// Why the environment must keep the two timing rules of the UART driver: without either of them a
// concrete run, every other step of which is legal, breaks a transmission.

module UartRules {
  import opened Bytes
  import opened UartState
  import opened UartProtocol
  import opened UartTheorems

  const NO_BREAK_RULE := Rules(true, false)
  const NO_FALL_RULE := Rules(false, true)
  const RX_ENA := Irqs(true, false, false, true, true, true)

  const BREAK: seq<Event> := [Raise(BrkDet), Interrupt]
  const TIMER: seq<Event> := [TimerFires, CheckRx, CheckTx, CheckFall]
  const FRAME_END: seq<Event> := [Raise(FrmErr), Interrupt]
  const ANSWER: seq<Event> := [RxCheckLengths([0]), RxSupply, RxFlush, RxReturn]

  /** es is a legal continuation of s that ends in t. */
  predicate Leads(s: System, es: seq<Event>, t: System, rules: Rules) {
    Obeys(s, es, rules) && Run(s, es) == t
  }

  lemma Compose(s: System, es: seq<Event>, t: System, fs: seq<Event>, u: System, rules: Rules)
    requires Leads(s, es, t, rules) && Leads(t, fs, u, rules)
    ensures Leads(s, es + fs, u, rules)
  {
    RunConcat(s, es, fs, rules);
  }

  lemma Extend(s: System, es: seq<Event>, t: System, e: Event, rules: Rules)
    requires Leads(s, es, t, rules) && Allowed(t, e, rules)
    ensures Leads(s, es + [e], Next(t, e), rules)
  {
    RunSnoc(s, es, e, rules);
  }

  // ---- the states the two runs go through ----

  /** No reception, no transmission, nothing pending but what the arguments say. */
  function At(task: Task, seenLow: bool, rxEnded: bool, cbFall: bool, timer0: bool, ena: Irqs, mem: seq<byte>): System {
    System(INITIAL.(d := INITIAL.d.(seenLow := seenLow, rxEnded := rxEnded, cbFall := cbFall, timer0 := timer0),
                    hw := INITIAL.hw.(ena := ena), rxMem := mem),
           task, START.h)
  }

  lemma BreakStep(task: Task, rxEnded: bool, timer0: bool, mem: seq<byte>, rules: Rules)
    requires rules.breakAnswered ==> !InLineFalling(task)
    ensures Leads(At(task, false, rxEnded, false, timer0, BREAK_ONLY, mem), BREAK,
                  At(task, true, rxEnded, true, true, RX_ENA, mem), rules)
  {
    var s := At(task, false, rxEnded, false, timer0, BREAK_ONLY, mem);
    var raised := s.(m := s.m.(hw := s.m.hw.(raw := BREAK_ONLY)));
    assert [] + [Raise(BrkDet)] + [Interrupt] == BREAK;
    Extend(s, [], s, Raise(BrkDet), rules);
    BgRxOpens(s.m);
    Extend(s, [] + [Raise(BrkDet)], raised, Interrupt, rules);
  }

  lemma TimerStep(s: System, rules: Rules)
    requires s.task.Idle? && s.m.d.timer0 && s.m.d.cbFall && !s.m.d.cbTx
    ensures Leads(s, TIMER,
                  SetRecord(s, s.m.d.(timer0 := false, cbRx := false, cbTx := false, cbFall := false), Falling), rules)
  {
    var s1 := Next(s, TimerFires);
    var s2 := Next(s1, CheckRx);
    var s3 := Next(s2, CheckTx);
    assert [] + [TimerFires] + [CheckRx] + [CheckTx] + [CheckFall] == TIMER;
    Extend(s, [], s, TimerFires, rules);
    Extend(s, [] + [TimerFires], s1, CheckRx, rules);
    Extend(s, [] + [TimerFires] + [CheckRx], s2, CheckTx, rules);
    Extend(s, [] + [TimerFires] + [CheckRx] + [CheckTx], s3, CheckFall, rules);
  }

  lemma FrameEndStep(task: Task, cbFall: bool, timer0: bool, mem: seq<byte>, rules: Rules)
    requires rules.fallConsumed ==> !cbFall
    ensures Leads(At(task, true, false, cbFall, timer0, RX_ENA, mem), FRAME_END,
                  At(task, false, true, false, timer0, BREAK_ONLY, mem), rules)
  {
    var s := At(task, true, false, cbFall, timer0, RX_ENA, mem);
    var raised := s.(m := s.m.(hw := s.m.hw.(raw := NONE.(frmErr := true))));
    assert [] + [Raise(FrmErr)] + [Interrupt] == FRAME_END;
    Extend(s, [], s, Raise(FrmErr), rules);
    ReadStoresNothing(s.m, false);
    Extend(s, [] + [Raise(FrmErr)], raised, Interrupt, rules);
  }

  /** uart_start_rx with rx_ended set gives the reception up, whether or not a new frame is under way. */
  lemma StaleAnswerStep(seenLow: bool, cbFall: bool, timer0: bool, ena: Irqs, mem: seq<byte>, rules: Rules)
    ensures Leads(At(Falling, seenLow, true, cbFall, timer0, ena, mem), ANSWER,
                  At(Idle, false, false, cbFall, timer0, ena, [0]), rules)
  {
    var s := At(Falling, seenLow, true, cbFall, timer0, ena, mem);
    var checked := s.(task := Checked([0]));
    var armed := s.(m := RxArm(s.m, [0]), task := Armed);
    var flushed := armed.(task := Flushed);
    assert [] + [RxCheckLengths([0])] + [RxSupply] + [RxFlush] + [RxReturn] == ANSWER;
    Extend(s, [], s, RxCheckLengths([0]), rules);
    Extend(s, [] + [RxCheckLengths([0])], checked, RxSupply, rules);
    FlushEmpty(armed.m);
    Extend(s, [] + [RxCheckLengths([0])] + [RxSupply], armed, RxFlush, rules);
    Extend(s, [] + [RxCheckLengths([0])] + [RxSupply] + [RxFlush], flushed, RxReturn, rules);
  }

  lemma FlushEmpty(m: Machine)
    requires m.hw.rxFifo == []
    ensures FlushRx(m) == m
  {
  }

  /** More than one FIFO-full of data. */
  function LongData(): (d: seq<byte>)
    ensures |d| == 200
  {
    seq(200, _ => 0)
  }

  function Send(): seq<Event> {
    [Transmit(LongData(), false, false)]
  }

  function Sending(s: System): System {
    System(s.m.(d := s.m.d.(inTx := true, txLen := 72, fifoBuf := InTx(FIFO_LEN)),
                hw := s.m.hw.(tied := true, txFifo := LongData()[..FIFO_LEN], raw := NONE,
                              ena := s.m.hw.ena.(txFifoEmpty := true)),
                txMem := LongData()),
           s.task, s.h.(txData := LongData(), wire := [], accepted := s.h.accepted + 1, busy := true))
  }

  lemma SendStep(cbFall: bool, timer0: bool, mem: seq<byte>, rules: Rules)
    ensures var s := At(Idle, false, false, cbFall, timer0, RX_ENA, mem); Leads(s, Send(), Sending(s), rules)
  {
    var s := At(Idle, false, false, cbFall, timer0, RX_ENA, mem);
    assert [] + [Transmit(LongData(), false, false)] == Send();
    Extend(s, [], s, Transmit(LongData(), false, false), rules);
    assert LongData()[0..FIFO_LEN] == LongData()[..FIFO_LEN];
  }

  // ---- the two runs ----

  /** A second break before uart_start_rx answers the first: cb_fall survives the answer, and the next
      transmission runs into the panic in uart_start_rx. */
  lemma SecondBreakPanics()
    ensures exists es :: Obeys(START, es, NO_BREAK_RULE) && Run(START, es).m.d.failed
  {
    var r := NO_BREAK_RULE;
    var s1 := At(Idle, true, false, true, true, RX_ENA, []);
    BreakStep(Idle, false, false, [], r);
    var s2 := At(Falling, true, false, false, false, RX_ENA, []);
    TimerStep(s1, r);
    Compose(START, BREAK, s1, TIMER, s2, r);
    var s3 := At(Falling, false, true, false, false, BREAK_ONLY, []);
    FrameEndStep(Falling, false, false, [], r);
    Compose(START, BREAK + TIMER, s2, FRAME_END, s3, r);
    var s4 := At(Falling, true, true, true, true, RX_ENA, []);
    BreakStep(Falling, true, false, [], r);
    Compose(START, BREAK + TIMER + FRAME_END, s3, BREAK, s4, r);
    var s5 := At(Idle, false, false, true, true, RX_ENA, [0]);
    StaleAnswerStep(true, true, true, RX_ENA, [], r);
    Compose(START, BREAK + TIMER + FRAME_END + BREAK, s4, ANSWER, s5, r);
    SendIntoPanic(BREAK + TIMER + FRAME_END + BREAK + ANSWER);
  }

  lemma SendIntoPanic(es: seq<Event>)
    requires Leads(START, es, At(Idle, false, false, true, true, RX_ENA, [0]), NO_BREAK_RULE)
    ensures exists fs :: Obeys(START, fs, NO_BREAK_RULE) && Run(START, fs).m.d.failed
  {
    var r := NO_BREAK_RULE;
    var s := At(Idle, false, false, true, true, RX_ENA, [0]);
    SendStep(true, true, [0], r);
    Compose(START, es, s, Send(), Sending(s), r);
    var t := SetRecord(Sending(s), Sending(s).m.d.(timer0 := false, cbRx := false, cbTx := false, cbFall := false),
                       Falling);
    TimerStep(Sending(s), r);
    Compose(START, es + Send(), Sending(s), TIMER, t, r);
    Extend(START, es + Send() + TIMER, t, RxCheckLengths([0]), r);
    assert Run(START, es + Send() + TIMER + [RxCheckLengths([0])]).m.d.failed;
  }

  /** In transmission, but neither more data nor the break will ever be sent. */
  predicate Abandoned(s: System) {
    s.m.d.inTx && s.m.d.txLen == 0 && !s.m.hw.txBreak && |s.h.wire + s.m.hw.txFifo| < |s.h.txData|
  }

  /** A frame that ends before cb_fall is consumed leaves rx_ended stale: the next frame is given up
      half-way with its interrupts still on, and one of them stops the next transmission for good. */
  lemma LateCallbackAbandonsTransmission()
    ensures exists es :: Obeys(START, es, NO_FALL_RULE) && Abandoned(Run(START, es))
  {
    var r := NO_FALL_RULE;
    var s1 := At(Idle, true, false, true, true, RX_ENA, []);
    BreakStep(Idle, false, false, [], r);
    var s2 := At(Idle, false, true, false, true, BREAK_ONLY, []);
    FrameEndStep(Idle, true, true, [], r);
    Compose(START, BREAK, s1, FRAME_END, s2, r);
    var s3 := At(Idle, true, true, true, true, RX_ENA, []);
    BreakStep(Idle, true, true, [], r);
    Compose(START, BREAK + FRAME_END, s2, BREAK, s3, r);
    var s4 := At(Falling, true, true, false, false, RX_ENA, []);
    TimerStep(s3, r);
    Compose(START, BREAK + FRAME_END + BREAK, s3, TIMER, s4, r);
    var s5 := At(Idle, false, false, false, false, RX_ENA, [0]);
    StaleAnswerStep(true, false, false, RX_ENA, [], r);
    Compose(START, BREAK + FRAME_END + BREAK + TIMER, s4, ANSWER, s5, r);
    SendIntoTimeout(BREAK + FRAME_END + BREAK + TIMER + ANSWER);
  }

  lemma SendIntoTimeout(es: seq<Event>)
    requires Leads(START, es, At(Idle, false, false, false, false, RX_ENA, [0]), NO_FALL_RULE)
    ensures exists fs :: Obeys(START, fs, NO_FALL_RULE) && Abandoned(Run(START, fs))
  {
    var r := NO_FALL_RULE;
    var s := At(Idle, false, false, false, false, RX_ENA, [0]);
    SendStep(false, false, [0], r);
    Compose(START, es, s, Send(), Sending(s), r);
    var raised := Next(Sending(s), Raise(RxFifoTout));
    Extend(START, es + Send(), Sending(s), Raise(RxFifoTout), r);
    Extend(START, es + Send() + [Raise(RxFifoTout)], raised, Interrupt, r);
    assert Abandoned(Next(raised, Interrupt));
    assert Abandoned(Run(START, es + Send() + [Raise(RxFifoTout)] + [Interrupt]));
  }
}
