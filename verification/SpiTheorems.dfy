// What SPI callers can rely on over whole runs.

module SpiTheorems {
  import opened Bytes
  import opened Worker
  import opened SpiProtocol

  function Run(y: System, es: seq<Event>): System
    requires Obeys(y, es)
    decreases |es|
  {
    if es == [] then y else Run(Next(y, es[0]), es[1..])
  }

  predicate Obeys(y: System, es: seq<Event>)
    decreases |es|
  {
    es == [] || (Enabled(y.s, es[0]) && Obeys(Next(y, es[0]), es[1..]))
  }

  lemma {:induction false} RunKeepsInv(y: System, es: seq<Event>)
    requires Inv(y) && Obeys(y, es)
    ensures Inv(Run(y, es))
    decreases |es|
  {
    if es != [] {
      StepKeepsInv(y, es[0]);
      RunKeepsInv(Next(y, es[0]), es[1..]);
    }
  }

  /** The done_fn of the call in progress after e. */
  function FnAfter(e: Event, fn: Fn): Fn {
    if e.XferCall? then e.fn else fn
  }

  /** The done_fn of the call that e takes through, if it does. */
  function FnAccepted(e: Event, fn: Fn): seq<Fn> {
    if e.PostSync? || (e.QueueTrans? && e.ok) then [fn] else []
  }

  /** The done_fn of every call that went through, in order, from the events alone; fn is that of the call in
      progress. */
  function AskedFor(es: seq<Event>, fn: Fn): seq<Fn>
    decreases |es|
  {
    if es == [] then [] else FnAccepted(es[0], fn) + AskedFor(es[1..], FnAfter(es[0], fn))
  }

  /** The call in progress is the one for fn. */
  predicate CallIs(s: State, fn: Fn) {
    match s.xfer
    case NoXfer => true
    case Prepared(f) => f == fn
    case Queueing(f) => f == fn
    case Polling(f) => f == fn
    case SyncOk(f) => f == fn
  }

  lemma StepAsks(y: System, e: Event, fn: Fn)
    requires Inv(y) && Enabled(y.s, e) && CallIs(y.s, fn)
    ensures CallIs(Next(y, e).s, FnAfter(e, fn))
    ensures Fns(Next(y, e).log.accepted) == Fns(y.log.accepted) + FnAccepted(e, fn)
  {
    var es := y.log.accepted;
    if e.DoneIsr? && es != [] {
      assert Fns(DropLast(es)) == Fns(es);
    }
    assert Fns(es) + [] == Fns(es);
  }

  lemma Chain(a: seq<Fn>, b: seq<Fn>, c: seq<Fn>)
    ensures a + b + c == a + (b + c)
  {
  }

  lemma {:induction false} RunAsks(y: System, es: seq<Event>, fn: Fn)
    requires Inv(y) && Obeys(y, es) && CallIs(y.s, fn)
    ensures Fns(Run(y, es).log.accepted) == Fns(y.log.accepted) + AskedFor(es, fn)
    decreases |es|
  {
    if es == [] {
      assert Fns(y.log.accepted) + [] == Fns(y.log.accepted);
    } else {
      StepKeepsInv(y, es[0]);
      StepAsks(y, es[0], fn);
      RunAsks(Next(y, es[0]), es[1..], FnAfter(es[0], fn));
      Chain(Fns(y.log.accepted), FnAccepted(es[0], fn), AskedFor(es[1..], FnAfter(es[0], fn)));
    }
  }

  /** Over every run the completion assertions hold, the accepted transfers carry the done_fn of their calls, and the
      callbacks made, followed by those on their way, are exactly those whose completion was posted, each once and in
      acceptance order. */
  lemma CallbacksInOrder(es: seq<Event>)
    requires Obeys(INIT, es)
    ensures var y := Run(INIT, es);
            && !y.s.failed && y.log.fired + Pending(y.s) == Posted(y.log.accepted)
            && Fns(y.log.accepted) == AskedFor(es, 0)
  {
    RunKeepsInv(INIT, es);
    RunAsks(INIT, es, 0);
    Chain([], [], AskedFor(es, 0));
  }

  /** What the last set-up that was not refused answered. */
  function LastSetUp(y: System, es: seq<Event>, before: bool): bool
    requires Obeys(y, es)
    decreases |es|
  {
    if es == [] then before
    else LastSetUp(Next(y, es[0]), es[1..], if es[0].InitCall? && !y.s.inUse then es[0].ok else before)
  }

  lemma {:induction false} RunSetsUp(y: System, es: seq<Event>)
    requires Obeys(y, es)
    ensures Run(y, es).s.spi == LastSetUp(y, es, y.s.spi)
    decreases |es|
  {
    if es != [] {
      RunSetsUp(Next(y, es[0]), es[1..]);
    }
  }

  /** The device handle is what the last set-up that was not refused answered, and a transfer in progress has one. */
  lemma DeviceIsSetUp(es: seq<Event>)
    requires Obeys(INIT, es)
    ensures var s := Run(INIT, es).s;
            s.spi == LastSetUp(INIT, es, false) && (s.inUse || !s.xfer.NoXfer? ==> s.spi)
  {
    RunKeepsInv(INIT, es);
    RunSetsUp(INIT, es);
  }

  lemma {:induction false} RunConcat(y: System, a: seq<Event>, b: seq<Event>)
    requires Obeys(y, a) && Obeys(Run(y, a), b)
    ensures Obeys(y, a + b) && Run(y, a + b) == Run(Run(y, a), b)
    decreases |a|
  {
    if a == [] {
      assert a + b == b;
    } else {
      RunConcat(Next(y, a[0]), a[1..], b);
      assert (a + b)[1..] == a[1..] + b;
    }
  }

  /** spi_in_use is set whenever a transaction is on the bus or its completion is not finished, and then
      no step writes trans.user. */
  lemma TransactionIsOwned(es: seq<Event>, e: Event)
    requires Obeys(INIT, es) && Enabled(Run(INIT, es).s, e)
    ensures var s := Run(INIT, es).s;
            && (s.dev.InFlight? || s.dev.Complete? || s.xfer.Queueing? || s.loop.DoneStart? || s.loop.HasCb? ==> s.inUse)
            && (s.inUse ==> NextState(s, e).user == s.user)
  {
    RunKeepsInv(INIT, es);
    var s := Run(INIT, es).s;
    if s.inUse {
      TransIsNotReused(s, e);
    }
  }

  // ---- every posted callback is made, whatever the schedule ----

  function Measure(s: State): nat {
    (match s.xfer
     case NoXfer => 0
     case Prepared(_) => 8
     case Queueing(_) => 7
     case Polling(_) => 7
     case SyncOk(_) => 6)
    + (if s.dev.InFlight? then 6 else 0) + 5 * |s.queue|
    + (match s.loop
       case Waiting => 0
       case DoneStart => 4
       case HasCb(_) => 3
       case Calling(_) => 2
       case InCall => 1)
  }

  /** Nobody asks for anything new. */
  predicate Internal(es: seq<Event>) {
    forall i :: 0 <= i < |es| ==> !es[i].XferCall? && !es[i].InitCall? && !es[i].PostOther?
  }

  /** No transfer, completion or deferred work is under way. */
  predicate Settled(s: State) {
    s.xfer.NoXfer? && !s.dev.InFlight? && s.queue == [] && s.loop.Waiting?
  }

  lemma InternalStepsShrink(y: System, e: Event)
    requires Enabled(y.s, e) && Internal([e])
    ensures Measure(NextState(y.s, e)) < Measure(y.s)
  {
    assert [e][0] == e;
  }

  lemma {:induction false} InternalRunsAreShort(y: System, es: seq<Event>)
    requires Obeys(y, es) && Internal(es)
    ensures |es| + Measure(Run(y, es).s) <= Measure(y.s)
    decreases |es|
  {
    if es != [] {
      assert Internal([es[0]]);
      InternalStepsShrink(y, es[0]);
      InternalRunsAreShort(Next(y, es[0]), es[1..]);
    }
  }

  /** The next thing to happen, when something can. */
  function NextThing(s: State): Event {
    match s.xfer
    case Prepared(_) => MarkInUse
    case Queueing(_) => QueueTrans(true)
    case Polling(_) => PollTransmit(true)
    case SyncOk(_) => PostSync
    case NoXfer =>
      if s.dev.InFlight? then DoneIsr
      else match s.loop
           case DoneStart => CheckResult
           case HasCb(_) => ClearInUse
           case Calling(_) => MakeCall
           case InCall => ReturnCall
           case Waiting => TakeJob
  }

  /** Nothing but a new request can happen. */
  ghost predicate AtRest(s: State) {
    forall e: Event :: Enabled(s, e) ==> !Internal([e])
  }

  /** Things come to rest exactly when no transfer, completion or deferred work is under way. */
  lemma SettledIff(s: State)
    requires Control(s)
    ensures Settled(s) <==> AtRest(s)
  {
    if Settled(s) {
      forall e: Event | Enabled(s, e) ensures !Internal([e]) {
        assert [e][0] == e;
      }
    } else {
      assert Enabled(s, NextThing(s)) && Internal([NextThing(s)]);
    }
  }

  function Fns(es: seq<Entry>): seq<Fn> {
    seq(|es|, i requires 0 <= i < |es| => es[i].fn)
  }

  predicate AllPosted(es: seq<Entry>) {
    forall i :: 0 <= i < |es| ==> es[i].posted
  }

  lemma {:induction false} PostedAllIff(es: seq<Entry>)
    ensures |Posted(es)| <= |es|
    ensures |Posted(es)| == |es| <==> AllPosted(es)
    ensures AllPosted(es) ==> Posted(es) == Fns(es)
  {
    if es != [] {
      var n := |es| - 1;
      PostedAllIff(es[..n]);
      assert es == es[..n] + [es[n]];
    }
  }

  /** Once nobody asks for anything new every schedule is short, and when it has come to rest the callbacks made are
      the done_fn of every call that returned 0, each exactly once and in order, if and only if no post was
      rejected. */
  lemma EveryCallbackOnceIff(es: seq<Event>, rest: seq<Event>)
    requires Obeys(INIT, es) && Obeys(Run(INIT, es), rest) && Internal(rest)
    ensures var y, z := Run(INIT, es), Run(Run(INIT, es), rest);
            && |rest| <= Measure(y.s)
            && (AtRest(z.s) ==> (z.log.fired == AskedFor(es + rest, 0) <==> AllPosted(z.log.accepted)))
  {
    RunKeepsInv(INIT, es);
    RunKeepsInv(Run(INIT, es), rest);
    InternalRunsAreShort(Run(INIT, es), rest);
    var z := Run(Run(INIT, es), rest);
    SettledIff(z.s);
    RunConcat(INIT, es, rest);
    CallbacksInOrder(es + rest);
    if Settled(z.s) {
      assert Pending(z.s) == [];
      PostedAllIff(z.log.accepted);
    }
  }

  /** A completion whose post is rejected leaves spi_in_use set for ever: no later transfer is accepted. */
  lemma {:induction false} RejectedCompletionIsFinal(y: System, es: seq<Event>)
    requires Inv(y) && y.s.inUse && Holders(y.s) == 0 && Obeys(y, es)
    ensures var z := Run(y, es); z.s.inUse && z.log.accepted == y.log.accepted
    decreases |es|
  {
    if es != [] {
      StepKeepsInv(y, es[0]);
      if es[0].PostOther? {
        NumDoneSnoc(y.s.queue, Other);
      }
      RejectedCompletionIsFinal(Next(y, es[0]), es[1..]);
    }
  }

  /** jd_spi_xfer that answers -1 or -2 changes nothing, so its callback is never made. */
  lemma RefusedXferChangesNothing(y: System, numbytes: nat, fn: Fn)
    requires Enabled(y.s, XferCall(numbytes, fn))
    ensures Next(y, XferCall(numbytes, fn)) == y <==> !Ready(y.s) || numbytes > BLOCK_SIZE
  {
  }

  /** Rejections do happen: fill the queue, then ask for an empty transfer. It returns 0 and its callback is lost. */
  lemma {:induction false} FullQueueLosesCallback(y: System, fn: Fn) returns (es: seq<Event>)
    requires Inv(y) && Ready(y.s) && y.s.xfer.NoXfer?
    ensures Obeys(y, es) && Run(y, es).log.accepted == y.log.accepted + [Entry(fn, false)]
    decreases QUEUE_LEN - |y.s.queue|
  {
    if |y.s.queue| < QUEUE_LEN {
      StepKeepsInv(y, PostOther);
      var rest := FullQueueLosesCallback(Next(y, PostOther), fn);
      es := [PostOther] + rest;
    } else {
      es := [XferCall(0, fn), PostSync];
      var mid := Next(y, XferCall(0, fn));
      assert es[1..] == [PostSync];
      assert Obeys(mid, [PostSync]) && Run(mid, [PostSync]) == Next(mid, PostSync);
    }
  }
}
