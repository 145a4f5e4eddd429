// SPI transfers (main/spi.c): every interleaving of jd_spi_xfer, the completion interrupt and the
// deferred-work loop, and when each completion callback is made.
//
// Two bodies of jd_spi_xfer or jd_spi_init never interleave with each other; everything else may.

module SpiProtocol {
  import opened Bytes
  import opened Worker

  const BLOCK_SIZE := 4096

  /** A completion callback. */
  type Fn = nat

  /** Deferred work: call_fn for a transfer that is already done, jd_spi_done_cb_outside_isr, or someone else's. */
  datatype Job = CallFn(fn: Fn) | SpiDone | Other

  datatype Device = NoTrans | InFlight | Complete

  /** Where the body of jd_spi_xfer is, with the result it waits for next. */
  datatype Xfer = NoXfer | Prepared(fn: Fn) | Queueing(fn: Fn) | Polling(fn: Fn) | SyncOk(fn: Fn)

  /** Where the deferred-work loop is. */
  datatype Loop = Waiting | DoneStart | HasCb(cb: Fn) | Calling(cb: Fn) | InCall

  datatype State = State(
    spi: bool,            // the device handle is set
    inUse: bool,          // spi_in_use
    user: Option<Fn>,     // trans.user
    dev: Device, xfer: Xfer, loop: Loop, queue: seq<Job>,
    failed: bool)         // an assertion failed

  /** A transfer that returned 0; posted is false once the post of its completion has been rejected. */
  datatype Entry = Entry(fn: Fn, posted: bool)

  /** What the callers see: transfers that returned 0, and callbacks made, in order. */
  datatype Log = Log(accepted: seq<Entry>, fired: seq<Fn>)

  datatype System = System(s: State, log: Log)

  const INIT := System(State(false, false, None, NoTrans, NoXfer, Waiting, [], false), Log([], []))

  datatype Event =
    | XferCall(numbytes: nat, fn: Fn) | MarkInUse | QueueTrans(ok: bool) | PollTransmit(ok: bool) | PostSync
    | InitCall(ok: bool)
    | DoneIsr
    | TakeJob | CheckResult | ClearInUse | MakeCall | ReturnCall
    | PostOther

  predicate Ready(s: State) {
    s.spi && !s.inUse
  }

  predicate Enabled(s: State, e: Event) {
    match e
    case XferCall(_, _) => s.xfer.NoXfer?
    case MarkInUse => s.xfer.Prepared?
    case QueueTrans(_) => s.xfer.Queueing?
    case PollTransmit(_) => s.xfer.Polling?
    case PostSync => s.xfer.SyncOk?
    case InitCall(_) => s.xfer.NoXfer?
    case DoneIsr => s.dev.InFlight?
    case TakeJob => s.loop.Waiting? && s.queue != []
    case CheckResult => s.loop.DoneStart?
    case ClearInUse => s.loop.HasCb?
    case MakeCall => s.loop.Calling?
    case ReturnCall => s.loop.InCall?
    case PostOther => true
  }

  /** tim_worker_run: the result is ignored by every caller here. */
  function Post(s: State, j: Job): State {
    s.(queue := if |s.queue| < QUEUE_LEN then s.queue + [j] else s.queue)
  }

  predicate Rejected(s: State) {
    |s.queue| >= QUEUE_LEN
  }

  /** The tests and the setting up of trans in jd_spi_xfer. */
  function BeginXfer(s: State, numbytes: nat, fn: Fn): State {
    if !Ready(s) || numbytes > BLOCK_SIZE then s
    else if numbytes == 0 then s.(xfer := SyncOk(fn))
    else if numbytes <= 4 then s.(user := None, xfer := Polling(fn))
    else s.(user := Some(fn), xfer := Prepared(fn))
  }

  function NextState(s: State, e: Event): State
    requires Enabled(s, e)
  {
    match e
    case XferCall(numbytes, fn) => BeginXfer(s, numbytes, fn)
    case MarkInUse => s.(inUse := true, xfer := Queueing(s.xfer.fn))
    case QueueTrans(ok) => s.(inUse := ok, xfer := NoXfer, dev := if ok then InFlight else s.dev)
    case PollTransmit(ok) => s.(xfer := if ok then SyncOk(s.xfer.fn) else NoXfer)
    case PostSync => Post(s, CallFn(s.xfer.fn)).(xfer := NoXfer)
    case InitCall(ok) => if s.inUse then s else s.(spi := ok)
    case DoneIsr =>
      if s.user == None then s.(dev := Complete)
      else Post(s, SpiDone).(dev := Complete, failed := s.failed || !s.inUse)
    case TakeJob =>
      s.(queue := s.queue[1..], loop := if s.queue[0].SpiDone? then DoneStart else InCall)
    case CheckResult =>
      if s.inUse && s.dev.Complete? && s.user.Some? then s.(dev := NoTrans, loop := HasCb(s.user.value))
      else s.(failed := true, loop := InCall)
    case ClearInUse => s.(inUse := false, loop := Calling(s.loop.cb))
    case MakeCall => s.(loop := InCall)
    case ReturnCall => s.(loop := Waiting)
    case PostOther => Post(s, Other)
  }

  /** The post of the last accepted transfer's completion was rejected. */
  function DropLast(es: seq<Entry>): seq<Entry> {
    if es == [] then [] else es[..|es| - 1] + [es[|es| - 1].(posted := false)]
  }

  function NextLog(s: State, log: Log, e: Event): Log
    requires Enabled(s, e)
  {
    match e
    case QueueTrans(ok) => if ok then log.(accepted := log.accepted + [Entry(s.xfer.fn, true)]) else log
    case PostSync => log.(accepted := log.accepted + [Entry(s.xfer.fn, !Rejected(s))])
    case DoneIsr => if s.user.Some? && Rejected(s) then log.(accepted := DropLast(log.accepted)) else log
    case TakeJob => if s.queue[0].CallFn? then log.(fired := log.fired + [s.queue[0].fn]) else log
    case MakeCall => log.(fired := log.fired + [s.loop.cb])
    case _ => log
  }

  function Next(y: System, e: Event): System
    requires Enabled(y.s, e)
  {
    System(NextState(y.s, e), NextLog(y.s, y.log, e))
  }

  // ---- where the one queued transaction is ----

  function Bit(b: bool): nat {
    if b then 1 else 0
  }

  function NumDone(q: seq<Job>): nat {
    if q == [] then 0 else Bit(q[0].SpiDone?) + NumDone(q[1..])
  }

  lemma {:induction false} NumDoneSnoc(q: seq<Job>, j: Job)
    ensures NumDone(q + [j]) == NumDone(q) + Bit(j.SpiDone?)
  {
    if q == [] {
      assert q + [j] == [j];
    } else {
      assert (q + [j])[1..] == q[1..] + [j];
      NumDoneSnoc(q[1..], j);
    }
  }

  /** The places that hold the right to complete the queued transaction. */
  function Holders(s: State): nat {
    Bit(s.xfer.Queueing?) + Bit(s.dev.InFlight?) + NumDone(s.queue) + Bit(s.loop.DoneStart?) + Bit(s.loop.HasCb?)
  }

  /** Its completion has been posted and not yet looked at. */
  function Announced(s: State): nat {
    NumDone(s.queue) + Bit(s.loop.DoneStart?)
  }

  /** spi_in_use holds exactly while one place owns trans: from just before the transaction is queued
      until its completion clears the flag, or for ever when the post of the completion was rejected. */
  predicate Control(s: State) {
    && !s.failed && |s.queue| <= QUEUE_LEN
    && (s.inUse || !s.xfer.NoXfer? ==> s.spi)
    && (!s.inUse ==> Holders(s) == 0 && s.dev.NoTrans?)
    && (s.inUse ==>
          && s.user.Some? && (s.xfer.NoXfer? || s.xfer.Queueing?)
          && (Holders(s) == 1 || (Holders(s) == 0 && s.dev.Complete?)))
    && (s.dev.Complete? ==> Holders(s) == Announced(s))
    && (Announced(s) > 0 ==> s.dev.Complete?)
    && (s.xfer.Prepared? || s.xfer.Queueing? ==> s.user == Some(s.xfer.fn))
    && (s.loop.HasCb? ==> s.user == Some(s.loop.cb))
  }

  lemma StepKeepsControl(s: State, e: Event)
    requires Control(s) && Enabled(s, e)
    ensures Control(NextState(s, e))
  {
    match e
    case PostSync => NumDoneSnoc(s.queue, CallFn(s.xfer.fn));
    case DoneIsr => NumDoneSnoc(s.queue, SpiDone);
    case PostOther => NumDoneSnoc(s.queue, Other);
    case _ =>
  }

  /** While a transaction is owned, no step writes trans.user: it is never reused early. */
  lemma TransIsNotReused(s: State, e: Event)
    requires Control(s) && Enabled(s, e) && s.inUse
    ensures NextState(s, e).user == s.user
  {
  }

  // ---- callbacks on their way ----

  function JobFns(j: Job, user: Option<Fn>): seq<Fn> {
    match j
    case CallFn(fn) => [fn]
    case SpiDone => if user.Some? then [user.value] else []
    case Other => []
  }

  function QueueFns(q: seq<Job>, user: Option<Fn>): seq<Fn> {
    if q == [] then [] else JobFns(q[0], user) + QueueFns(q[1..], user)
  }

  function LoopFns(s: State): seq<Fn> {
    match s.loop
    case DoneStart => JobFns(SpiDone, s.user)
    case HasCb(cb) => [cb]
    case Calling(cb) => [cb]
    case _ => []
  }

  function BusFns(s: State): seq<Fn> {
    if s.dev.InFlight? then JobFns(SpiDone, s.user) else []
  }

  /** The accepted callbacks that are still to be made, oldest first. */
  function Pending(s: State): seq<Fn> {
    LoopFns(s) + (QueueFns(s.queue, s.user) + BusFns(s))
  }

  /** The callbacks of the transfers whose completion was posted, in acceptance order. */
  function Posted(es: seq<Entry>): seq<Fn> {
    if es == [] then []
    else Posted(es[..|es| - 1]) + (if es[|es| - 1].posted then [es[|es| - 1].fn] else [])
  }

  lemma PostedSnoc(es: seq<Entry>, e: Entry)
    ensures Posted(es + [e]) == Posted(es) + (if e.posted then [e.fn] else [])
  {
    assert (es + [e])[..|es|] == es;
  }

  lemma {:induction false} QueueFnsSnoc(q: seq<Job>, j: Job, user: Option<Fn>)
    ensures QueueFns(q + [j], user) == QueueFns(q, user) + JobFns(j, user)
  {
    if q == [] {
      assert q + [j] == [j];
      assert QueueFns([], user) == [];
    } else {
      assert (q + [j])[1..] == q[1..] + [j];
      QueueFnsSnoc(q[1..], j, user);
    }
  }

  /** Without a queued completion, trans.user does not matter to the queue. */
  lemma {:induction false} QueueFnsIgnoreUser(q: seq<Job>, u: Option<Fn>, v: Option<Fn>)
    requires NumDone(q) == 0
    ensures QueueFns(q, u) == QueueFns(q, v)
  {
    if q != [] {
      QueueFnsIgnoreUser(q[1..], u, v);
    }
  }

  /** Callbacks made, then those on their way, are those posted, in acceptance order. */
  predicate Accounted(y: System) {
    && y.log.fired + Pending(y.s) == Posted(y.log.accepted)
    && (y.s.dev.InFlight? ==> y.log.accepted != [] && y.s.user.Some?
                              && y.log.accepted[|y.log.accepted| - 1] == Entry(y.s.user.value, true))
  }

  predicate Inv(y: System) {
    Control(y.s) && Accounted(y)
  }

  lemma XferCallAccounted(y: System, numbytes: nat, fn: Fn)
    requires Inv(y) && Enabled(y.s, XferCall(numbytes, fn))
    ensures Accounted(Next(y, XferCall(numbytes, fn)))
  {
    if Ready(y.s) {
      QueueFnsIgnoreUser(y.s.queue, y.s.user, None);
      QueueFnsIgnoreUser(y.s.queue, y.s.user, Some(fn));
    }
  }

  lemma BusTakesTransfer(s: State)
    requires Control(s) && s.xfer.Queueing?
    ensures Pending(NextState(s, QueueTrans(true))) == Pending(s) + [s.xfer.fn]
  {
    var t := NextState(s, QueueTrans(true));
    var loop, queue := LoopFns(s), QueueFns(s.queue, s.user);
    assert BusFns(s) == [] && BusFns(t) == [s.xfer.fn] && LoopFns(t) == loop;
    assert loop + (queue + [s.xfer.fn]) == loop + (queue + []) + [s.xfer.fn];
  }

  lemma BusRefusesTransfer(s: State)
    requires Control(s) && s.xfer.Queueing?
    ensures Pending(NextState(s, QueueTrans(false))) == Pending(s)
  {
  }

  lemma QueueTransAccounted(y: System, ok: bool)
    requires Inv(y) && Enabled(y.s, QueueTrans(ok))
    ensures Accounted(Next(y, QueueTrans(ok)))
  {
    if ok {
      BusTakesTransfer(y.s);
      PostedSnoc(y.log.accepted, Entry(y.s.xfer.fn, true));
      assert y.log.fired + (Pending(y.s) + [y.s.xfer.fn]) == y.log.fired + Pending(y.s) + [y.s.xfer.fn];
    } else {
      BusRefusesTransfer(y.s);
    }
  }

  lemma Regroup(fired: seq<Fn>, job: seq<Fn>, queue: seq<Fn>, bus: seq<Fn>)
    ensures fired + ((job + queue) + bus) == fired + (job + (queue + bus)) == (fired + job) + (queue + bus)
  {
  }

  lemma PostSyncPends(s: State)
    requires Control(s) && Enabled(s, PostSync)
    ensures Pending(NextState(s, PostSync)) == if Rejected(s) then Pending(s) else Pending(s) + [s.xfer.fn]
  {
    var loop, queue := LoopFns(s), QueueFns(s.queue, s.user);
    QueueFnsSnoc(s.queue, CallFn(s.xfer.fn), s.user);
    assert BusFns(s) == [] && BusFns(NextState(s, PostSync)) == [] && LoopFns(NextState(s, PostSync)) == loop;
    assert loop + ((queue + [s.xfer.fn]) + []) == loop + (queue + []) + [s.xfer.fn];
  }

  lemma PostSyncAccounted(y: System)
    requires Inv(y) && Enabled(y.s, PostSync)
    ensures Accounted(Next(y, PostSync))
  {
    PostSyncPends(y.s);
    PostedSnoc(y.log.accepted, Entry(y.s.xfer.fn, !Rejected(y.s)));
    assert y.log.fired + (Pending(y.s) + [y.s.xfer.fn]) == y.log.fired + Pending(y.s) + [y.s.xfer.fn];
  }

  lemma DoneIsrPosts(y: System)
    requires Inv(y) && Enabled(y.s, DoneIsr) && !Rejected(y.s)
    ensures Accounted(Next(y, DoneIsr))
  {
    var q := QueueFns(y.s.queue, y.s.user);
    QueueFnsSnoc(y.s.queue, SpiDone, y.s.user);
    assert LoopFns(NextState(y.s, DoneIsr)) == LoopFns(y.s);
    assert (q + BusFns(y.s)) + [] == q + BusFns(y.s);
  }

  lemma DoneIsrDrops(y: System)
    requires Inv(y) && Enabled(y.s, DoneIsr) && Rejected(y.s)
    ensures Accounted(Next(y, DoneIsr))
  {
    var es, u := y.log.accepted, y.s.user.value;
    var n := |es| - 1;
    var l, r := y.log.fired + (LoopFns(y.s) + QueueFns(y.s.queue, y.s.user)), Posted(es[..n]);
    PostedSnoc(es[..n], Entry(u, false));
    assert y.log.fired + Pending(y.s) == l + [u] && Posted(es) == r + [u];
    assert (l + [u])[..|l|] == l && (r + [u])[..|r|] == r;
    assert LoopFns(NextState(y.s, DoneIsr)) == LoopFns(y.s);
    assert y.log.fired + (LoopFns(y.s) + (QueueFns(y.s.queue, y.s.user) + [])) == l;
  }

  lemma TakeCompletion(y: System)
    requires Inv(y) && Enabled(y.s, TakeJob) && y.s.queue[0].SpiDone?
    ensures Accounted(Next(y, TakeJob))
  {
    Regroup(y.log.fired, JobFns(SpiDone, y.s.user), QueueFns(y.s.queue[1..], y.s.user), BusFns(y.s));
    assert Pending(y.s) == QueueFns(y.s.queue, y.s.user) + BusFns(y.s);
  }

  lemma TakeCallback(y: System)
    requires Inv(y) && Enabled(y.s, TakeJob) && y.s.queue[0].CallFn?
    ensures Accounted(Next(y, TakeJob))
  {
    Regroup(y.log.fired, [y.s.queue[0].fn], QueueFns(y.s.queue[1..], y.s.user), BusFns(y.s));
    assert Pending(y.s) == QueueFns(y.s.queue, y.s.user) + BusFns(y.s);
    assert Pending(NextState(y.s, TakeJob)) == QueueFns(y.s.queue[1..], y.s.user) + BusFns(y.s);
  }

  lemma TakeOther(y: System)
    requires Inv(y) && Enabled(y.s, TakeJob) && y.s.queue[0].Other?
    ensures Accounted(Next(y, TakeJob))
  {
    assert QueueFns(y.s.queue, y.s.user) == QueueFns(y.s.queue[1..], y.s.user);
  }

  lemma TakeKeepsAccounts(y: System)
    requires Inv(y) && Enabled(y.s, TakeJob)
    ensures Accounted(Next(y, TakeJob))
  {
    match y.s.queue[0]
    case SpiDone => TakeCompletion(y);
    case CallFn(_) => TakeCallback(y);
    case Other => TakeOther(y);
  }

  lemma MakeCallAccounted(y: System)
    requires Inv(y) && Enabled(y.s, MakeCall)
    ensures Accounted(Next(y, MakeCall))
  {
    var rest := QueueFns(y.s.queue, y.s.user) + BusFns(y.s);
    assert y.log.fired + ([y.s.loop.cb] + rest) == (y.log.fired + [y.s.loop.cb]) + ([] + rest);
  }

  lemma PostOtherAccounted(y: System)
    requires Inv(y) && Enabled(y.s, PostOther)
    ensures Accounted(Next(y, PostOther))
  {
    var q := QueueFns(y.s.queue, y.s.user);
    QueueFnsSnoc(y.s.queue, Other, y.s.user);
    assert q + [] == q;
  }

  /** The steps that neither begin, finish nor hand on a transfer leave what is pending as it is. */
  lemma QuietStepsAccounted(y: System, e: Event)
    requires Inv(y) && Enabled(y.s, e)
    requires e.MarkInUse? || e.PollTransmit? || e.InitCall? || e.CheckResult? || e.ClearInUse? || e.ReturnCall?
    ensures Accounted(Next(y, e))
  {
    var t := NextState(y.s, e);
    assert t.queue == y.s.queue && t.user == y.s.user && BusFns(t) == BusFns(y.s) && LoopFns(t) == LoopFns(y.s);
  }

  lemma StepKeepsAccounts(y: System, e: Event)
    requires Inv(y) && Enabled(y.s, e)
    ensures Accounted(Next(y, e))
  {
    match e
    case XferCall(numbytes, fn) => XferCallAccounted(y, numbytes, fn);
    case QueueTrans(ok) => QueueTransAccounted(y, ok);
    case PostSync => PostSyncAccounted(y);
    case DoneIsr => if Rejected(y.s) { DoneIsrDrops(y); } else { DoneIsrPosts(y); }
    case TakeJob => TakeKeepsAccounts(y);
    case MakeCall => MakeCallAccounted(y);
    case PostOther => PostOtherAccounted(y);
    case _ => QuietStepsAccounted(y, e);
  }

  lemma StepKeepsInv(y: System, e: Event)
    requires Inv(y) && Enabled(y.s, e)
    ensures Inv(Next(y, e))
  {
    StepKeepsControl(y.s, e);
    StepKeepsAccounts(y, e);
  }
}
