// tim_worker_run and its drain: every interleaving of producers, the one-shot timer and the loop that
// empties the queue in the timer task (main/hw-esp32.c:107-118, main/worker.c).

module TimWorker {
  import opened Worker

  /** Where the drain in the timer task is: between callbacks, before the idle call, before the receive,
      or in a called function. */
  datatype Drain = Off | Top | Receiving | Running

  datatype State = State(
    queue: seq<Item>,
    armed: bool,          // the one-shot timer
    drain: Drain,
    posted: nat,          // producers that have enqueued and not yet stopped the timer
    stopped: nat,         // producers that have stopped the timer and not yet started it
    accepted: seq<Item>, executed: seq<Item>)

  datatype Event =
    | Post(item: Item)    // worker_run in tim_worker_run, by any task, interrupt or called function
    | StopTimer           // esp_timer_stop by a producer
    | StartTimer          // esp_timer_start_once by a producer; no effect on a timer that is armed
    | Fire                // the timer task calls jd_tim_worker
    | CallIdle | Receive | Return

  const INIT := State([], false, Off, 0, 0, [], [])

  predicate Enabled(s: State, e: Event) {
    match e
    case Post(_) => true
    case StopTimer => s.posted > 0
    case StartTimer => s.stopped > 0
    case Fire => s.armed && s.drain.Off?
    case CallIdle => s.drain.Top?
    case Receive => s.drain.Receiving?
    case Return => s.drain.Running?
  }

  function Next(s: State, e: Event): State
    requires Enabled(s, e)
  {
    match e
    case Post(item) =>
      if |s.queue| < QUEUE_LEN then
        s.(queue := s.queue + [item], accepted := s.accepted + [item], posted := s.posted + 1)
      else s
    case StopTimer => s.(armed := false, posted := s.posted - 1, stopped := s.stopped + 1)
    case StartTimer => s.(armed := true, stopped := s.stopped - 1)
    case Fire => s.(armed := false, drain := Top)
    case CallIdle => s.(drain := Receiving)
    case Receive =>
      if s.queue == [] then s.(drain := Off)
      else s.(queue := s.queue[1..], executed := s.executed + [s.queue[0]], drain := Running)
    case Return => s.(drain := Top)
  }

  predicate Obeys(s: State, es: seq<Event>)
    decreases |es|
  {
    es == [] || (Enabled(s, es[0]) && Obeys(Next(s, es[0]), es[1..]))
  }

  function Run(s: State, es: seq<Event>): State
    requires Obeys(s, es)
    decreases |es|
  {
    if es == [] then s else Run(Next(s, es[0]), es[1..])
  }

  /** What is called is what was accepted, in order, and a non-empty queue always has somebody on the way. */
  predicate Inv(s: State) {
    && |s.queue| <= QUEUE_LEN
    && s.executed + s.queue == s.accepted
    && (s.queue != [] ==> s.armed || !s.drain.Off? || s.posted > 0 || s.stopped > 0)
  }

  lemma {:induction false} RunKeepsInv(s: State, es: seq<Event>)
    requires Inv(s) && Obeys(s, es)
    ensures Inv(Run(s, es))
    decreases |es|
  {
    if es != [] {
      RunKeepsInv(Next(s, es[0]), es[1..]);
    }
  }

  /** No lost wake-up, over every run: calls are made in acceptance order, and when the queue is not
      empty the timer is armed, or the drain has not yet failed to receive, or a producer is between
      its enqueue and its re-arm. */
  lemma NoLostWakeup(es: seq<Event>)
    requires Obeys(INIT, es)
    ensures var s := Run(INIT, es);
            && s.executed + s.queue == s.accepted
            && (s.queue != [] ==> s.armed || !s.drain.Off? || s.posted + s.stopped > 0)
  {
    RunKeepsInv(INIT, es);
  }

  /** The items of the run's posts that found fewer than 20 waiting, in order. */
  function ItemsPosted(s: State, es: seq<Event>): seq<Item>
    requires Obeys(s, es)
    decreases |es|
  {
    if es == [] then []
    else
      (if es[0].Post? && |s.queue| < 20 then [es[0].item] else []) + ItemsPosted(Next(s, es[0]), es[1..])
  }

  lemma {:induction false} AcceptedArePosted(s: State, es: seq<Event>)
    requires Obeys(s, es)
    ensures Run(s, es).accepted == s.accepted + ItemsPosted(s, es)
    decreases |es|
  {
    if es == [] {
      assert s.accepted + [] == s.accepted;
    } else {
      var t := Next(s, es[0]);
      AcceptedArePosted(t, es[1..]);
      var here := if es[0].Post? && |s.queue| < 20 then [es[0].item] else [];
      assert t.accepted == s.accepted + here;
      assert s.accepted + here + ItemsPosted(t, es[1..]) == s.accepted + (here + ItemsPosted(t, es[1..]));
    }
  }

  /** What has been called, followed by what waits, is what was posted while there was room: nothing else is ever
      called, and nothing out of order. */
  lemma CalledArePosted(es: seq<Event>)
    requires Obeys(INIT, es)
    ensures Run(INIT, es).executed + Run(INIT, es).queue == ItemsPosted(INIT, es)
  {
    RunKeepsInv(INIT, es);
    AcceptedArePosted(INIT, es);
    assert [] + ItemsPosted(INIT, es) == ItemsPosted(INIT, es);
  }

  // ---- every accepted call is made, whatever the schedule ----

  function DrainWeight(d: Drain): nat {
    match d
    case Off => 0
    case Receiving => 1
    case Top => 2
    case Running => 3
  }

  function Measure(s: State): nat {
    3 * |s.queue| + (if s.armed then 3 else 0) + DrainWeight(s.drain) + 5 * s.posted + 4 * s.stopped
  }

  /** No producer posts anything new. */
  predicate Internal(es: seq<Event>) {
    forall i :: 0 <= i < |es| ==> !es[i].Post?
  }

  /** No producer, drain or timer is under way. */
  predicate Settled(s: State) {
    s.posted == 0 && s.stopped == 0 && s.drain.Off? && !s.armed
  }

  /** Nothing but a new post can happen. */
  ghost predicate AtRest(s: State) {
    forall e: Event :: Enabled(s, e) ==> e.Post?
  }

  lemma SettledOnlyWhenStuck(s: State)
    ensures Settled(s) <==> AtRest(s)
  {
    if !Settled(s) {
      var e := if s.posted > 0 then StopTimer else if s.stopped > 0 then StartTimer else
               if s.drain.Top? then CallIdle else if s.drain.Receiving? then Receive else
               if s.drain.Running? then Return else Fire;
      assert Enabled(s, e) && !e.Post?;
    }
  }

  lemma {:induction false} InternalRunsAreShort(s: State, es: seq<Event>)
    requires Obeys(s, es) && Internal(es)
    ensures |es| + Measure(Run(s, es)) <= Measure(s) && Run(s, es).accepted == s.accepted
    decreases |es|
  {
    if es != [] {
      assert !es[0].Post?;
      assert Internal(es[1..]);
      InternalRunsAreShort(Next(s, es[0]), es[1..]);
    }
  }

  /** Once producers post nothing new, every schedule is short, and when it can go no further every
      accepted call has been made exactly once, in order. */
  lemma EveryScheduleDrains(es: seq<Event>, rest: seq<Event>)
    requires Obeys(INIT, es) && Obeys(Run(INIT, es), rest) && Internal(rest)
    ensures var s, t := Run(INIT, es), Run(Run(INIT, es), rest);
            && |rest| <= Measure(s)
            && (AtRest(t) ==> t.executed == ItemsPosted(INIT, es))
  {
    RunKeepsInv(INIT, es);
    RunKeepsInv(Run(INIT, es), rest);
    InternalRunsAreShort(Run(INIT, es), rest);
    SettledOnlyWhenStuck(Run(Run(INIT, es), rest));
    AcceptedArePosted(INIT, es);
    assert [] + ItemsPosted(INIT, es) == ItemsPosted(INIT, es);
  }

  /** worker_run answers -1 exactly when the queue is full, and then nothing at all changes. */
  lemma RejectedPostChangesNothing(s: State, item: Item)
    requires Inv(s)
    ensures Next(s, Post(item)) == s <==> |s.queue| == QUEUE_LEN
  {
    if |s.queue| < QUEUE_LEN {
      assert |Next(s, Post(item)).queue| == |s.queue| + 1;
    }
  }
}
