// The USB transmit path (main/usb.c:43-68, the S2 and S3 branch): producers that ask for a refill,
// the flag that coalesces their requests, and fill_queue in the deferred-work loop. The bridge behind
// jd_usb_pull (jacdac-c) is not part of this model: it is a byte queue.

module UsbProtocol {
  import opened Bytes

  const CHUNK := 64

  /** Where fill_queue is. */
  datatype Fill = Off | Begin | CheckSpace | Pull | Write(chunk: seq<byte>)

  datatype State = State(
    scheduled: bool,      // fq_scheduled
    queued: nat,          // calls of fill_queue waiting in the deferred-work queue
    fill: Fill,
    about: nat,           // producers about to call jd_usb_pull_ready
    tested: nat,          // producers that found the flag clear and have not yet set it
    flagged: nat,         // producers that have set the flag and not yet posted
    bridge: seq<byte>, cdc: seq<byte>,
    input: seq<byte>, sent: seq<byte>)  // all that ever entered the bridge, all that the host has read

  /** Nothing anywhere. Below, cap is the size of the CDC transmit buffer. */
  function Init(): State {
    State(false, 0, Off, 0, 0, 0, [], [], [], [])
  }

  datatype Event =
    | Produce(data: seq<byte>)   // bytes enter the bridge, then jd_usb_pull_ready is called
    | HostReads(n: nat)          // the host takes bytes, then tud_cdc_tx_complete_cb is called
    | Test | SetFlag | Post(ok: bool)
    | TakeCall | ClearFlag | Check | PullChunk(n: nat) | WriteChunk

  predicate Room(s: State, cap: nat) {
    |s.cdc| + CHUNK <= cap
  }

  predicate Enabled(s: State, e: Event, cap: nat) {
    match e
    case Produce(data) => data != []
    case HostReads(n) => 0 < n <= |s.cdc|
    case Test => s.about > 0
    case SetFlag => s.tested > 0
    case Post(_) => s.flagged > 0
    case TakeCall => s.fill.Off? && s.queued > 0
    case ClearFlag => s.fill.Begin?
    case Check => s.fill.CheckSpace?
    case PullChunk(n) => s.fill.Pull? && n <= CHUNK && n <= |s.bridge| && (n == 0 <==> s.bridge == [])
    case WriteChunk => s.fill.Write?
  }

  function Next(s: State, e: Event, cap: nat): State
    requires Enabled(s, e, cap)
  {
    match e
    case Produce(data) => s.(bridge := s.bridge + data, input := s.input + data, about := s.about + 1)
    case HostReads(n) => s.(cdc := s.cdc[n..], sent := s.sent + s.cdc[..n], about := s.about + 1)
    case Test => s.(about := s.about - 1, tested := if s.scheduled then s.tested else s.tested + 1)
    case SetFlag => s.(scheduled := true, tested := s.tested - 1, flagged := s.flagged + 1)
    case Post(ok) => s.(flagged := s.flagged - 1, queued := if ok then s.queued + 1 else s.queued)
    case TakeCall => s.(queued := s.queued - 1, fill := Begin)
    case ClearFlag => s.(scheduled := false, fill := CheckSpace)
    case Check => s.(fill := if Room(s, cap) then Pull else Off)
    case PullChunk(n) => s.(bridge := s.bridge[n..], fill := if n > 0 then Write(s.bridge[..n]) else Off)
    case WriteChunk => s.(cdc := s.cdc + s.fill.chunk, fill := CheckSpace)
  }

  predicate Obeys(s: State, es: seq<Event>, cap: nat)
    decreases |es|
  {
    es == [] || (Enabled(s, es[0], cap) && Obeys(Next(s, es[0], cap), es[1..], cap))
  }

  function Run(s: State, es: seq<Event>, cap: nat): State
    requires Obeys(s, es, cap)
    decreases |es|
  {
    if es == [] then s else Run(Next(s, es[0], cap), es[1..], cap)
  }

  /** Every post of the run is accepted. */
  predicate PostsAccepted(es: seq<Event>) {
    forall i :: 0 <= i < |es| ==> es[i].Post? ==> es[i].ok
  }

  // ---- nothing is lost ----

  function InHand(f: Fill): seq<byte> {
    match f
    case Write(chunk) => chunk
    case _ => []
  }

  /** Every byte is somewhere, in order, and the CDC buffer is never overfilled. */
  predicate Conserved(s: State, cap: nat) {
    && s.sent + (s.cdc + (InHand(s.fill) + s.bridge)) == s.input
    && |s.cdc| <= cap
    && (s.fill.Pull? || s.fill.Write? ==> Room(s, cap))
    && |InHand(s.fill)| <= CHUNK
  }

  /** A set flag means a call of fill_queue is queued, being posted, or has yet to clear it. */
  predicate FlagHonest(s: State) {
    s.scheduled ==> s.queued > 0 || s.flagged > 0 || s.fill.Begin?
  }

  /** Somebody will look at the bridge again. */
  predicate RefillComing(s: State) {
    s.queued > 0 || !s.fill.Off? || s.about > 0 || s.tested > 0 || s.flagged > 0
  }

  predicate Woken(s: State, cap: nat) {
    s.bridge != [] ==> RefillComing(s) || !Room(s, cap)
  }

  predicate Inv(s: State, cap: nat) {
    Conserved(s, cap) && FlagHonest(s) && Woken(s, cap)
  }

  lemma StepConserves(s: State, e: Event, cap: nat)
    requires Conserved(s, cap) && Enabled(s, e, cap)
    ensures Conserved(Next(s, e, cap), cap)
  {
    match e
    case Produce(data) =>
      assert s.sent + (s.cdc + (InHand(s.fill) + s.bridge)) + data
             == s.sent + (s.cdc + (InHand(s.fill) + (s.bridge + data)));
    case HostReads(n) =>
      assert s.cdc == s.cdc[..n] + s.cdc[n..];
      assert (s.sent + s.cdc[..n]) + (s.cdc[n..] + (InHand(s.fill) + s.bridge))
             == s.sent + (s.cdc + (InHand(s.fill) + s.bridge));
    case PullChunk(n) =>
      assert s.bridge[..n] + s.bridge[n..] == [] + s.bridge;
    case WriteChunk =>
      assert (s.cdc + s.fill.chunk) + ([] + s.bridge) == s.cdc + (s.fill.chunk + s.bridge);
    case _ =>
  }

  lemma StepKeepsInv(s: State, e: Event, cap: nat)
    requires Inv(s, cap) && Enabled(s, e, cap) && (e.Post? ==> e.ok)
    ensures Inv(Next(s, e, cap), cap)
  {
    StepConserves(s, e, cap);
  }

  lemma {:induction false} RunKeepsInv(s: State, es: seq<Event>, cap: nat)
    requires Inv(s, cap) && Obeys(s, es, cap) && PostsAccepted(es)
    ensures Inv(Run(s, es, cap), cap)
    decreases |es|
  {
    if es != [] {
      StepKeepsInv(s, es[0], cap);
      assert PostsAccepted(es[1..]);
      RunKeepsInv(Next(s, es[0], cap), es[1..], cap);
    }
  }

  /** Over every run whose posts are accepted: no byte is lost or reordered, a set flag means fill_queue
      is queued or about to be, and bytes in the bridge mean that fill_queue will look at them, or that
      the CDC buffer has under 64 free bytes. */
  lemma NothingIsLost(es: seq<Event>, cap: nat)
    requires Obeys(Init(), es, cap) && PostsAccepted(es)
    ensures var s := Run(Init(), es, cap);
            && s.sent + (s.cdc + (InHand(s.fill) + s.bridge)) == s.input && |s.cdc| <= cap
            && (s.scheduled ==> s.queued > 0 || s.flagged > 0 || s.fill.Begin?)
            && (s.bridge != [] ==> RefillComing(s) || !Room(s, cap))
  {
    RunKeepsInv(Init(), es, cap);
  }

  // ---- every schedule gets the bytes out ----

  /** No new bytes, and the host reads nothing. */
  predicate Internal(es: seq<Event>) {
    forall i :: 0 <= i < |es| ==> !es[i].Produce? && !es[i].HostReads?
  }

  function FillWeight(f: Fill): nat {
    match f
    case Off => 0
    case Begin => 4
    case CheckSpace => 3
    case Pull => 2
    case Write(_) => 4
  }

  function Measure(s: State): nat {
    4 * |s.bridge| + FillWeight(s.fill) + 5 * s.queued + 6 * s.flagged + 7 * s.tested + 8 * s.about
  }

  lemma {:induction false} InternalRunsAreShort(s: State, es: seq<Event>, cap: nat)
    requires Obeys(s, es, cap) && Internal(es)
    ensures |es| + Measure(Run(s, es, cap)) <= Measure(s) && Run(s, es, cap).input == s.input
    decreases |es|
  {
    if es != [] {
      assert !es[0].Produce? && !es[0].HostReads?;
      assert Internal(es[1..]);
      InternalRunsAreShort(Next(s, es[0], cap), es[1..], cap);
    }
  }

  /** Only new bytes or the host can set things going again. */
  ghost predicate AtRest(s: State, cap: nat) {
    forall e: Event :: Enabled(s, e, cap) ==> e.Produce? || e.HostReads?
  }

  /** Things come to rest exactly when nobody is on the way to the bridge. */
  lemma AtRestIff(s: State, cap: nat)
    ensures AtRest(s, cap) <==> !RefillComing(s)
  {
    if RefillComing(s) {
      var e := if s.about > 0 then Test else if s.tested > 0 then SetFlag else if s.flagged > 0 then Post(true) else
               match s.fill
               case Off => TakeCall
               case Begin => ClearFlag
               case CheckSpace => Check
               case Pull => PullChunk(Min(1, |s.bridge|))
               case Write(_) => WriteChunk;
      assert Enabled(s, e, cap);
    }
  }

  // ---- the ignored result of the post ----

  /** The flag is set, and nobody is left who could clear it: no call of fill_queue is queued or has yet to
      pass its first line, and no producer is between its test and its post. */
  predicate Stranded(s: State) {
    s.scheduled && s.queued == 0 && s.flagged == 0 && s.tested == 0 && !s.fill.Begin?
  }

  /** A post that is rejected now leaves nobody: the caller is the last producer on its way, and nothing is queued. */
  predicate LastHope(s: State) {
    s.scheduled && s.queued == 0 && s.flagged == 1 && s.tested == 0 && !s.fill.Begin?
  }

  /** Once stranded, always stranded, and once fill_queue has returned nothing leaves the bridge again. */
  lemma {:induction false} StrandedForEver(s: State, es: seq<Event>, cap: nat)
    requires Stranded(s) && Obeys(s, es, cap)
    ensures var t := Run(s, es, cap);
            Stranded(t) && (s.fill.Off? ==> t.fill.Off? && s.bridge <= t.bridge)
    decreases |es|
  {
    if es != [] {
      StrandedForEver(Next(s, es[0], cap), es[1..], cap);
    }
  }

  /** A step that brings a set flag closer to being cleared. */
  function Clearing(s: State): Event {
    if s.fill.Begin? then ClearFlag
    else if s.flagged > 0 then Post(true)
    else if s.tested > 0 then SetFlag
    else match s.fill
         case CheckSpace => Check
         case Pull => PullChunk(Min(1, |s.bridge|))
         case Write(_) => WriteChunk
         case _ => TakeCall
  }

  lemma {:induction false} ClearingRun(s: State, cap: nat) returns (es: seq<Event>)
    requires s.scheduled && !Stranded(s)
    ensures Obeys(s, es, cap) && !Run(s, es, cap).scheduled
    decreases Measure(s)
  {
    var e := Clearing(s);
    var t := Next(s, e, cap);
    var rest: seq<Event> := [];
    if t.scheduled {
      rest := ClearingRun(t, cap);
    }
    es := [e] + rest;
    assert es[1..] == rest;
  }

  /** Stranded means what it says: the flag stays set in every continuation. */
  lemma StrandedIff(s: State, cap: nat)
    ensures Stranded(s) <==> forall es :: Obeys(s, es, cap) ==> Run(s, es, cap).scheduled
  {
    if Stranded(s) {
      forall es | Obeys(s, es, cap) ensures Run(s, es, cap).scheduled {
        StrandedForEver(s, es, cap);
      }
    } else if s.scheduled {
      var es := ClearingRun(s, cap);
      assert Obeys(s, es, cap) && !Run(s, es, cap).scheduled;
    } else {
      assert Obeys(s, [], cap) && !Run(s, [], cap).scheduled;
    }
  }

  /** Some post of the run is rejected when it was the last hope. */
  predicate LosesLastHope(s: State, es: seq<Event>, cap: nat)
    requires Obeys(s, es, cap)
    decreases |es|
  {
    es != [] && ((es[0] == Post(false) && LastHope(s)) || LosesLastHope(Next(s, es[0], cap), es[1..], cap))
  }

  /** A step strands the flag exactly when it is such a post. */
  lemma StrandingStep(s: State, e: Event, cap: nat)
    requires Enabled(s, e, cap) && !Stranded(s)
    ensures Stranded(Next(s, e, cap)) <==> e == Post(false) && LastHope(s)
  {
  }

  /** A run strands the flag exactly when one of its posts was rejected as the last hope. */
  lemma {:induction false} StrandsIff(s: State, es: seq<Event>, cap: nat)
    requires Obeys(s, es, cap) && !Stranded(s)
    ensures Stranded(Run(s, es, cap)) <==> LosesLastHope(s, es, cap)
    decreases |es|
  {
    if es != [] {
      var t := Next(s, es[0], cap);
      StrandingStep(s, es[0], cap);
      if Stranded(t) {
        StrandedForEver(t, es[1..], cap);
      } else {
        StrandsIff(t, es[1..], cap);
      }
    }
  }

  /** While the flag is clear, waiting bytes are looked at by somebody who does not depend on a post in progress. */
  predicate WatchedWhileClear(s: State, cap: nat) {
    !s.scheduled && s.bridge != [] && Room(s, cap) ==> s.queued > 0 || !s.fill.Off? || s.about > 0 || s.tested > 0
  }

  lemma {:induction false} RunStaysWatched(s: State, es: seq<Event>, cap: nat)
    requires Obeys(s, es, cap) && Conserved(s, cap) && WatchedWhileClear(s, cap)
    ensures Conserved(Run(s, es, cap), cap) && WatchedWhileClear(Run(s, es, cap), cap)
    decreases |es|
  {
    if es != [] {
      StepConserves(s, es[0], cap);
      RunStaysWatched(Next(s, es[0], cap), es[1..], cap);
    }
  }

  lemma {:induction false} RunConcat(s: State, a: seq<Event>, b: seq<Event>, cap: nat)
    requires Obeys(s, a, cap) && Obeys(Run(s, a, cap), b, cap)
    ensures Obeys(s, a + b, cap) && Run(s, a + b, cap) == Run(Run(s, a, cap), b, cap)
    decreases |a|
  {
    if a == [] {
      assert a + b == b;
    } else {
      RunConcat(Next(s, a[0], cap), a[1..], b, cap);
      assert (a + b)[1..] == a[1..] + b;
    }
  }

  /** Whatever posts are rejected: without new bytes and host reads every schedule is short, and when it has come
      to rest the flag is stranded exactly when a post was rejected as the last hope; otherwise every byte is with
      the host or in the CDC buffer, or that buffer has under 64 free bytes. */
  lemma EveryScheduleDeliversOrStrands(es: seq<Event>, rest: seq<Event>, cap: nat)
    requires Obeys(Init(), es, cap) && Obeys(Run(Init(), es, cap), rest, cap) && Internal(rest)
    ensures |rest| <= Measure(Run(Init(), es, cap)) && Obeys(Init(), es + rest, cap)
    ensures var t := Run(Run(Init(), es, cap), rest, cap);
            && (Stranded(t) <==> LosesLastHope(Init(), es + rest, cap))
            && (AtRest(t, cap) && !Stranded(t) ==> t.sent + t.cdc == t.input || !Room(t, cap))
  {
    var s := Run(Init(), es, cap);
    var t := Run(s, rest, cap);
    InternalRunsAreShort(s, rest, cap);
    RunConcat(Init(), es, rest, cap);
    StrandsIff(Init(), es + rest, cap);
    RunStaysWatched(Init(), es + rest, cap);
    AtRestIff(t, cap);
    if !RefillComing(t) && !Stranded(t) && Room(t, cap) {
      assert t.sent + (t.cdc + ([] + [])) == t.sent + t.cdc;
    }
  }

  lemma {:induction false} AcceptedPostsKeepHope(s: State, es: seq<Event>, cap: nat)
    requires Obeys(s, es, cap) && PostsAccepted(es)
    ensures !LosesLastHope(s, es, cap)
    decreases |es|
  {
    if es != [] {
      assert PostsAccepted(es[1..]);
      AcceptedPostsKeepHope(Next(s, es[0], cap), es[1..], cap);
    }
  }

  /** In particular, when every post is accepted everything is delivered. */
  lemma EveryScheduleDelivers(es: seq<Event>, rest: seq<Event>, cap: nat)
    requires Obeys(Init(), es, cap) && Obeys(Run(Init(), es, cap), rest, cap)
    requires PostsAccepted(es) && PostsAccepted(rest) && Internal(rest)
    ensures var s, t := Run(Init(), es, cap), Run(Run(Init(), es, cap), rest, cap);
            && |rest| <= Measure(s)
            && (AtRest(t, cap) ==> t.sent + t.cdc == s.input || !Room(t, cap))
  {
    EveryScheduleDeliversOrStrands(es, rest, cap);
    AcceptedPostsKeepHope(Init(), es + rest, cap);
    InternalRunsAreShort(Run(Init(), es, cap), rest, cap);
  }

  /** It happens: one byte, one producer, one rejected post. */
  lemma RejectedPostStrands(cap: nat)
    ensures exists es :: Obeys(Init(), es, cap) && Stranded(Run(Init(), es, cap)) && Run(Init(), es, cap).bridge == [0]
  {
    var s1 := Next(Init(), Produce([0]), cap);
    var s2 := Next(s1, Test, cap);
    var s3 := Next(s2, SetFlag, cap);
    var s4 := Next(s3, Post(false), cap);
    var e1: seq<Event> := [Post(false)];
    var e2 := [SetFlag] + e1;
    var e3 := [Test] + e2;
    var e4 := [Produce([0])] + e3;
    assert e2[1..] == e1 && e3[1..] == e2 && e4[1..] == e3;
    assert Obeys(s3, e1, cap) && Run(s3, e1, cap) == s4;
    assert Obeys(s2, e2, cap) && Run(s2, e2, cap) == s4;
    assert Obeys(s1, e3, cap) && Run(s1, e3, cap) == s4;
    assert Obeys(Init(), e4, cap) && Run(Init(), e4, cap) == s4;
  }
}
