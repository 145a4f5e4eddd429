// The LED strip channel of main/ledstrip.c: in which states of the RMT channel it is deleted, enabled,
// disabled and transmitted on, over every interleaving of sends, completion interrupts and deferred work.
//
// Two bodies of devs_led_strip_send never interleave with each other; the RMT calls succeed when the
// channel is in the state they need.

module LedStrip {
  import opened Bytes

  datatype Chan = Absent | Off | On

  /** Where devs_led_strip_send is: the step it makes next. */
  datatype Send = NoSend | Delete | Create | Enable | Mark | Transmit

  /** Where led_strip_done_outside_isr is. */
  datatype Done = NoDone | Disable | Clear | Call

  datatype State = State(
    chan: Chan, config: (nat, nat),  // the channel, and led_pin with last_ctx_no
    made: (nat, nat),                // the pin and context for which the channel was made
    inUse: bool, send: Send, done: Done,
    transmitting: bool, queued: nat, // the hardware, and the completions in the deferred-work queue
    lost: bool,                      // a completion found that queue full
    wrong: bool)                     // a call found the channel in the wrong state, or the assertion failed

  function Start(): State {
    State(Absent, (0, 0), (0, 0), false, NoSend, NoDone, false, 0, false, false)
  }

  datatype Event = SendCall(pin: nat, ctx: nat) | SendStep | DoneIsr(posted: bool) | TakeDone | DoneStep

  predicate Enabled(s: State, e: Event) {
    match e
    case SendCall(_, _) => s.send.NoSend?
    case SendStep => !s.send.NoSend?
    case DoneIsr(_) => s.transmitting
    case TakeDone => s.done.NoDone? && s.queued > 0
    case DoneStep => !s.done.NoDone?
  }

  function Begin(s: State, pin: nat, ctx: nat): State {
    if s.inUse then s
    else if s.chan.Absent? || s.config != (pin, ctx) then
      s.(config := (pin, ctx), send := if s.chan.Absent? then Create else Delete)
    else s.(send := Enable)
  }

  function SendOn(s: State): State {
    match s.send
    case Delete => s.(chan := Absent, wrong := s.wrong || !s.chan.Off?, send := Create)
    case Create => s.(chan := Off, made := s.config, wrong := s.wrong || !s.chan.Absent?, send := Enable)
    case Enable => s.(chan := On, wrong := s.wrong || !s.chan.Off?, send := Mark)
    case Mark => s.(inUse := true, send := Transmit)
    case Transmit => s.(transmitting := true, wrong := s.wrong || !s.chan.On? || s.transmitting, send := NoSend)
    case NoSend => s
  }

  function DoneOn(s: State): State {
    match s.done
    case Disable => s.(chan := Off, wrong := s.wrong || !s.chan.On? || s.transmitting, done := Clear)
    case Clear => s.(inUse := false, done := Call)
    case Call => s.(done := NoDone)
    case NoDone => s
  }

  function Next(s: State, e: Event): State
    requires Enabled(s, e)
  {
    match e
    case SendCall(pin, ctx) => Begin(s, pin, ctx)
    case SendStep => SendOn(s)
    case DoneIsr(posted) =>
      s.(transmitting := false, queued := if posted then s.queued + 1 else s.queued, lost := s.lost || !posted,
         wrong := s.wrong || !s.inUse)
    case TakeDone => s.(queued := s.queued - 1, done := Disable)
    case DoneStep => DoneOn(s)
  }

  predicate Obeys(s: State, es: seq<Event>)
    decreases |es|
  {
    es == [] || (Enabled(s, es[0]) && Obeys(Next(s, es[0]), es[1..]))
  }

  function Run(s: State, es: seq<Event>): State
    requires Obeys(s, es)
    decreases |es|
  {
    if es == [] then s else Run(Next(s, es[0]), es[1..])
  }

  function Bit(b: bool): nat {
    if b then 1 else 0
  }

  /** The places where an accepted transmission can be while the channel is on. */
  function Outstanding(s: State): nat {
    Bit(s.send.Transmit?) + Bit(s.transmitting) + s.queued + Bit(s.done.Disable?) + Bit(s.lost)
  }

  predicate Inv(s: State) {
    && !s.wrong
    && Outstanding(s) + Bit(s.done.Clear?) == Bit(s.inUse)
    && (s.chan.On? <==> s.send.Mark? || Outstanding(s) == 1)
    && (s.inUse ==> s.send.NoSend? || s.send.Transmit?)
    && (s.send.Delete? ==> s.chan.Off?) && (s.send.Create? ==> s.chan.Absent?) && (s.send.Enable? ==> s.chan.Off?)
    && (s.done.Clear? ==> s.chan.Off?)
  }

  lemma StepKeepsInv(s: State, e: Event)
    requires Enabled(s, e) && Inv(s)
    ensures Inv(Next(s, e))
  {
  }

  lemma {:induction false} RunKeepsInv(s: State, es: seq<Event>)
    requires Inv(s) && Obeys(s, es)
    ensures Inv(Run(s, es))
    decreases |es|
  {
    if es != [] {
      StepKeepsInv(s, es[0]);
      RunKeepsInv(Next(s, es[0]), es[1..]);
    }
  }

  /** No call found the channel in the wrong state, at most one transmission is outstanding, and while none of
      the code runs the channel is in use exactly when a completion was lost. */
  predicate UsedRightly(s: State) {
    && !s.wrong && Outstanding(s) <= 1
    && (s.send.NoSend? && s.done.NoDone? && !s.transmitting && s.queued == 0 ==> (s.inUse <==> s.lost))
  }

  lemma InvMeans(s: State)
    requires Inv(s)
    ensures UsedRightly(s)
  {
  }

  /** In every run rmt_enable and rmt_del_channel find the channel disabled, rmt_transmit and rmt_disable find it
      enabled and not transmitting, and the assertion in the interrupt holds. */
  lemma ChannelIsUsedRightly(s: State, es: seq<Event>)
    requires s == Start() && Obeys(s, es)
    ensures UsedRightly(Run(s, es))
  {
    RunKeepsInv(s, es);
    InvMeans(Run(s, es));
  }

  // ---- what the channel was made for ----

  /** The channel in place, unless it is about to be deleted, was made for led_pin and last_ctx_no. */
  predicate Fitting(s: State) {
    !s.chan.Absent? && !s.send.Delete? ==> s.made == s.config
  }

  /** Pin and context of the last send of the run that was not refused. */
  function LastCall(s: State, es: seq<Event>, before: (nat, nat)): (nat, nat)
    requires Obeys(s, es)
    decreases |es|
  {
    if es == [] then before
    else LastCall(Next(s, es[0]), es[1..],
                  if es[0].SendCall? && !s.inUse then (es[0].pin, es[0].ctx) else before)
  }

  lemma {:induction false} RunFits(s: State, es: seq<Event>, before: (nat, nat))
    requires Inv(s) && Obeys(s, es) && Fitting(s) && s.config == before
    ensures Inv(Run(s, es)) && Fitting(Run(s, es)) && Run(s, es).config == LastCall(s, es, before)
    decreases |es|
  {
    if es != [] {
      StepKeepsInv(s, es[0]);
      RunFits(Next(s, es[0]), es[1..], if es[0].SendCall? && !s.inUse then (es[0].pin, es[0].ctx) else before);
    }
  }

  /** In every run an enabled channel, and so every transmission, is one that was made for the pin and the context of
      the last send that was not refused. */
  lemma ChannelFitsCall(s: State, es: seq<Event>)
    requires s == Start() && Obeys(s, es)
    ensures var t := Run(s, es);
            t.chan.On? || t.transmitting ==> t.made == LastCall(s, es, (0, 0))
  {
    RunFits(s, es, (0, 0));
  }

  /** Once a completion was lost, the strip refuses every further send. */
  lemma {:induction false} LostForEver(s: State, es: seq<Event>)
    requires Inv(s) && s.lost && Obeys(s, es)
    ensures Run(s, es).lost && Run(s, es).inUse && Run(s, es).chan == s.chan && !Run(s, es).transmitting
    decreases |es|
  {
    if es != [] {
      StepKeepsInv(s, es[0]);
      LostForEver(Next(s, es[0]), es[1..]);
    }
  }

  // ---- the code ----

  lemma {:induction false} RunConcat(s: State, a: seq<Event>, b: seq<Event>)
    requires Obeys(s, a) && Obeys(Run(s, a), b)
    ensures Obeys(s, a + b) && Run(s, a + b) == Run(Run(s, a), b)
    decreases |a|
  {
    if a == [] {
      assert a + b == b;
    } else {
      RunConcat(Next(s, a[0]), a[1..], b);
      assert (a + b)[1..] == a[1..] + b;
    }
  }

  predicate Leads(s: State, es: seq<Event>, t: State) {
    Obeys(s, es) && Run(s, es) == t
  }

  lemma LeadsStep(s: State, es: seq<Event>, e: Event)
    requires Obeys(s, es) && Enabled(Run(s, es), e)
    ensures Leads(s, es + [e], Next(Run(s, es), e))
  {
    assert [e][1..] == [];
    RunConcat(s, es, [e]);
  }

  class Strip {
    var chan: Chan
    var config: (nat, nat)
    var made: (nat, nat)    // what the channel was made for
    var inUse: bool
    var transmitting: bool  // the hardware
    var queued: nat         // completions in the deferred-work queue
    ghost var lost: bool

    constructor ()
      ensures View(NoSend, NoDone) == Start()
    {
      chan, config, made, inUse, transmitting, queued, lost := Absent, (0, 0), (0, 0), false, false, 0, false;
    }

    ghost function View(send: Send, done: Done): State
      reads this
    {
      State(chan, config, made, inUse, send, done, transmitting, queued, lost, false)
    }

    /** setup_strip. */
    method SetupStrip()
      requires chan.Absent?
      modifies `chan, `made
      ensures chan.On? && made == config
    {
      chan, made := Off, config;
      chan := On;
    }

    /** devs_led_strip_send. */
    method DevsLedStripSend(pin: nat, ctx: nat) returns (r: int, ghost es: seq<Event>)
      requires Inv(View(NoSend, NoDone))
      modifies this
      ensures r == if old(inUse) then -100 else 0
      ensures Leads(old(View(NoSend, NoDone)), es, View(NoSend, NoDone))
      ensures r == 0 ==> inUse && transmitting && config == (pin, ctx)
      ensures r == 0 && old(Fitting(View(NoSend, NoDone))) ==> made == (pin, ctx)
    {
      ghost var s := View(NoSend, NoDone);
      LeadsStep(s, [], SendCall(pin, ctx));
      es := [] + [SendCall(pin, ctx)];
      if inUse {
        return -100, es;
      }
      if chan.Absent? || config != (pin, ctx) {
        config := (pin, ctx);
        if !chan.Absent? {
          LeadsStep(s, es, SendStep);
          es := es + [SendStep];
          chan := Absent;
        }
        LeadsStep(s, es, SendStep);
        es := es + [SendStep];
        SetupStrip();
      } else {
        chan := On;
      }
      LeadsStep(s, es, SendStep);
      LeadsStep(s, es + [SendStep], SendStep);
      LeadsStep(s, es + [SendStep] + [SendStep], SendStep);
      es := es + [SendStep] + [SendStep] + [SendStep];
      inUse := true;
      transmitting := true;
      r := 0;
    }

    /** led_strip_done; posted is what the ignored result of tim_worker_run says. */
    method LedStripDone(posted: bool, ghost done: Done) returns (ghost es: seq<Event>)
      requires transmitting && Inv(View(NoSend, done))
      modifies this
      ensures Leads(old(View(NoSend, done)), es, View(NoSend, done))
      ensures queued == old(queued) + (if posted then 1 else 0)
    {
      LeadsStep(View(NoSend, done), [], DoneIsr(posted));
      es := [] + [DoneIsr(posted)];
      assert inUse;
      transmitting := false;
      if posted {
        queued := queued + 1;
      } else {
        lost := true;
      }
    }

    /** The deferred-work loop calls led_strip_done_outside_isr, up to the call of led_done_fn. */
    method LedStripDoneOutsideIsr() returns (ghost es: seq<Event>)
      requires queued > 0 && Inv(View(NoSend, NoDone))
      modifies this
      ensures Leads(old(View(NoSend, NoDone)), es, View(NoSend, Call))
      ensures !inUse && chan.Off?
    {
      ghost var s := View(NoSend, NoDone);
      LeadsStep(s, [], TakeDone);
      LeadsStep(s, [] + [TakeDone], DoneStep);
      LeadsStep(s, [] + [TakeDone] + [DoneStep], DoneStep);
      es := [] + [TakeDone] + [DoneStep] + [DoneStep];
      queued := queued - 1;
      chan := Off;
      inUse := false;
    }
  }
}
