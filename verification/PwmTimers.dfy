// The timer allocator of main/led.c: a pin keeps the first timer it is given, and timers are given out in
// the order in which pins first ask for one.

module PwmTimers {
  import opened Bytes
  import opened PwmDivider

  const FREE := 0xff  // the pin of a timer that is not in use

  datatype TimerInfo = TimerInfo(timNum: nat, pin: nat, bits: nat, div: nat, period: nat)

  datatype Request = Request(pin: nat, period: nat, prescaler: nat)

  /** OutOfTimers is the panic of line 81; NullTimer is the read through the null pointer of line 93. */
  datatype Outcome = Id(id: nat) | OutOfTimers | NullTimer

  // ---- the allocator as a function ----

  /** The table once numbered: init fills it only while timer 1 does not carry its number. */
  function Numbered(s: seq<TimerInfo>): (r: seq<TimerInfo>)
    requires |s| >= 2
    ensures |r| == |s|
  {
    if s[1].timNum == 1 then s else seq(|s|, i requires 0 <= i < |s| => s[i].(timNum := i, pin := FREE))
  }

  /** The first timer whose pin is p, or |s|. */
  function FirstWith(s: seq<TimerInfo>, p: nat): (i: nat)
    ensures i <= |s| && (i < |s| ==> s[i].pin == p)
    ensures forall k :: 0 <= k < i ==> s[k].pin != p
  {
    if s == [] || s[0].pin == p then 0 else 1 + FirstWith(s[1..], p)
  }

  function Slot(s: seq<TimerInfo>, p: nat): (i: nat)
    ensures i <= |s|
  {
    if FirstWith(s, p) < |s| then FirstWith(s, p) else FirstWith(s, FREE)
  }

  ghost function Step(s: seq<TimerInfo>, q: Request, bitMax: nat): (r: (seq<TimerInfo>, Outcome))
    requires |s| >= 2 && bitMax >= 15
    ensures |r.0| == |s|
  {
    var t := Numbered(s);
    var i := Slot(t, q.pin);
    match Choose(q.period, q.prescaler, bitMax)
    case Found(bits, div) =>
      if i == |t| then (t, OutOfTimers)
      else (t[i := TimerInfo(t[i].timNum, q.pin, bits, div, q.period)], Id(t[i].timNum + 1))
    case _ => (t, NullTimer)
  }

  // ---- main/led.c ----

  class Pwm {
    const timers: array<TimerInfo>  // LEDC_TIMER_MAX of them
    const duties: array<nat>        // the duty register of each channel
    const bitMax: nat               // LEDC_TIMER_BIT_MAX

    predicate Valid()
      reads timers
    {
      && timers.Length == duties.Length >= 2 && bitMax >= 15
      && forall i :: 0 <= i < timers.Length ==> Numbered(timers[..])[i].timNum == i
    }

    /** The statics as the program starts: all zero. */
    constructor (n: nat, bitMax: nat)
      requires n >= 2 && bitMax >= 15
      ensures Valid() && fresh(timers) && fresh(duties) && this.bitMax == bitMax
      ensures timers[..] == Blank(n)
    {
      this.bitMax := bitMax;
      timers := new TimerInfo[n](_ => TimerInfo(0, 0, 0, 0, 0));
      duties := new nat[n](_ => 0);
      new;
      assert timers[..] == Blank(n);
    }

    method Init()
      requires timers.Length >= 2
      modifies timers
      ensures timers[..] == Numbered(old(timers[..]))
    {
      if timers[1].timNum == 1 {
        return;
      }
      for i := 0 to timers.Length
        invariant forall k :: 0 <= k < i ==> timers[k] == old(timers[k]).(timNum := k, pin := FREE)
        invariant forall k :: i <= k < timers.Length ==> timers[k] == old(timers[k])
      {
        timers[i] := timers[i].(timNum := i, pin := FREE);
      }
    }

    method Find(pin: nat) returns (i: nat)
      ensures i == FirstWith(timers[..], pin)
    {
      i := 0;
      while i < timers.Length && timers[i].pin != pin
        invariant i <= timers.Length
        invariant forall k :: 0 <= k < i ==> timers[k].pin != pin
      {
        i := i + 1;
      }
      FirstWithIs(timers[..], pin, i);
    }

    method SetDuty(id: nat, duty: nat)
      requires Valid() && timers[1].timNum == 1 && 0 < id <= timers.Length && timers[id - 1].period > 0
      modifies duties
      ensures duties[..] == old(duties[..])[id - 1 := Duty(timers[id - 1].bits, timers[id - 1].period, duty)]
    {
      var t := timers[id - 1];
      assert t.timNum == Numbered(timers[..])[id - 1].timNum;
      var max := Pow2(t.bits);
      var d := max * duty % UINT32 / t.period;
      if d >= max {
        d := max - 1;
      }
      duties[t.timNum] := d;
    }

    method PwmInit(pin: nat, period: nat, duty: nat, prescaler: nat) returns (o: Outcome)
      requires Valid()
      modifies timers, duties
      ensures Valid()
      ensures (timers[..], o) == Step(old(timers[..]), Request(pin, period, prescaler), bitMax)
      ensures o.Id? ==> 0 < o.id <= timers.Length && timers[o.id - 1].period == period > 0
      ensures o.Id? ==> duties[..] == old(duties[..])[o.id - 1 := Duty(timers[o.id - 1].bits, period, duty)]
      ensures !o.Id? ==> duties[..] == old(duties[..])
    {
      Init();
      ghost var t := timers[..];
      var s := Search(period, prescaler, bitMax);
      assert period == 0 ==> period * prescaler == 0;
      SearchIsChoose(s, period, prescaler, bitMax);
      if !s.Found? {
        return NullTimer;
      }
      var i := Find(pin);
      if i == timers.Length {
        i := Find(FREE);
      }
      if i == timers.Length {
        return OutOfTimers;
      }
      timers[i] := timers[i].(pin := pin, div := s.div, bits := s.bits, period := period);
      assert timers[..] == t[i := TimerInfo(t[i].timNum, pin, s.bits, s.div, period)];
      assert t[i].timNum == i;
      SetDuty(timers[i].timNum + 1, duty);
      o := Id(timers[i].timNum + 1);
    }
  }

  lemma FirstWithIs(s: seq<TimerInfo>, p: nat, i: nat)
    requires i <= |s| && (i < |s| ==> s[i].pin == p)
    requires forall k :: 0 <= k < i ==> s[k].pin != p
    ensures i == FirstWith(s, p)
  {
  }

  lemma SearchIsChoose(s: Setting, period: nat, prescaler: nat, bitMax: nat)
    requires bitMax >= 15
    requires var w := period * prescaler % 0x100_0000;
             if w < 16 then s == NoSetting
             else s.Found? && Finest(s.bits, w, bitMax) && s.div == w * 256 / Pow2(s.bits)
    ensures s == Choose(period, prescaler, bitMax)
  {
    var w := period * prescaler % 0x100_0000;
    if w >= 16 {
      FinestExists(w, bitMax);
      FinestIsUnique(s.bits, Choose(period, prescaler, bitMax).bits, w, bitMax);
    }
  }

  // ---- runs ----

  function Blank(n: nat): seq<TimerInfo> {
    seq(n, _ => TimerInfo(0, 0, 0, 0, 0))
  }

  /** The table after the calls qs, from the blank one; None once a call has not returned. */
  ghost function Run(n: nat, qs: seq<Request>, bitMax: nat): (r: Option<seq<TimerInfo>>)
    requires n >= 2 && bitMax >= 15
    ensures r.Some? ==> |r.value| == n
  {
    if qs == [] then Some(Blank(n))
    else
      var before := Run(n, qs[..|qs| - 1], bitMax);
      if before.None? then None
      else
        var (after, o) := Step(before.value, qs[|qs| - 1], bitMax);
        if o.Id? then Some(after) else None
  }

  /** The pins asked for, each once, in the order of the first request for it. */
  function Pins(qs: seq<Request>): (ps: seq<nat>)
    ensures forall i, j :: 0 <= i < j < |ps| ==> ps[i] != ps[j]
  {
    if qs == [] then []
    else
      var ps := Pins(qs[..|qs| - 1]);
      if qs[|qs| - 1].pin in ps then ps else ps + [qs[|qs| - 1].pin]
  }

  lemma {:induction false} PinIsRequested(qs: seq<Request>, p: nat)
    requires p in Pins(qs)
    ensures exists k :: 0 <= k < |qs| && qs[k].pin == p
    decreases |qs|
  {
    if qs[|qs| - 1].pin != p {
      PinIsRequested(qs[..|qs| - 1], p);
    }
  }

  /** The most recent request for p. */
  function Latest(qs: seq<Request>, p: nat): (q: Request)
    requires p in Pins(qs)
    ensures q.pin == p
  {
    if qs[|qs| - 1].pin == p then qs[|qs| - 1] else Latest(qs[..|qs| - 1], p)
  }

  ghost predicate Settable(q: Request) {
    q.period * q.prescaler % 0x100_0000 >= 16
  }

  ghost predicate Configured(t: TimerInfo, q: Request, bitMax: nat)
    requires bitMax >= 15
  {
    && t.pin == q.pin && t.period == q.period
    && Choose(q.period, q.prescaler, bitMax) == Found(t.bits, t.div)
  }

  /** Timer i serves the i-th pin of qs, as last requested; the other timers are free. */
  ghost predicate Serves(t: seq<TimerInfo>, qs: seq<Request>, bitMax: nat)
    requires bitMax >= 15
  {
    var ps := Pins(qs);
    && |ps| <= |t|
    && (forall i :: 0 <= i < |t| ==> t[i].timNum == i)
    && (forall i :: 0 <= i < |ps| ==> Configured(t[i], Latest(qs, ps[i]), bitMax))
    && (forall i :: |ps| <= i < |t| ==> t[i].pin == 0xff)
  }

  lemma SlotIs(t: seq<TimerInfo>, ps: seq<nat>, p: nat)
    requires |ps| <= |t| && p != 0xff && 0xff !in ps
    requires forall i :: 0 <= i < |ps| ==> t[i].pin == ps[i]
    requires forall i :: |ps| <= i < |t| ==> t[i].pin == 0xff
    requires forall i, j :: 0 <= i < j < |ps| ==> ps[i] != ps[j]
    ensures var i := Slot(t, p);
            if p in ps then i < |ps| && ps[i] == p else i == |ps|
  {
    if p in ps {
      var i :| 0 <= i < |ps| && ps[i] == p;
      FirstWithIs(t, p, i);
    } else {
      FirstWithIs(t, p, |t|);
      FirstWithIs(t, 0xff, |ps|);
    }
  }

  lemma StepServes(s: seq<TimerInfo>, qs: seq<Request>, q: Request, bitMax: nat)
    requires bitMax >= 15 && |s| >= 2 && Serves(Numbered(s), qs, bitMax)
    requires forall k :: 0 <= k < |qs + [q]| ==> (qs + [q])[k].pin != 0xff
    ensures var (after, o) := Step(s, q, bitMax);
            && (o.Id? <==> Settable(q) && |Pins(qs + [q])| <= |s|)
            && (o == NullTimer <==> !Settable(q))
            && (o.Id? ==> Numbered(after) == after && Serves(after, qs + [q], bitMax)
                          && 0 < o.id <= |Pins(qs + [q])| && Pins(qs + [q])[o.id - 1] == q.pin)
  {
    var t := Numbered(s);
    var (after, o) := Step(s, q, bitMax);
    var all := qs + [q];
    assert all[|all| - 1] == q && all[..|all| - 1] == qs;
    forall k | 0 <= k < |qs| ensures qs[k].pin != 0xff {
      assert all[k] == qs[k];
    }
    var i := Slot(t, q.pin);
    var ps := Pins(qs);
    if 0xff in ps {
      PinIsRequested(qs, 0xff);
    }
    SlotIs(t, ps, q.pin);
    if o.Id? {
      forall j | 0 <= j < |Pins(all)|
        ensures Configured(after[j], Latest(all, Pins(all)[j]), bitMax)
      {
        if j != i {
          assert j < |ps| && Pins(all)[j] == ps[j] && ps[j] != q.pin;
        }
      }
    }
  }

  /** Every run of requests returns exactly when each of them can be met by some divider and there are no
      more pins than timers; then timer i serves the i-th pin, as it was last requested. */
  lemma {:induction false} RunServes(n: nat, qs: seq<Request>, bitMax: nat)
    requires n >= 2 && bitMax >= 15
    requires forall k :: 0 <= k < |qs| ==> qs[k].pin != 0xff
    ensures Run(n, qs, bitMax).Some? <==>
              (forall k :: 0 <= k < |qs| ==> Settable(qs[k])) && |Pins(qs)| <= n
    ensures Run(n, qs, bitMax).Some? ==> Serves(Numbered(Run(n, qs, bitMax).value), qs, bitMax)
    decreases |qs|
  {
    if qs != [] {
      var before, q := qs[..|qs| - 1], qs[|qs| - 1];
      RunServes(n, before, bitMax);
      assert before + [q] == qs;
      if Run(n, before, bitMax).Some? {
        StepServes(Run(n, before, bitMax).value, before, q, bitMax);
      }
    }
  }

  lemma {:induction false} PrefixReturns(n: nat, qs: seq<Request>, k: nat, bitMax: nat)
    requires n >= 2 && bitMax >= 15 && k <= |qs| && Run(n, qs, bitMax).Some?
    ensures Run(n, qs[..k], bitMax).Some? && Pins(qs[..k]) <= Pins(qs)
    decreases |qs|
  {
    if k == |qs| {
      assert qs[..k] == qs;
    } else {
      PrefixReturns(n, qs[..|qs| - 1], k, bitMax);
      assert qs[..|qs| - 1][..k] == qs[..k];
    }
  }

  /** What request k of a run that returns is answered. */
  ghost function Answer(n: nat, qs: seq<Request>, k: nat, bitMax: nat): Outcome
    requires n >= 2 && bitMax >= 15 && k < |qs| && Run(n, qs, bitMax).Some?
  {
    PrefixReturns(n, qs, k, bitMax);
    Step(Run(n, qs[..k], bitMax).value, qs[k], bitMax).1
  }

  /** o is the id of the timer that serves p when the pins are ps. */
  predicate Answered(o: Outcome, ps: seq<nat>, p: nat) {
    o.Id? && 0 < o.id <= |ps| && ps[o.id - 1] == p
  }

  lemma {:induction false} LastAnswer(n: nat, qs: seq<Request>, bitMax: nat)
    requires n >= 2 && bitMax >= 15 && qs != [] && Run(n, qs, bitMax).Some?
    requires forall k :: 0 <= k < |qs| ==> qs[k].pin != 0xff
    ensures Answered(Answer(n, qs, |qs| - 1, bitMax), Pins(qs), qs[|qs| - 1].pin)
  {
    var before, q := qs[..|qs| - 1], qs[|qs| - 1];
    assert before + [q] == qs;
    RunServes(n, before, bitMax);
    StepServes(Run(n, before, bitMax).value, before, q, bitMax);
  }

  lemma {:induction false} PinsGrow(qs: seq<Request>, o: Outcome, p: nat)
    requires qs != [] && Answered(o, Pins(qs[..|qs| - 1]), p)
    ensures Answered(o, Pins(qs), p)
  {
  }

  lemma {:induction false} AnswerBefore(n: nat, qs: seq<Request>, k: nat, bitMax: nat)
    requires n >= 2 && bitMax >= 15 && k < |qs| - 1 && Run(n, qs, bitMax).Some?
    ensures Run(n, qs[..|qs| - 1], bitMax).Some?
    ensures Answer(n, qs, k, bitMax) == Answer(n, qs[..|qs| - 1], k, bitMax)
  {
    assert qs[..|qs| - 1][..k] == qs[..k];
  }

  lemma {:induction false} AnswerIs(n: nat, qs: seq<Request>, k: nat, bitMax: nat)
    requires n >= 2 && bitMax >= 15 && k < |qs| && Run(n, qs, bitMax).Some?
    requires forall k :: 0 <= k < |qs| ==> qs[k].pin != 0xff
    ensures Answered(Answer(n, qs, k, bitMax), Pins(qs), qs[k].pin)
    decreases |qs|
  {
    if k < |qs| - 1 {
      AnswerBefore(n, qs, k, bitMax);
      AnswerIs(n, qs[..|qs| - 1], k, bitMax);
      PinsGrow(qs, Answer(n, qs, k, bitMax), qs[k].pin);
    } else {
      LastAnswer(n, qs, bitMax);
    }
  }

  lemma SameIdSamePin(ps: seq<nat>, a: Outcome, b: Outcome, p: nat, q: nat)
    requires Answered(a, ps, p) && Answered(b, ps, q)
    requires forall i, j :: 0 <= i < j < |ps| ==> ps[i] != ps[j]
    ensures a == b <==> p == q
  {
  }

  /** The assignment is stable and injective: whatever is requested in between, two requests are answered
      with the same id exactly when they name the same pin. */
  lemma {:induction false} SameIdIffSamePin(n: nat, qs: seq<Request>, j: nat, k: nat, bitMax: nat)
    requires n >= 2 && bitMax >= 15 && j < |qs| && k < |qs| && Run(n, qs, bitMax).Some?
    requires forall k :: 0 <= k < |qs| ==> qs[k].pin != 0xff
    ensures Answer(n, qs, j, bitMax) == Answer(n, qs, k, bitMax) <==> qs[j].pin == qs[k].pin
  {
    AnswerIs(n, qs, j, bitMax);
    AnswerIs(n, qs, k, bitMax);
    SameIdSamePin(Pins(qs), Answer(n, qs, j, bitMax), Answer(n, qs, k, bitMax), qs[j].pin, qs[k].pin);
  }
}
