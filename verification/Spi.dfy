// main/spi.c as the firmware writes it: static variables updated by transfers and by completions. Each
// method, when nothing interrupts it, is a run of the steps in SpiProtocol.

module Spi {
  import opened Bytes
  import opened Worker
  import opened SpiProtocol

  /** A run of steps on the driver state alone. */
  function Steps(s: State, es: seq<Event>): State
    requires StepsEnabled(s, es)
    decreases |es|
  {
    if es == [] then s else Steps(NextState(s, es[0]), es[1..])
  }

  predicate StepsEnabled(s: State, es: seq<Event>)
    decreases |es|
  {
    es == [] || (Enabled(s, es[0]) && StepsEnabled(NextState(s, es[0]), es[1..]))
  }

  /** The steps of one call of jd_spi_xfer; ok is what the SPI master driver answers. */
  function XferSteps(s: State, numbytes: nat, fn: Fn, ok: bool): seq<Event> {
    [XferCall(numbytes, fn)]
    + (if !Ready(s) || numbytes > BLOCK_SIZE then []
      else if numbytes == 0 then [PostSync]
      else if numbytes <= 4 then (if ok then [PollTransmit(ok)] + [PostSync] else [PollTransmit(ok)])
      else [MarkInUse] + [QueueTrans(ok)])
  }

  lemma TwoSteps(s: State, a: Event, b: Event)
    requires Enabled(s, a) && Enabled(NextState(s, a), b)
    ensures StepsEnabled(s, [a] + [b]) && Steps(s, [a] + [b]) == NextState(NextState(s, a), b)
  {
    assert ([a] + [b])[1..] == [b];
    var s1 := NextState(s, a);
    assert StepsEnabled(s1, [b]) && Steps(s1, [b]) == NextState(s1, b);
  }

  lemma ThreeSteps(s: State, a: Event, b: Event, c: Event)
    requires Enabled(s, a) && Enabled(NextState(s, a), b) && Enabled(NextState(NextState(s, a), b), c)
    ensures StepsEnabled(s, [a] + ([b] + [c]))
    ensures Steps(s, [a] + ([b] + [c])) == NextState(NextState(NextState(s, a), b), c)
  {
    assert ([a] + ([b] + [c]))[1..] == [b] + [c];
    assert ([b] + [c])[1..] == [c];
    var s2 := NextState(NextState(s, a), b);
    assert StepsEnabled(s2, [c]) && Steps(s2, [c]) == NextState(s2, c);
  }

  class Driver {
    var spi: bool
    var spiInUse: bool
    var user: Option<Fn>
    var dev: Device
    var queue: seq<Job>
    var failed: bool

    function View(loop: Loop): State
      reads this
    {
      State(spi, spiInUse, user, dev, NoXfer, loop, queue, failed)
    }

    constructor ()
      ensures View(Waiting) == INIT.s
    {
      spi, spiInUse, user, dev, queue, failed := false, false, None, NoTrans, [], false;
    }

    /** jd_spi_is_ready. */
    method IsReady() returns (r: bool)
      ensures r == Ready(View(Waiting))
    {
      r := spi && !spiInUse;
    }

    method Post(j: Job)
      modifies this`queue
      ensures queue == if old(|queue|) < QUEUE_LEN then old(queue) + [j] else old(queue)
    {
      if |queue| < QUEUE_LEN {
        queue := queue + [j];
      }
    }

    /** jd_spi_xfer: 0 when accepted, -1 when not ready, -2 when too long, else the driver's error. */
    method Xfer(numbytes: nat, fn: Fn, ok: bool, loop: Loop) returns (r: int)
      modifies this
      ensures var es := XferSteps(old(View(loop)), numbytes, fn, ok);
              StepsEnabled(old(View(loop)), es) && View(loop) == Steps(old(View(loop)), es)
      ensures r == -1 <==> !(old(spi) && !old(spiInUse))
      ensures r == -2 <==> old(spi) && !old(spiInUse) && numbytes > 4096
      ensures r == 0 <==> old(spi) && !old(spiInUse) && numbytes <= 4096 && (numbytes == 0 || ok)
      ensures r == 0 && numbytes > 4 ==> user == Some(fn) && spiInUse && dev == InFlight && queue == old(queue)
      ensures r == 0 && numbytes <= 4 ==>
                !spiInUse && dev == old(dev)
                && queue == if |old(queue)| < 20 then old(queue) + [CallFn(fn)] else old(queue)
      ensures r != 0 ==> spiInUse == old(spiInUse) && dev == old(dev) && queue == old(queue)
    {
      var ready := IsReady();
      if !ready {
        return -1;
      }
      if numbytes > BLOCK_SIZE {
        return -2;
      }
      if numbytes == 0 {
        TwoSteps(old(View(loop)), XferCall(numbytes, fn), PostSync);
        Post(CallFn(fn));
        return 0;
      }
      user := Some(fn);
      if numbytes <= 4 {
        user := None;
        if ok {
          ThreeSteps(old(View(loop)), XferCall(numbytes, fn), PollTransmit(ok), PostSync);
          Post(CallFn(fn));
          return 0;
        }
        TwoSteps(old(View(loop)), XferCall(numbytes, fn), PollTransmit(ok));
        return 1;
      }
      ThreeSteps(old(View(loop)), XferCall(numbytes, fn), MarkInUse, QueueTrans(ok));
      spiInUse := true;
      if ok {
        dev := InFlight;
        return 0;
      }
      spiInUse := false;
      return 1;
    }

    /** jd_spi_done_cb, in interrupt context. */
    method DoneCb(loop: Loop)
      requires dev.InFlight?
      modifies this
      ensures View(loop) == NextState(old(View(loop)), DoneIsr)
    {
      dev := Complete;
      if user == None {
        return;
      }
      if !spiInUse {
        failed := true;
      }
      Post(SpiDone);
    }

    /** jd_spi_done_cb_outside_isr up to the call: the callback is read before the flag is cleared. */
    method DoneCbOutsideIsr() returns (cb: Option<Fn>)
      modifies this
      ensures var s := old(View(DoneStart));
              if s.inUse && s.dev.Complete? && s.user.Some? then
                && StepsEnabled(s, [CheckResult, ClearInUse])
                && View(Calling(s.user.value)) == Steps(s, [CheckResult, ClearInUse]) && cb == s.user
              else View(InCall) == NextState(s, CheckResult) && cb == None
    {
      if !spiInUse || dev != Complete || user == None {
        failed := true;
        return None;
      }
      TwoSteps(View(DoneStart), CheckResult, ClearInUse);
      assert [CheckResult] + [ClearInUse] == [CheckResult, ClearInUse];
      dev := NoTrans;
      cb := user;
      spiInUse := false;
    }

    /** jd_spi_init: -100 while a transfer is in use; ok is what the bus and device set-up answer. */
    method Configure(ok: bool) returns (r: int)
      modifies this`spi
      ensures View(Waiting) == NextState(old(View(Waiting)), InitCall(ok))
      ensures r == (if spiInUse then -100 else if ok then 0 else 1)
      ensures spi == if spiInUse then old(spi) else ok
    {
      if spiInUse {
        return -100;
      }
      spi := false;
      if ok {
        spi := true;
        return 0;
      }
      return 1;
    }
  }
}
