// main/usb.c:43-64 as the firmware writes it: the volatile flag and the refill loop.

module Usb {
  import opened Bytes
  import opened UsbProtocol

  /** es leads from s to t. */
  predicate Leads(s: State, es: seq<Event>, t: State, cap: nat) {
    Obeys(s, es, cap) && Run(s, es, cap) == t
  }

  lemma {:induction false} LeadsStep(s: State, es: seq<Event>, t: State, e: Event, cap: nat)
    requires Leads(s, es, t, cap) && Enabled(t, e, cap)
    ensures Leads(s, es + [e], Next(t, e, cap), cap)
  {
    assert [e][1..] == [];
    RunConcat(s, es, [e], cap);
  }

  class Port {
    var scheduled: bool     // fq_scheduled
    var queued: nat         // calls of fill_queue in the deferred-work queue
    var bridge: seq<byte>
    var cdc: seq<byte>
    const cap: nat          // size of the CDC transmit buffer

    predicate Valid()
      reads this
    {
      |cdc| <= cap
    }

    /** The protocol's state, with the rest of it taken from s. */
    ghost function View(s: State, fill: Fill): State
      reads this
    {
      s.(scheduled := scheduled, queued := queued, fill := fill, bridge := bridge, cdc := cdc)
    }

    constructor (cap: nat)
      ensures Valid() && this.cap == cap && !scheduled && queued == 0 && bridge == [] && cdc == []
    {
      this.cap := cap;
      scheduled, queued, bridge, cdc := false, 0, [], [];
    }

    /** jd_usb_pull: at most 64 bytes, and none only when there are none. */
    method PullUpTo(size: nat) returns (chunk: seq<byte>)
      modifies this`bridge
      ensures chunk + bridge == old(bridge) && |chunk| <= 64
      ensures chunk == [] <==> old(bridge) == []
    {
      var n := Min(Min(if size == 0 then 1 else size, CHUNK), |bridge|);
      chunk := bridge[..n];
      bridge := bridge[n..];
      assert chunk + bridge == old(bridge);
    }

    /** jd_usb_pull_ready: at most one call of fill_queue is asked for; ok is whether the post is accepted. */
    method PullReady(ok: bool, ghost s: State, ghost fill: Fill) returns (ghost es: seq<Event>)
      requires s.about > 0
      modifies this`scheduled, this`queued
      ensures scheduled && queued == if !old(scheduled) && ok then old(queued) + 1 else old(queued)
      ensures Leads(old(View(s, fill)), es, View(s.(about := s.about - 1), fill), cap)
    {
      ghost var start := View(s, fill);
      LeadsStep(start, [], start, Test, cap);
      es := [] + [Test];
      if !scheduled {
        ghost var tested := Next(start, Test, cap);
        LeadsStep(start, es, tested, SetFlag, cap);
        LeadsStep(start, es + [SetFlag], Next(tested, SetFlag, cap), Post(ok), cap);
        es := es + [SetFlag] + [Post(ok)];
        scheduled := true;
        if ok {
          queued := queued + 1;
        }
      }
    }

    /** One turn of the loop, when there is room: the bytes pulled go to the CDC buffer; done when there were none. */
    method MoveChunk(size: nat, ghost s: State) returns (done: bool, ghost es: seq<Event>)
      requires Valid() && cap - |cdc| >= CHUNK
      modifies this`bridge, this`cdc
      ensures Valid() && done == (old(bridge) == []) && (if done then bridge == [] else |bridge| < |old(bridge)|)
      ensures Leads(old(View(s, CheckSpace)), es, View(s, if done then Off else CheckSpace), cap)
    {
      ghost var start := View(s, CheckSpace);
      LeadsStep(start, [], start, Check, cap);
      ghost var pulling := View(s, Pull);
      var chunk := PullUpTo(size);
      LeadsStep(start, [] + [Check], pulling, PullChunk(|chunk|), cap);
      es := [] + [Check] + [PullChunk(|chunk|)];
      done := chunk == [];
      if !done {
        assert pulling.bridge == chunk + bridge;
        LeadsStep(start, es, View(s, Fill.Write(chunk)), WriteChunk, cap);
        es := es + [WriteChunk];
        cdc := cdc + chunk;
      }
    }

    /** fill_queue, as a run of the protocol from its start to its end: it ends when the bridge is empty or the
        CDC buffer has under 64 bytes free. sizes: how many bytes each pull hands over. */
    method FillQueue(sizes: seq<nat>, ghost s: State) returns (ghost es: seq<Event>)
      requires Valid()
      modifies this`scheduled, this`bridge, this`cdc
      ensures Valid() && !scheduled && (bridge == [] || cap - |cdc| < 64)
      ensures Leads(old(View(s, Begin)), es, View(s, Off), cap)
    {
      ghost var start := View(s, Begin);
      LeadsStep(start, [], start, ClearFlag, cap);
      es := [] + [ClearFlag];
      scheduled := false;
      var k := 0;
      while cap - |cdc| >= CHUNK
        invariant Valid() && !scheduled
        invariant Leads(start, es, View(s, CheckSpace), cap)
        decreases |bridge|
      {
        ghost var t := View(s, CheckSpace);
        var done, more := MoveChunk(if k < |sizes| then sizes[k] else CHUNK, s);
        RunConcat(start, es, more, cap);
        es := es + more;
        k := k + 1;
        if done {
          return;
        }
      }
      LeadsStep(start, es, View(s, CheckSpace), Check, cap);
      es := es + [Check];
    }
  }
}
