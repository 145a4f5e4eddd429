// The deferred-work queue (main/worker.c): a bounded queue of calls and the loop that drains it.

module Worker {
  import opened Bytes

  const QUEUE_LEN := 20

  /** A queued call: a function and its argument. */
  type Item = nat

  class Worker {
    var queue: seq<Item>
    var fn: bool            // an idle function is set
    var idleCalls: nat
    // everything ever accepted, and everything called, in order
    ghost var accepted: seq<Item>
    ghost var executed: seq<Item>

    ghost predicate Valid()
      reads this
    {
      |queue| <= QUEUE_LEN && executed + queue == accepted
    }

    /** worker_alloc. */
    constructor ()
      ensures Valid() && queue == [] && accepted == [] && !fn && idleCalls == 0
    {
      queue, fn, idleCalls, accepted, executed := [], false, 0, [], [];
    }

    /** worker_run: 0 when the queue had room, -1 otherwise. */
    method Run(item: Item) returns (r: int)
      requires Valid()
      modifies this`queue, this`accepted
      ensures Valid()
      ensures r == if old(|queue|) < 20 then 0 else -1
      ensures queue == if r == 0 then old(queue) + [item] else old(queue)
      ensures accepted == if r == 0 then old(accepted) + [item] else old(accepted)
    {
      if |queue| < QUEUE_LEN {
        queue := queue + [item];
        accepted := accepted + [item];
        return 0;
      }
      return -1;
    }

    /** What the called functions post while they run, as long as there is room: the k-th call of the loop posts
        posts[k]. */
    method PostAll(items: seq<Item>)
      requires Valid()
      modifies this`queue, this`accepted
      ensures Valid()
      ensures var taken := items[..Min(|items|, 20 - old(|queue|))];
              accepted == old(accepted) + taken && queue == old(queue) + taken
    {
      for i := 0 to |items|
        invariant Valid()
        invariant var taken := items[..Min(i, 20 - old(|queue|))];
                  accepted == old(accepted) + taken && queue == old(queue) + taken
      {
        var r := Run(items[i]);
      }
    }

    /** worker_do_work: every call accepted before or during the loop is made, once, in order, and the
        idle function runs once before each receive. */
    method DoWork(posts: seq<seq<Item>>)
      requires Valid()
      modifies this`queue, this`accepted, this`executed, this`idleCalls
      ensures Valid() && queue == [] && executed == accepted && old(accepted) <= accepted
      ensures posts == [] ==> accepted == old(accepted)
      ensures idleCalls == if fn then old(idleCalls) + |executed| - |old(executed)| + 1 else old(idleCalls)
    {
      var k := 0;
      while true
        invariant Valid() && old(accepted) <= accepted && |executed| == |old(executed)| + k
        invariant posts == [] ==> accepted == old(accepted)
        invariant idleCalls == if fn then old(idleCalls) + k else old(idleCalls)
        decreases if k < |posts| then |posts| - k else 0, |queue|
      {
        if fn {
          idleCalls := idleCalls + 1;
        }
        if queue == [] {
          break;
        }
        var item := queue[0];
        queue := queue[1..];
        executed := executed + [item];
        if k < |posts| {
          PostAll(posts[k]);
        }
        k := k + 1;
      }
    }
  }
}
