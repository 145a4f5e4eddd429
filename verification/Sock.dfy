// main/sock.c as written, plaintext path. Each method hands back, as a ghost, the run of SockProtocol it is.

module Sock {
  import opened Bytes
  import opened SockProtocol

  lemma {:induction false} RunConcat(s: State, a: seq<Event>, b: seq<Event>)
    requires Obeys(s, a) && Obeys(Run(s, a), b)
    ensures Obeys(s, a + b) && Run(s, a + b) == Run(Run(s, a), b)
    decreases |a|
  {
    if a == [] {
      assert a + b == b;
    } else {
      RunConcat(Next(s, a[0]), a[1..], b);
      assert (a + b)[1..] == a[1..] + b;
    }
  }

  /** es leads from s to t. */
  ghost predicate Leads(s: State, es: seq<Event>, t: State) {
    Obeys(s, es) && Run(s, es) == t
  }

  lemma LeadsBy(s: State, e: Event)
    requires Enabled(s, e)
    ensures Leads(s, [e], Next(s, e))
  {
    assert [e][1..] == [];
  }

  lemma LeadsOn(s: State, a: seq<Event>, t: State, b: seq<Event>, u: State)
    requires Leads(s, a, t) && Leads(t, b, u)
    ensures Leads(s, a + b, u)
  {
    RunConcat(s, a, b);
  }

  lemma LeadsStep(s: State, es: seq<Event>, t: State, e: Event)
    requires Leads(s, es, t) && Enabled(t, e)
    ensures Leads(s, es + [e], Next(t, e))
  {
    LeadsBy(t, e);
    LeadsOn(s, es, t, [e], Next(t, e));
  }

  class TcpSock {
    var sockFd: nat
    var cmds: seq<Cmd>
    var heap: Heap  // the allocator
    var conn: Conn  // the far side of the socket, and what has been dequeued for it

    constructor ()
      ensures View(Ready, Idle) == Init()
    {
      sockFd, cmds, heap, conn := 0, [], Heap(0, []), Conn(0, false, [], []);
    }

    ghost function View(main: Main, worker: Worker): State
      reads this
    {
      State(heap, cmds, main, worker, sockFd, conn)
    }

    // ---- calls into the system ----

    /** xQueueSend: accepted while there is room. */
    method QueueSend(cmd: Cmd) returns (ok: bool)
      modifies `cmds
      ensures ok <==> |old(cmds)| < QUEUE_LEN
      ensures cmds == if ok then old(cmds) + [cmd] else old(cmds)
    {
      ok := |cmds| < QUEUE_LEN;
      if ok {
        cmds := cmds + [cmd];
      }
    }

    /** jd_alloc and jd_strdup. */
    method Alloc() returns (block: nat)
      modifies `heap
      ensures block == old(heap).next && heap == Heap(block + 1, old(heap).freed)
    {
      block := heap.next;
      heap := Heap(block + 1, heap.freed);
    }

    /** jd_free. */
    method Release(block: nat)
      modifies `heap
      ensures heap == Heap(old(heap).next, old(heap).freed + [block])
    {
      heap := Heap(heap.next, heap.freed + [block]);
    }

    /** write: any result up to the length; descriptor 0 is not the connection. */
    method WriteFd(fd: nat, bytes: seq<byte>) returns (r: int)
      modifies `conn
      ensures r <= |bytes|
      ensures conn == if r > 0 && fd != 0 then old(conn).(handed := old(conn).handed + bytes[..r]) else old(conn)
    {
      r := *;
      if r > |bytes| {
        r := |bytes|;
      }
      conn := if r > 0 && fd != 0 then conn.(handed := conn.handed + bytes[..r]) else conn;
    }

    // ---- the main task ----

    method New(host: seq<byte>) returns (r: int, ghost es: seq<Event>)
      modifies this
      ensures forall w :: Leads(old(View(Ready, w)), es, View(Ready, w))
      ensures r == if |old(cmds)| < 50 then 0 else -1
      ensures r == 0 ==> cmds == old(cmds) + [Cmd(OPEN, old(heap).next, host)]
                         && heap == Heap(old(heap).next + 1, old(heap).freed)
      ensures r == -1 ==> cmds == old(cmds) && heap == Heap(old(heap).next + 1, old(heap).freed + [old(heap).next])
      ensures sockFd == old(sockFd) && conn == old(conn)
    {
      var block := Alloc();
      var ok := QueueSend(Cmd(OPEN, block, host));
      if ok {
        r := 0;
      } else {
        Release(block);
        r := -1;
      }
      es := [Event.New(host)] + [Send(ok)];
      forall w: Worker ensures Leads(old(View(Ready, w)), es, View(Ready, w)) {
        var s := old(View(Ready, w));
        LeadsBy(s, Event.New(host));
        LeadsBy(Next(s, Event.New(host)), Send(ok));
        LeadsOn(s, [Event.New(host)], Next(s, Event.New(host)), [Send(ok)], View(Ready, w));
      }
    }

    method Write(data: seq<byte>) returns (r: int, ghost es: seq<Event>)
      modifies this
      ensures forall w :: Leads(old(View(Ready, w)), es, View(Ready, w))
      ensures r == if old(sockFd) == 0 then -10 else if |old(cmds)| < 50 then 0 else -1
      ensures r == 0 ==> cmds == old(cmds) + [Cmd(MESSAGE, old(heap).next, data)]
                         && heap == Heap(old(heap).next + 1, old(heap).freed)
      ensures r == -1 ==> cmds == old(cmds) && heap == Heap(old(heap).next + 1, old(heap).freed + [old(heap).next])
      ensures r == -10 ==> cmds == old(cmds) && heap == old(heap)
      ensures sockFd == old(sockFd) && conn == old(conn)
    {
      es := [];
      if sockFd == 0 {
        return -10, es;
      }
      var block := Alloc();
      var ok := QueueSend(Cmd(MESSAGE, block, data));
      if ok {
        r := 0;
      } else {
        Release(block);
        r := -1;
      }
      es := [Event.Write(data)] + [Send(ok)];
      forall w: Worker ensures Leads(old(View(Ready, w)), es, View(Ready, w)) {
        var s := old(View(Ready, w));
        LeadsBy(s, Event.Write(data));
        LeadsBy(Next(s, Event.Write(data)), Send(ok));
        LeadsOn(s, [Event.Write(data)], Next(s, Event.Write(data)), [Send(ok)], View(Ready, w));
      }
    }

    /** jd_tcpsock_close; closing the descriptor itself is not part of this model. */
    method Close()
      modifies `sockFd
      ensures sockFd == 0
    {
      if sockFd != 0 {
        sockFd := 0;
      }
    }

    // ---- the worker ----

    /** forced_write. */
    method ForcedWrite(fd: nat, data: seq<byte>, ghost block: nat, ghost m: Main) returns (n: int, ghost es: seq<Event>)
      modifies `conn
      ensures n == |data| || n <= 0
      ensures Leads(old(View(m, Writing(block, data, fd, 0))), es,
                    View(m, if n == |data| then Writing(block, data, fd, |data|) else ErrTest(block)))
    {
      es := [];
      var numRead := 0;
      while |data| > numRead
        invariant 0 <= numRead <= |data|
        invariant Leads(old(View(m, Writing(block, data, fd, 0))), es, View(m, Writing(block, data, fd, numRead)))
      {
        ghost var s := View(m, Writing(block, data, fd, numRead));
        var r := WriteFd(fd, data[numRead..]);
        LeadsStep(old(View(m, Writing(block, data, fd, 0))), es, s, WriteCall(r));
        es := es + [WriteCall(r)];
        assert data[numRead..][..if r > 0 then r else 0] == data[numRead..numRead + if r > 0 then r else 0];
        if r <= 0 {
          return r, es;
        }
        numRead := numRead + r;
      }
      n := numRead;
    }

    /** raise_error; the events it queues for the client are not part of this model. */
    method RaiseError(ghost block: nat, ghost m: Main) returns (ghost es: seq<Event>)
      modifies `sockFd
      ensures Leads(old(View(m, ErrTest(block))), es, View(m, Free(block))) && sockFd == 0
    {
      ghost var s := View(m, ErrTest(block));
      LeadsBy(s, WorkerStep);
      es := [WorkerStep];
      if sockFd != 0 {
        LeadsStep(s, es, View(m, ErrTestAgain(block)), WorkerStep);
        LeadsStep(s, es + [WorkerStep], View(m, ErrClose(block)), WorkerStep);
        LeadsStep(s, es + [WorkerStep] + [WorkerStep], View(m, ErrZero(block)), WorkerStep);
        es := es + [WorkerStep] + [WorkerStep] + [WorkerStep];
        Close();
      }
    }

    /** process_write. */
    method ProcessWrite(block: nat, data: seq<byte>, ghost m: Main) returns (ghost es: seq<Event>)
      modifies this
      ensures Leads(old(View(m, WriteTest(block, data))), es, View(m, Idle))
    {
      ghost var s := View(m, WriteTest(block, data));
      LeadsBy(s, WorkerStep);
      es := [WorkerStep];
      if sockFd != 0 {
        LeadsStep(s, es, View(m, WriteArg(block, data)), WorkerStep);
        es := es + [WorkerStep];
        ghost var t := View(m, Writing(block, data, sockFd, 0));
        var fd := sockFd;
        var n, ws := ForcedWrite(fd, data, block, m);
        if n != |data| {
          LeadsOn(s, es, t, ws, View(m, ErrTest(block)));
          ghost var u := View(m, ErrTest(block));
          ghost var rs := RaiseError(block, m);
          LeadsOn(s, es + ws, u, rs, View(m, Free(block)));
          es := es + ws + rs;
        } else {
          LeadsOn(s, es, t, ws, View(m, Writing(block, data, fd, |data|)));
          LeadsStep(s, es + ws, View(m, Writing(block, data, fd, |data|)), WorkerStep);
          es := es + ws + [WorkerStep];
        }
      }
      LeadsStep(s, es, View(m, Free(block)), WorkerStep);
      es := es + [WorkerStep];
      Release(block);
    }

    /** sock_create_and_connect; whether it succeeds is up to the network. */
    method Connect() returns (ok: bool)
      modifies `sockFd, `conn
      ensures if ok then sockFd == old(conn).id + 1 && conn == Conn(old(conn).id + 1, true, [], [])
              else sockFd == old(sockFd) && conn == old(conn)
    {
      ok := *;
      if ok {
        sockFd := conn.id + 1;
        conn := Conn(conn.id + 1, true, [], []);
      }
    }

    /** The call of jd_tcpsock_close in process_open. */
    method CloseBeforeOpen(ghost block: nat, ghost m: Main) returns (ghost es: seq<Event>)
      modifies `sockFd
      ensures Leads(old(View(m, OpenTest(block))), es, View(m, Worker.Connect(block)))
    {
      ghost var s := View(m, OpenTest(block));
      LeadsBy(s, WorkerStep);
      es := [WorkerStep];
      if sockFd != 0 {
        LeadsStep(s, es, View(m, OpenClose(block)), WorkerStep);
        LeadsStep(s, es + [WorkerStep], View(m, OpenZero(block)), WorkerStep);
        es := es + [WorkerStep] + [WorkerStep];
      }
      Close();
    }

    /** process_open. */
    method ProcessOpen(block: nat, ghost m: Main) returns (ghost es: seq<Event>)
      modifies this
      ensures Leads(old(View(m, OpenTest(block))), es, View(m, Idle))
    {
      ghost var s := View(m, OpenTest(block));
      es := CloseBeforeOpen(block, m);
      ghost var t := View(m, Worker.Connect(block));
      var ok := Connect();
      LeadsStep(s, es, t, Connected(ok));
      LeadsStep(s, es + [Connected(ok)], View(m, Free(block)), WorkerStep);
      es := es + [Connected(ok)] + [WorkerStep];
      Release(block);
    }

    /** One turn of worker_main with a command at hand; panicked when the command is unknown. */
    method ServeOne(ghost m: Main) returns (panicked: bool, ghost es: seq<Event>)
      requires cmds != []
      modifies this
      ensures panicked <==> old(cmds)[0].code.OTHER?
      ensures Leads(old(View(m, Idle)), es, View(m, if panicked then Panicked else Idle))
    {
      ghost var s := View(m, Idle);
      LeadsBy(s, Receive);
      var cmd := cmds[0];
      cmds := cmds[1..];
      panicked := false;
      ghost var rest;
      if cmd.code.OPEN? {
        conn := conn.(current := false);
        ghost var t := View(m, OpenTest(cmd.block));
        rest := ProcessOpen(cmd.block, m);
        LeadsOn(s, [Receive], t, rest, View(m, Idle));
      } else if cmd.code.MESSAGE? {
        conn := if conn.current then conn.(intake := conn.intake + cmd.data) else conn;
        ghost var t := View(m, WriteTest(cmd.block, cmd.data));
        rest := ProcessWrite(cmd.block, cmd.data, m);
        LeadsOn(s, [Receive], t, rest, View(m, Idle));
      } else {
        panicked := true;
        rest := [];
      }
      es := [Receive] + rest;
    }
  }
}
