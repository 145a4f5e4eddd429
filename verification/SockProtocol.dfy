// The plaintext TCP path of main/sock.c: the task that sends commands, the command queue, and the worker
// that serves them, with the main task free to close the socket between any two steps of the worker.
// The result of every connect and write call is arbitrary.

module SockProtocol {
  import opened Bytes

  const QUEUE_LEN := 50

  /** JD_CONN_EV_OPEN, JD_CONN_EV_MESSAGE, and every other command code. */
  datatype Code = OPEN | MESSAGE | OTHER

  /** A command with the block it owns; data is the payload, or the host name. */
  datatype Cmd = Cmd(code: Code, block: nat, data: seq<byte>)

  /** Where the main task is: nowhere, about to queue a command, or inside jd_tcpsock_close. */
  datatype Main = Ready | Sending(cmd: Cmd) | CloseFd | CloseZero

  /** Where the worker is, and the block it owns. */
  datatype Worker =
    | Idle
    | OpenTest(block: nat) | OpenClose(block: nat) | OpenZero(block: nat) | Connect(block: nat)
    | WriteTest(block: nat, data: seq<byte>) | WriteArg(block: nat, data: seq<byte>)
    | Writing(block: nat, data: seq<byte>, fd: nat, done: nat)
    | ErrTest(block: nat) | ErrTestAgain(block: nat) | ErrClose(block: nat) | ErrZero(block: nat)
    | Free(block: nat)
    | Panicked

  /** The blocks numbered below next have been allocated; freed lists those given back. */
  datatype Heap = Heap(next: nat, freed: seq<nat>)

  /** The latest connection: its number (0 before the first), the bytes handed to its socket, and the payloads
      dequeued since it was opened; current until the next OPEN is dequeued. */
  datatype Conn = Conn(id: nat, current: bool, handed: seq<byte>, intake: seq<byte>)

  datatype State = State(heap: Heap, queue: seq<Cmd>, main: Main, worker: Worker, sockFd: nat, conn: Conn)

  function Init(): State {
    State(Heap(0, []), [], Ready, Idle, 0, Conn(0, false, [], []))
  }

  datatype Event =
    | New(host: seq<byte>) | Write(data: seq<byte>) | Send(accepted: bool)
    | Close | CloseStep
    | Receive
    | WorkerStep
    | Connected(ok: bool)
    | WriteCall(r: int)  // what one call of write returns

  predicate Enabled(s: State, e: Event) {
    match e
    case New(_) => s.main.Ready?
    case Write(_) => s.main.Ready?
    case Send(accepted) => s.main.Sending? && (accepted <==> |s.queue| < QUEUE_LEN)
    case Close => s.main.Ready?
    case CloseStep => s.main.CloseFd? || s.main.CloseZero?
    case Receive => s.worker.Idle? && s.queue != []
    case WorkerStep =>
      && !(s.worker.Idle? || s.worker.Connect? || s.worker.Panicked?)
      && (s.worker.Writing? ==> s.worker.done == |s.worker.data|)
    case Connected(_) => s.worker.Connect?
    case WriteCall(r) => s.worker.Writing? && s.worker.done < |s.worker.data| && r <= |s.worker.data| - s.worker.done
  }

  // ---- the main task ----

  function Begin(s: State, code: Code, data: seq<byte>): State {
    s.(main := Sending(Cmd(code, s.heap.next, data)), heap := Heap(s.heap.next + 1, s.heap.freed))
  }

  function SendStep(s: State, accepted: bool): State
    requires s.main.Sending?
  {
    s.(main := Ready,
       queue := if accepted then s.queue + [s.main.cmd] else s.queue,
       heap := if accepted then s.heap else Heap(s.heap.next, s.heap.freed + [s.main.cmd.block]))
  }

  function MainClose(s: State): State {
    match s.main
    case CloseFd => s.(main := CloseZero)
    case CloseZero => s.(main := Ready, sockFd := 0)
    case _ => s
  }

  // ---- the worker ----

  function Dequeue(s: State): State
    requires s.queue != []
  {
    var c := s.queue[0];
    match c.code
    case OPEN => s.(queue := s.queue[1..], worker := OpenTest(c.block), conn := s.conn.(current := false))
    case MESSAGE =>
      s.(queue := s.queue[1..], worker := WriteTest(c.block, c.data),
         conn := if s.conn.current then s.conn.(intake := s.conn.intake + c.data) else s.conn)
    case OTHER => s.(queue := s.queue[1..], worker := Panicked)
  }

  function Step(s: State): State {
    match s.worker
    case OpenTest(b) => s.(worker := if s.sockFd != 0 then OpenClose(b) else Connect(b))
    case OpenClose(b) => s.(worker := OpenZero(b))
    case OpenZero(b) => s.(worker := Connect(b), sockFd := 0)
    case WriteTest(b, data) => s.(worker := if s.sockFd != 0 then WriteArg(b, data) else Free(b))
    case WriteArg(b, data) => s.(worker := Writing(b, data, s.sockFd, 0))
    case Writing(b, _, _, _) => s.(worker := Free(b))
    case ErrTest(b) => s.(worker := if s.sockFd != 0 then ErrTestAgain(b) else Free(b))
    case ErrTestAgain(b) => s.(worker := if s.sockFd != 0 then ErrClose(b) else Free(b))
    case ErrClose(b) => s.(worker := ErrZero(b))
    case ErrZero(b) => s.(worker := Free(b), sockFd := 0)
    case Free(b) => s.(worker := Idle, heap := Heap(s.heap.next, s.heap.freed + [b]))
    case _ => s
  }

  function ConnectStep(s: State, ok: bool): State
    requires s.worker.Connect?
  {
    if ok then s.(worker := Free(s.worker.block), sockFd := s.conn.id + 1, conn := Conn(s.conn.id + 1, true, [], []))
    else s.(worker := Free(s.worker.block))
  }

  /** One call of write in forced_write: bytes go to the connection only when fd is its descriptor. */
  function WriteStep(s: State, r: int): State
    requires s.worker.Writing? && s.worker.done < |s.worker.data| && r <= |s.worker.data| - s.worker.done
  {
    var w := s.worker;
    if r <= 0 then s.(worker := ErrTest(w.block))
    else
      s.(worker := Writing(w.block, w.data, w.fd, w.done + r),
         conn := if w.fd == 0 then s.conn
                 else s.conn.(handed := s.conn.handed + w.data[w.done..w.done + r]))
  }

  function Next(s: State, e: Event): State
    requires Enabled(s, e)
  {
    match e
    case New(host) => Begin(s, OPEN, host)
    case Write(data) => if s.sockFd == 0 then s else Begin(s, MESSAGE, data)
    case Send(accepted) => SendStep(s, accepted)
    case Close => if s.sockFd == 0 then s else s.(main := CloseFd)
    case CloseStep => MainClose(s)
    case Receive => Dequeue(s)
    case WorkerStep => Step(s)
    case Connected(ok) => ConnectStep(s, ok)
    case WriteCall(r) => WriteStep(s, r)
  }

  predicate Obeys(s: State, es: seq<Event>)
    decreases |es|
  {
    es == [] || (Enabled(s, es[0]) && Obeys(Next(s, es[0]), es[1..]))
  }

  function Run(s: State, es: seq<Event>): State
    requires Obeys(s, es)
    decreases |es|
  {
    if es == [] then s else Run(Next(s, es[0]), es[1..])
  }

  // ---- who owns what ----

  function QueueBlocks(q: seq<Cmd>): multiset<nat> {
    if q == [] then multiset{} else multiset{q[0].block} + QueueBlocks(q[1..])
  }

  function MainBlocks(m: Main): multiset<nat> {
    if m.Sending? then multiset{m.cmd.block} else multiset{}
  }

  function WorkerBlocks(w: Worker): multiset<nat> {
    if w.Idle? || w.Panicked? then multiset{} else multiset{w.block}
  }

  /** The blocks that were given back, and those the worker, the queue and the sender still own. */
  function Accounted(s: State): multiset<nat> {
    multiset(s.heap.freed) + WorkerBlocks(s.worker) + QueueBlocks(s.queue) + MainBlocks(s.main)
  }

  /** The blocks below n, each once. */
  function Blocks(n: nat): multiset<nat> {
    if n == 0 then multiset{} else Blocks(n - 1) + multiset{n - 1}
  }

  lemma {:induction false} EachOnce(n: nat, b: nat)
    ensures Blocks(n)[b] == if b < n then 1 else 0
  {
    if n > 0 {
      EachOnce(n - 1, b);
    }
  }

  lemma {:induction false} QueueBlocksSnoc(q: seq<Cmd>, c: Cmd)
    ensures QueueBlocks(q + [c]) == QueueBlocks(q) + multiset{c.block}
    decreases |q|
  {
    if q == [] {
      assert [c][1..] == [];
    } else {
      QueueBlocksSnoc(q[1..], c);
      assert (q + [c])[1..] == q[1..] + [c];
    }
  }

  // ---- the invariant ----

  predicate KnownCodes(s: State) {
    && (forall i :: 0 <= i < |s.queue| ==> !s.queue[i].code.OTHER?)
    && (s.main.Sending? ==> !s.main.cmd.code.OTHER?)
    && !s.worker.Panicked?
  }

  predicate Prefix(a: seq<byte>, b: seq<byte>) {
    |a| <= |b| && a == b[..|a|]
  }

  /** A usable descriptor belongs to the current connection, which has been handed all but the last
      pending bytes of its intake. */
  predicate InStep(s: State, pending: seq<byte>) {
    s.sockFd != 0 ==> s.conn.current && s.conn.handed + pending == s.conn.intake
  }

  predicate Data(s: State) {
    && (s.sockFd == 0 || s.sockFd == s.conn.id)
    && Prefix(s.conn.handed, s.conn.intake)
    && match s.worker
       case Idle => InStep(s, [])
       case Free(_) => InStep(s, [])
       case Connect(_) => s.sockFd == 0
       case WriteTest(_, data) => InStep(s, data)
       case WriteArg(_, data) => InStep(s, data)
       case Writing(_, data, fd, done) =>
         && done <= |data| && (fd == 0 ==> s.sockFd == 0)
         && (fd != 0 ==> s.conn.current && s.conn.handed + data[done..] == s.conn.intake)
       case _ => true
  }

  predicate Inv(s: State) {
    Balanced(s) && KnownCodes(s) && Data(s)
  }

  lemma SendKeepsBlocks(s: State, accepted: bool)
    requires s.main.Sending?
    ensures Accounted(SendStep(s, accepted)) == Accounted(s) && SendStep(s, accepted).heap.next == s.heap.next
  {
    QueueBlocksSnoc(s.queue, s.main.cmd);
  }

  lemma DequeueKeepsBlocks(s: State)
    requires s.queue != [] && s.worker.Idle? && !s.queue[0].code.OTHER?
    ensures Accounted(Dequeue(s)) == Accounted(s) && Dequeue(s).heap == s.heap
  {
  }

  lemma SameBlocks(s: State, t: State)
    requires t.heap == s.heap && t.queue == s.queue
    requires WorkerBlocks(t.worker) == WorkerBlocks(s.worker) && MainBlocks(t.main) == MainBlocks(s.main)
    ensures Accounted(t) == Accounted(s)
  {
  }

  lemma WorkerKeepsBlocks(s: State)
    ensures Accounted(Step(s)) == Accounted(s) && Step(s).heap.next == s.heap.next
  {
    if s.worker.Free? {
      assert multiset(s.heap.freed + [s.worker.block]) == multiset(s.heap.freed) + multiset{s.worker.block};
    } else {
      SameBlocks(s, Step(s));
    }
  }

  lemma BeginKeepsBlocks(s: State, code: Code, data: seq<byte>)
    requires s.main.Ready? && Accounted(s) == Blocks(s.heap.next)
    ensures Accounted(Begin(s, code, data)) == Blocks(Begin(s, code, data).heap.next)
  {
  }

  predicate Balanced(s: State) {
    Accounted(s) == Blocks(s.heap.next)
  }

  lemma ConnectKeepsBlocks(s: State, ok: bool)
    requires s.worker.Connect?
    ensures Accounted(ConnectStep(s, ok)) == Accounted(s) && ConnectStep(s, ok).heap == s.heap
  {
    SameBlocks(s, ConnectStep(s, ok));
  }

  lemma WriteCallKeepsBlocks(s: State, r: int)
    requires s.worker.Writing? && s.worker.done < |s.worker.data| && r <= |s.worker.data| - s.worker.done
    ensures Accounted(WriteStep(s, r)) == Accounted(s) && WriteStep(s, r).heap == s.heap
  {
    assert WriteStep(s, r).worker.block == s.worker.block;
    SameBlocks(s, WriteStep(s, r));
  }

  lemma CloseKeepsBlocks(s: State, e: Event)
    requires Enabled(s, e) && (e.Close? || e.CloseStep?)
    ensures Accounted(Next(s, e)) == Accounted(s) && Next(s, e).heap == s.heap
  {
    SameBlocks(s, Next(s, e));
  }

  lemma WriteKeepsBlocks(s: State, data: seq<byte>)
    requires s.main.Ready? && Balanced(s)
    ensures Balanced(Next(s, Write(data)))
  {
    BeginKeepsBlocks(s, MESSAGE, data);
  }

  lemma StepKeepsBlocks(s: State, e: Event)
    requires Enabled(s, e) && Balanced(s) && KnownCodes(s)
    ensures Balanced(Next(s, e))
  {
    if e.New? {
      BeginKeepsBlocks(s, OPEN, e.host);
    } else if e.Write? {
      WriteKeepsBlocks(s, e.data);
    } else if e.Send? {
      SendKeepsBlocks(s, e.accepted);
    } else if e.Receive? {
      DequeueKeepsBlocks(s);
    } else if e.WorkerStep? {
      WorkerKeepsBlocks(s);
    } else if e.Connected? {
      ConnectKeepsBlocks(s, e.ok);
    } else if e.WriteCall? {
      WriteCallKeepsBlocks(s, e.r);
    } else {
      CloseKeepsBlocks(s, e);
    }
  }

  lemma StepKeepsCodes(s: State, e: Event)
    requires Enabled(s, e) && KnownCodes(s)
    ensures KnownCodes(Next(s, e))
  {
  }

  lemma DequeueKeepsData(s: State)
    requires s.queue != [] && s.worker.Idle? && Data(s)
    ensures Data(Dequeue(s))
  {
    var c, d := s.queue[0], s.conn;
    if c.code.MESSAGE? && d.current {
      assert (d.intake + c.data)[..|d.handed|] == d.intake[..|d.handed|];
      assert d.handed + [] == d.handed;
    }
  }

  lemma WorkerKeepsData(s: State)
    requires Data(s) && (s.worker.Writing? ==> s.worker.done == |s.worker.data|)
    ensures Data(Step(s))
  {
    var d := s.conn;
    assert d.handed + [] == d.handed;
    match s.worker
    case WriteArg(_, data) => assert data[0..] == data;
    case Writing(_, data, _, done) => assert data[done..] == [];
    case _ =>
  }

  lemma WriteKeepsData(s: State, r: int)
    requires s.worker.Writing? && Data(s)
    requires s.worker.done < |s.worker.data| && r <= |s.worker.data| - s.worker.done
    ensures Data(WriteStep(s, r))
  {
    var w, d := s.worker, s.conn;
    if r > 0 && w.fd != 0 {
      var chunk := w.data[w.done..w.done + r];
      assert w.data[w.done..] == chunk + w.data[w.done + r..];
      assert d.handed + (chunk + w.data[w.done + r..]) == d.handed + chunk + w.data[w.done + r..];
    }
  }

  lemma MainKeepsData(s: State, e: Event)
    requires Enabled(s, e) && Data(s) && (e.New? || e.Write? || e.Send? || e.Close? || e.CloseStep?)
    ensures Data(Next(s, e))
  {
  }

  lemma StepKeepsData(s: State, e: Event)
    requires Enabled(s, e) && Data(s)
    ensures Data(Next(s, e))
  {
    match e
    case Receive => DequeueKeepsData(s);
    case WorkerStep => WorkerKeepsData(s);
    case WriteCall(r) => WriteKeepsData(s, r);
    case Connected(_) =>
    case _ => MainKeepsData(s, e);
  }

  /** Every step keeps the invariant. */
  lemma StepKeepsInv(s: State, e: Event)
    requires Enabled(s, e) && Inv(s)
    ensures Inv(Next(s, e))
  {
    StepKeepsBlocks(s, e);
    StepKeepsCodes(s, e);
    StepKeepsData(s, e);
  }

  lemma {:induction false} RunKeepsInv(s: State, es: seq<Event>)
    requires Inv(s) && Obeys(s, es)
    ensures Inv(Run(s, es))
    decreases |es|
  {
    if es != [] {
      StepKeepsInv(s, es[0]);
      RunKeepsInv(Next(s, es[0]), es[1..]);
    }
  }

  // ---- the theorems ----

  /** In every run each block is given back at most once, and once the sender, the queue and the worker are
      empty-handed every block has been given back exactly once. */
  lemma EveryBlockIsFreedOnce(es: seq<Event>)
    requires Obeys(Init(), es)
    ensures var s := Run(Init(), es);
            && (forall b: nat :: multiset(s.heap.freed)[b] <= if b < s.heap.next then 1 else 0)
            && (!s.main.Sending? && s.queue == [] && s.worker.Idle? ==>
                  forall b: nat :: multiset(s.heap.freed)[b] == if b < s.heap.next then 1 else 0)
  {
    RunKeepsInv(Init(), es);
    var s := Run(Init(), es);
    forall b: nat ensures multiset(s.heap.freed)[b] <= if b < s.heap.next then 1 else 0 {
      EachOnce(s.heap.next, b);
      assert Accounted(s)[b] >= multiset(s.heap.freed)[b];
    }
    if !s.main.Sending? && s.queue == [] && s.worker.Idle? {
      forall b: nat ensures multiset(s.heap.freed)[b] == if b < s.heap.next then 1 else 0 {
        EachOnce(s.heap.next, b);
        assert Accounted(s)[b] == multiset(s.heap.freed)[b];
      }
    }
  }

  /** The panic for an unknown command is unreachable. */
  lemma NeverPanics(es: seq<Event>)
    requires Obeys(Init(), es)
    ensures !Run(Init(), es).worker.Panicked?
  {
    RunKeepsInv(Init(), es);
  }

  /** What one step takes from the queue and what it adds. */
  function TakenBy(s: State, e: Event): seq<Cmd>
    requires Enabled(s, e)
  {
    if e.Receive? then [s.queue[0]] else []
  }

  function AcceptedBy(s: State, e: Event): seq<Cmd>
    requires Enabled(s, e)
  {
    if e.Send? && e.accepted then [s.main.cmd] else []
  }

  /** The commands the queue accepted, in order. */
  function Accepted(s: State, es: seq<Event>): seq<Cmd>
    requires Obeys(s, es)
    decreases |es|
  {
    if es == [] then []
    else AcceptedBy(s, es[0]) + Accepted(Next(s, es[0]), es[1..])
  }

  /** The commands the worker dequeued, in order. */
  function Taken(s: State, es: seq<Event>): seq<Cmd>
    requires Obeys(s, es)
    decreases |es|
  {
    if es == [] then []
    else TakenBy(s, es[0]) + Taken(Next(s, es[0]), es[1..])
  }

  /** The payloads behind the last OPEN. */
  function LatestPayloads(cs: seq<Cmd>): seq<byte> {
    if cs == [] || cs[|cs| - 1].code.OPEN? then []
    else LatestPayloads(cs[..|cs| - 1]) + cs[|cs| - 1].data
  }

  lemma StepServes(s: State, e: Event)
    requires Enabled(s, e)
    ensures s.queue + AcceptedBy(s, e) == TakenBy(s, e) + Next(s, e).queue
  {
    assert s.queue + [] == s.queue && [] + s.queue == s.queue;
  }

  lemma Chain(q: seq<Cmd>, a: seq<Cmd>, b: seq<Cmd>, t: seq<Cmd>, u: seq<Cmd>, q1: seq<Cmd>, q2: seq<Cmd>)
    requires q + a == t + q1 && q1 + b == u + q2
    ensures q + (a + b) == t + u + q2
  {
    assert q + (a + b) == q + a + b && t + q1 + b == t + (q1 + b) && t + (u + q2) == t + u + q2;
  }

  /** Commands are served in the order in which they were accepted. */
  lemma {:induction false} ServedInOrder(s: State, es: seq<Event>)
    requires Obeys(s, es)
    ensures s.queue + Accepted(s, es) == Taken(s, es) + Run(s, es).queue
    decreases |es|
  {
    if es == [] {
      assert s.queue + [] == s.queue && [] + s.queue == s.queue;
    } else {
      var t := Next(s, es[0]);
      StepServes(s, es[0]);
      ServedInOrder(t, es[1..]);
      Chain(s.queue, AcceptedBy(s, es[0]), Accepted(t, es[1..]), TakenBy(s, es[0]), Taken(t, es[1..]), t.queue,
            Run(s, es).queue);
    }
  }

  predicate Serving(s: State, taken: seq<Cmd>) {
    && (s.conn.current ==> s.conn.intake == LatestPayloads(taken))
    && (s.worker.OpenTest? || s.worker.OpenClose? || s.worker.OpenZero? || s.worker.Connect? ==>
          LatestPayloads(taken) == [])
  }

  lemma {:induction false} DequeueServes(s: State, taken: seq<Cmd>)
    requires s.queue != [] && s.worker.Idle? && Serving(s, taken) && !s.queue[0].code.OTHER?
    ensures Serving(Dequeue(s), taken + [s.queue[0]])
  {
    assert (taken + [s.queue[0]])[..|taken|] == taken;
  }

  lemma {:induction false} StepKeepsServing(s: State, e: Event, taken: seq<Cmd>)
    requires Enabled(s, e) && KnownCodes(s) && Serving(s, taken)
    ensures Serving(Next(s, e), taken + TakenBy(s, e))
  {
    if e.Receive? {
      DequeueServes(s, taken);
    } else {
      assert taken + [] == taken;
    }
  }

  lemma {:induction false} RunServes(s: State, es: seq<Event>, taken: seq<Cmd>)
    requires Obeys(s, es) && KnownCodes(s) && Serving(s, taken)
    ensures Serving(Run(s, es), taken + Taken(s, es))
    decreases |es|
  {
    if es == [] {
      assert taken + [] == taken;
    } else {
      StepKeepsCodes(s, es[0]);
      StepKeepsServing(s, es[0], taken);
      RunServes(Next(s, es[0]), es[1..], taken + TakenBy(s, es[0]));
      assert taken + TakenBy(s, es[0]) + Taken(Next(s, es[0]), es[1..]) == taken + Taken(s, es);
    }
  }

  // ---- what the client asked for ----

  /** A call of jd_tcpsock_new with its host name, or of jd_tcpsock_write with its bytes. */
  datatype Request = Request(code: Code, data: seq<byte>)

  /** The call in progress after e. */
  function RequestAfter(e: Event, q: Request): Request {
    match e
    case New(host) => Request(OPEN, host)
    case Write(data) => Request(MESSAGE, data)
    case _ => q
  }

  /** The calls of a run that were queued, in order, from the events alone; q is the call in progress. */
  function Requests(es: seq<Event>, q: Request): (rs: seq<Request>)
    decreases |es|
  {
    if es == [] then []
    else (if es[0] == Send(true) then [q] else []) + Requests(es[1..], RequestAfter(es[0], q))
  }

  /** How many commands the worker dequeued, from the events alone. */
  function Receives(es: seq<Event>): nat {
    if es == [] then 0 else (if es[0] == Receive then 1 else 0) + Receives(es[1..])
  }

  /** The bytes of the writes behind the last open. */
  function BytesSinceOpen(rs: seq<Request>): seq<byte> {
    if rs == [] || rs[|rs| - 1].code == OPEN then []
    else BytesSinceOpen(rs[..|rs| - 1]) + rs[|rs| - 1].data
  }

  function Plain(cs: seq<Cmd>): (rs: seq<Request>)
    ensures |rs| == |cs|
  {
    seq(|cs|, i requires 0 <= i < |cs| => Request(cs[i].code, cs[i].data))
  }

  lemma PlainConcat(a: seq<Cmd>, b: seq<Cmd>)
    ensures Plain(a + b) == Plain(a) + Plain(b)
  {
  }

  /** The accepted commands carry exactly what the client gave. */
  lemma {:induction false} AcceptedAreRequests(s: State, es: seq<Event>, q: Request)
    requires Obeys(s, es) && (s.main.Sending? ==> q == Request(s.main.cmd.code, s.main.cmd.data))
    ensures Plain(Accepted(s, es)) == Requests(es, q)
    decreases |es|
  {
    if es != [] {
      AcceptedAreRequests(Next(s, es[0]), es[1..], RequestAfter(es[0], q));
      PlainConcat(AcceptedBy(s, es[0]), Accepted(Next(s, es[0]), es[1..]));
    }
  }

  lemma {:induction false} TakenAreReceives(s: State, es: seq<Event>)
    requires Obeys(s, es)
    ensures |Taken(s, es)| == Receives(es)
    decreases |es|
  {
    if es != [] {
      TakenAreReceives(Next(s, es[0]), es[1..]);
    }
  }

  lemma {:induction false} LatestAreBytes(cs: seq<Cmd>)
    ensures LatestPayloads(cs) == BytesSinceOpen(Plain(cs))
    decreases |cs|
  {
    if cs != [] {
      var n := |cs| - 1;
      LatestAreBytes(cs[..n]);
      assert Plain(cs)[..n] == Plain(cs[..n]);
    }
  }

  /** The commands served are the first of the client's queued calls, as many as were dequeued. */
  lemma ServedAreRequests(es: seq<Event>, q: Request)
    requires Obeys(Init(), es)
    ensures Receives(es) <= |Requests(es, q)|
    ensures Plain(Taken(Init(), es)) == Requests(es, q)[..Receives(es)]
  {
    var taken, queue := Taken(Init(), es), Run(Init(), es).queue;
    ServedInOrder(Init(), es);
    assert [] + Accepted(Init(), es) == Accepted(Init(), es);
    AcceptedAreRequests(Init(), es, q);
    PlainConcat(taken, queue);
    TakenAreReceives(Init(), es);
    assert (Plain(taken) + Plain(queue))[..|taken|] == Plain(taken);
  }

  /** In every run the bytes handed to the latest connection are a prefix of the bytes the client gave in the queued
      calls that were dequeued since it was opened: in the order of the calls, with nothing skipped, repeated or mixed
      in. While the descriptor is usable and the worker is waiting, they are all of them. */
  lemma HandedIsPrefix(es: seq<Event>, q: Request)
    requires Obeys(Init(), es)
    ensures Receives(es) <= |Requests(es, q)|
    ensures var s := Run(Init(), es);
            var given := BytesSinceOpen(Requests(es, q)[..Receives(es)]);
            && Prefix(s.conn.handed, s.conn.intake)
            && (s.conn.current ==> s.conn.intake == given && Prefix(s.conn.handed, given))
            && (s.worker.Idle? && s.sockFd != 0 ==> s.conn.handed == given)
  {
    RunKeepsInv(Init(), es);
    RunServes(Init(), es, []);
    assert [] + Taken(Init(), es) == Taken(Init(), es);
    var s := Run(Init(), es);
    assert s.conn.handed + [] == s.conn.handed;
    ServedAreRequests(es, q);
    LatestAreBytes(Taken(Init(), es));
  }
}
