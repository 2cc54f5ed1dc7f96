/**
 The lock-free queue of mini_rtos/src/lockless.c as a transition system: one step is one atomic access of one thread.

 Memory is sequentially consistent, nodes are never reused, a weak compare-and-swap may fail for no reason.
 */
module LockFreeQueue {
  import opened Machine
  import opened Linearizability
  import opened Options

  const NULL: nat := 0

  // The next access of a running operation, with the locals it still needs.
  datatype PC =
    | EnqAlloc(v: int)
    | EnqLoadTail(node: nat)
    | EnqLoadNext(node: nat, tail: nat)
    | EnqCheckTail(node: nat, tail: nat, next: nat)
    | EnqLink(node: nat, tail: nat)
    | EnqHelp(node: nat, tail: nat, next: nat)
    | EnqSwing(node: nat, tail: nat)
    | EnqCount
    | DeqLoadHead
    | DeqLoadTail(head: nat)
    | DeqLoadNext(head: nat, tail: nat)
    | DeqCheckHead(head: nat, tail: nat, next: nat)
    | DeqHelp(tail: nat, next: nat)
    | DeqLoadData(head: nat, next: nat)
    | DeqUnlink(head: nat, next: nat, data: int)
    | DeqCount(data: int)
    | Leave(ret: Ret)

  datatype Thread = Idle | Run(op: nat, pc: PC)

  // chain, at, first and last are auxiliary: every node ever linked, its position, and the positions of head and tail.
  datatype State = State(
    head: nat, tail: nat, size: uint32, next: map<nat, nat>, data: map<nat, int>,
    threads: map<nat, Thread>,
    hist: History, chain: seq<nat>, at: map<nat, nat>, first: nat, last: nat)
  {
    function Go(t: nat, op: nat, pc: PC): State {
      this.(threads := threads[t := Run(op, pc)])
    }

    // Reads of a pointer that was never allocated yield NULL; the invariant shows that there are none.
    function Next(n: nat): nat {
      if n in next then next[n] else NULL
    }

    function Data(n: nat): int {
      if n in data then data[n] else 0
    }
  }

  // lf_queue_create, with every thread idle.
  function Init(dummy: nat, ids: set<nat>): State {
    State(dummy, dummy, 0, map[dummy := NULL], map[dummy := 0], map t | t in ids :: Idle,
          History(0, [], []), [dummy], map[dummy := 0], 0, 0)
  }

  // What the environment decides in a step: the call, whether allocation works and which fresh node it yields,
  // and whether a weak compare-and-swap fails spuriously.
  datatype Choice = Choice(call: Call, node: nat, lucky: bool)

  predicate Enabled(s: State, t: nat, c: Choice) {
    t in s.threads && c.node != NULL && c.node !in s.next
  }

  // A step that only moves the thread.
  function Quiet(s: State, t: nat, id: nat, pc: PC): State {
    s.(hist := s.hist.Tick()).Go(t, id, pc)
  }

  function Alloc(s: State, t: nat, id: nat, n: nat, v: int): State {
    s.(next := s.next[n := NULL], data := s.data[n := v], hist := s.hist.Tick()).Go(t, id, EnqLoadTail(n))
  }

  function Link(s: State, t: nat, id: nat, node: nat, tail: nat): State {
    s.(next := s.next[tail := node], hist := s.hist.Effect(id, Done),
       chain := s.chain + [node], at := s.at[node := |s.chain|])
     .Go(t, id, EnqSwing(node, tail))
  }

  function Swing(s: State, t: nat, id: nat, next: nat, pc: PC): State {
    s.(tail := next, last := s.last + 1, hist := s.hist.Tick()).Go(t, id, pc)
  }

  function Unlink(s: State, t: nat, id: nat, next: nat, data: int): State {
    s.(head := next, first := s.first + 1, hist := s.hist.Effect(id, Got(data))).Go(t, id, DeqCount(data))
  }

  function Count(s: State, t: nat, id: nat, d: int, ret: Ret): State {
    s.(size := Wrap(s.size + d), hist := s.hist.Tick()).Go(t, id, Leave(ret))
  }

  function Step(s: State, t: nat, c: Choice): State
    requires Enabled(s, t, c)
  {
    match s.threads[t]
    case Idle =>
      s.(threads := s.threads[t := Run(|s.hist.ops|, if c.call.Put? then EnqAlloc(c.call.v) else DeqLoadHead)],
         hist := s.hist.Invoke(t, c.call))
    case Run(id, pc) =>
      var h := s.hist;
      match pc
      case EnqAlloc(v) =>
        if c.lucky then
          Alloc(s, t, id, c.node, v)
        else
          s.(hist := h.Observe(id, NoMemory)).Go(t, id, Leave(NoMemory))
      case EnqLoadTail(node) => Quiet(s, t, id, EnqLoadNext(node, s.tail))
      case EnqLoadNext(node, tail) => Quiet(s, t, id, EnqCheckTail(node, tail, s.Next(tail)))
      case EnqCheckTail(node, tail, next) =>
        Quiet(s, t, id, if tail != s.tail then EnqLoadTail(node)
                    else if next == NULL then EnqLink(node, tail) else EnqHelp(node, tail, next))
      case EnqLink(node, tail) =>
        if s.Next(tail) == NULL && c.lucky then
          Link(s, t, id, node, tail)
        else Quiet(s, t, id, EnqLoadTail(node))
      case EnqHelp(node, tail, next) =>
        if s.tail == tail && c.lucky then Swing(s, t, id, next, EnqLoadTail(node))
          else Quiet(s, t, id, EnqLoadTail(node))
      case EnqSwing(node, tail) =>
        if s.tail == tail then Swing(s, t, id, node, EnqCount) else Quiet(s, t, id, EnqCount)
      case EnqCount => Count(s, t, id, 1, Done)
      case DeqLoadHead => Quiet(s, t, id, DeqLoadTail(s.head))
      case DeqLoadTail(head) => Quiet(s, t, id, DeqLoadNext(head, s.tail))
      case DeqLoadNext(head, tail) =>
        var next := s.Next(head);
        s.(hist := if head == tail && next == NULL then h.Observe(id, Empty) else h.Tick())
         .Go(t, id, DeqCheckHead(head, tail, next))
      case DeqCheckHead(head, tail, next) =>
        if head != s.head then s.(hist := h.Retract(id)).Go(t, id, DeqLoadHead)
        else Quiet(s, t, id, if head != tail then DeqLoadData(head, next)
                         else if next == NULL then Leave(Empty) else DeqHelp(tail, next))
      case DeqHelp(tail, next) =>
        if s.tail == tail && c.lucky then Swing(s, t, id, next, DeqLoadHead) else Quiet(s, t, id, DeqLoadHead)
      case DeqLoadData(head, next) => Quiet(s, t, id, DeqUnlink(head, next, s.Data(next)))
      case DeqUnlink(head, next, data) =>
        if s.head == head && c.lucky then
          Unlink(s, t, id, next, data)
        else Quiet(s, t, id, DeqLoadHead)
      case DeqCount(data) => Count(s, t, id, -1, Got(data))
      case Leave(ret) => s.(threads := s.threads[t := Idle], hist := h.Return(id, ret))
  }

  // ---- the invariant
  ghost predicate NodeOk(s: State, k: int) {
    && 0 <= k < |s.chain|
    && var n := s.chain[k];
    && n != NULL && n in s.at && s.at[n] == k && n in s.next && n in s.data
    && s.next[n] == if k + 1 < |s.chain| then s.chain[k + 1] else NULL
  }

  // head never passes tail, tail lags the last linked node by at most one.
  ghost predicate ChainOk(s: State) {
    && s.first <= s.last < |s.chain| <= s.last + 2
    && s.head == s.chain[s.first] && s.tail == s.chain[s.last]
    && (forall k {:trigger NodeOk(s, k)} | 0 <= k < |s.chain| :: NodeOk(s, k))
    && (forall n | n in s.at :: 0 <= s.at[n] < |s.chain| && s.chain[s.at[n]] == n)
    && s.next.Keys == s.data.Keys
  }

  // The values between head and the last linked node, oldest first.
  function Contents(s: State): seq<int>
    requires ChainOk(s)
  {
    seq(|s.chain| - 1 - s.first, i requires 0 <= i < |s.chain| - 1 - s.first =>
      assert NodeOk(s, s.first + 1 + i); s.data[s.chain[s.first + 1 + i]])
  }

  predicate HasNode(th: Thread) {
    th.Run? && (th.pc.EnqLoadTail? || th.pc.EnqLoadNext? || th.pc.EnqCheckTail? || th.pc.EnqLink? || th.pc.EnqHelp?)
  }

  // The node a thread has allocated and not yet linked.
  function Private(th: Thread): nat {
    if HasNode(th) then th.pc.node else NULL
  }

  ghost predicate Seen(s: State, n: nat, bound: int) {
    n in s.at && s.at[n] <= bound
  }

  ghost predicate Follows(s: State, n: nat, next: nat) {
    n in s.at && next in s.at && s.at[next] == s.at[n] + 1
  }

  ghost predicate PcOk(s: State, op: Op, pc: PC) {
    match pc
    case EnqAlloc(v) => op.lin.None? && op.call == Put(v)
    case EnqLoadTail(node) => op.lin.None? && op.call.Put?
    case EnqLoadNext(node, tail) => op.lin.None? && op.call.Put? && Seen(s, tail, s.last)
    case EnqCheckTail(node, tail, next) =>
      op.lin.None? && op.call.Put? && Seen(s, tail, s.last) && (next != NULL ==> Follows(s, tail, next))
    case EnqLink(node, tail) => op.lin.None? && op.call.Put? && Seen(s, tail, s.last)
    case EnqHelp(node, tail, next) => op.lin.None? && op.call.Put? && Follows(s, tail, next)
    case EnqSwing(node, tail) => op.lin.Some? && op.call.Put? && op.lin.value.ret.Done? && Follows(s, tail, node)
    case EnqCount => op.lin.Some? && op.call.Put? && op.lin.value.ret.Done?
    case DeqLoadHead => op.lin.None? && op.call.Take?
    case DeqLoadTail(head) => op.lin.None? && op.call.Take? && Seen(s, head, s.first)
    case DeqLoadNext(head, tail) =>
      op.lin.None? && op.call.Take? && Seen(s, head, s.first) && Seen(s, tail, s.last) && s.at[head] <= s.at[tail]
    case DeqCheckHead(head, tail, next) =>
      && op.call.Take? && Seen(s, head, s.first) && Seen(s, tail, s.last) && s.at[head] <= s.at[tail]
      && (if next != NULL then Follows(s, head, next) && op.lin.None?
          else head == tail && op.lin.Some? && op.lin.value.ret.Empty?)
    case DeqHelp(tail, next) => op.lin.None? && op.call.Take? && Follows(s, tail, next)
    case DeqLoadData(head, next) =>
      op.lin.None? && op.call.Take? && Follows(s, head, next) && Seen(s, next, s.last)
    case DeqUnlink(head, next, data) =>
      && op.lin.None? && op.call.Take? && Follows(s, head, next) && Seen(s, next, s.last)
      && next in s.data && s.data[next] == data
    case DeqCount(data) => op.lin.Some? && op.call.Take? && op.lin.value.ret == Got(data)
    case Leave(ret) => op.lin.Some? && op.lin.value.ret == ret
  }

  ghost predicate ThreadOk(s: State, t: nat) {
    && t in s.threads
    && (s.threads[t].Run? ==>
          var th := s.threads[t];
          && th.op < |s.hist.ops| && s.hist.ops[th.op].res.None? && s.hist.ops[th.op].thread == t
          && PcOk(s, s.hist.ops[th.op], th.pc)
          && (HasNode(th) ==>
                && Private(th) != NULL && Private(th) !in s.at && Private(th) in s.next && s.next[Private(th)] == NULL
                && Private(th) in s.data && s.hist.ops[th.op].call == Put(s.data[Private(th)])))
  }

  ghost predicate Distinct(s: State, t: nat, u: nat) {
    t in s.threads && u in s.threads &&
    (t != u ==> (Private(s.threads[t]) != NULL ==> Private(s.threads[t]) != Private(s.threads[u])))
  }

  predicate InU(th: Thread) {
    th.Run? && (th.pc.EnqSwing? || th.pc.EnqCount?)
  }

  predicate InD(th: Thread) {
    th.Run? && th.pc.DeqCount?
  }

  function Uncounted(s: State): set<nat> {
    set t | t in s.threads && InU(s.threads[t])
  }

  function Undiscounted(s: State): set<nat> {
    set t | t in s.threads && InD(s.threads[t])
  }

  ghost predicate Inv(s: State) {
    && ChainOk(s)
    && Linearizable(Fifo, s.hist) && Replay(Fifo, s.hist.log) == Some(Contents(s))
    && (forall t {:trigger ThreadOk(s, t)} | t in s.threads :: ThreadOk(s, t))
    && (forall t, u {:trigger Distinct(s, t, u)} | t in s.threads && u in s.threads :: Distinct(s, t, u))
    && s.size == Wrap(|Contents(s)| - |Uncounted(s)| + |Undiscounted(s)|)
  }

  // ---- every step keeps the invariant

  // What a step of thread t may do to the part of the state that other threads rely on.
  ghost predicate Grows(s: State, s': State, t: nat) {
    && s.chain <= s'.chain && s.first <= s'.first && s.last <= s'.last
    && (forall n | n in s.at :: n in s'.at && s'.at[n] == s.at[n])
    && (forall n | n in s'.at && n !in s.at :: t in s.threads && n == Private(s.threads[t]))
    && (forall n | n in s.data :: n in s'.data && s'.data[n] == s.data[n])
    && (forall n | n in s.next :: n in s'.next && (n !in s.at ==> s'.next[n] == s.next[n]))
    && |s.hist.ops| <= |s'.hist.ops|
    && (forall i | 0 <= i < |s.hist.ops| && s.hist.ops[i].thread != t :: s'.hist.ops[i] == s.hist.ops[i])
  }

  lemma OthersKeep(s: State, s': State, t: nat, u: nat)
    requires Grows(s, s', t) && t != u && ThreadOk(s, u) && t in s.threads && Distinct(s, u, t)
    requires u in s'.threads && s'.threads[u] == s.threads[u]
    ensures ThreadOk(s', u)
  {
  }

  ghost predicate SizeOk(s: State)
    requires ChainOk(s)
  {
    s.size == Wrap(|Contents(s)| - |Uncounted(s)| + |Undiscounted(s)|)
  }

  lemma Assemble(s: State, s': State, t: nat)
    requires Inv(s) && t in s.threads && Grows(s, s', t)
    requires ChainOk(s') && Linearizable(Fifo, s'.hist) && Replay(Fifo, s'.hist.log) == Some(Contents(s')) && SizeOk(s')
    requires t in s'.threads && s'.threads == s.threads[t := s'.threads[t]] && ThreadOk(s', t)
    requires var p := Private(s'.threads[t]); p == NULL || p == Private(s.threads[t]) || p !in s.next
    ensures Inv(s')
  {
    forall u | u in s'.threads ensures ThreadOk(s', u) {
      if u != t {
        assert ThreadOk(s, u) && Distinct(s, u, t);
        OthersKeep(s, s', t, u);
      }
    }
    forall u, v | u in s'.threads && v in s'.threads ensures Distinct(s', u, v) {
      assert Distinct(s, u, v) && ThreadOk(s, u) && ThreadOk(s, v);
    }
  }

  lemma Counts(s: State, s': State, t: nat)
    requires t in s.threads && t in s'.threads && s'.threads == s.threads[t := s'.threads[t]]
    ensures |Uncounted(s')| == |Uncounted(s)| + Bit(InU(s'.threads[t])) - Bit(InU(s.threads[t]))
    ensures |Undiscounted(s')| == |Undiscounted(s)| + Bit(InD(s'.threads[t])) - Bit(InD(s.threads[t]))
  {
    CardDiffer(Uncounted(s), Uncounted(s'), t);
    CardDiffer(Undiscounted(s), Undiscounted(s'), t);
  }

  // The counter stays right if every change of the queue or of the counter shows in the thread's own position.
  lemma SizeKeeps(s: State, s': State, t: nat, d: int)
    requires ChainOk(s) && ChainOk(s') && SizeOk(s)
    requires (d == 0 ==> s'.size == s.size) && (d != 0 ==> s'.size == Wrap(s.size + d))
    requires t in s.threads && t in s'.threads && s'.threads == s.threads[t := s'.threads[t]]
    requires var th, th' := s.threads[t], s'.threads[t];
      |Contents(s')| == |Contents(s)| + d + Bit(InU(th')) - Bit(InU(th)) - Bit(InD(th')) + Bit(InD(th))
    ensures SizeOk(s')
  {
    Counts(s, s', t);
    WrapAdd(|Contents(s)| - |Uncounted(s)| + |Undiscounted(s)|, d);
  }

  // Steps that leave memory, chain and log alone.
  ghost predicate QuietStep(s: State, s': State, t: nat) {
    && s' == s.(threads := s'.threads, hist := s'.hist) && s'.hist.log == s.hist.log
    && t in s.threads && t in s'.threads && s'.threads == s.threads[t := s'.threads[t]]
    && |s.hist.ops| <= |s'.hist.ops|
    && (forall i | 0 <= i < |s.hist.ops| && s.hist.ops[i].thread != t :: s'.hist.ops[i] == s.hist.ops[i])
    && (Private(s'.threads[t]) == NULL || Private(s'.threads[t]) == Private(s.threads[t]))
    && InU(s'.threads[t]) == InU(s.threads[t]) && InD(s'.threads[t]) == InD(s.threads[t])
  }

  lemma SameChain(s: State, s': State)
    requires ChainOk(s) && s' == s.(threads := s'.threads, hist := s'.hist, size := s'.size)
    ensures ChainOk(s') && Contents(s') == Contents(s)
  {
    forall k | 0 <= k < |s'.chain| ensures NodeOk(s', k) { assert NodeOk(s, k); }
    assert Contents(s') == Contents(s);
  }

  lemma QuietKeeps(s: State, s': State, t: nat)
    requires Inv(s) && QuietStep(s, s', t) && Linearizable(Fifo, s'.hist) && ThreadOk(s', t)
    ensures Inv(s')
  {
    SameChain(s, s');
    SizeKeeps(s, s', t, 0);
    Assemble(s, s', t);
  }

  lemma IdleKeeps(s: State, t: nat, c: Choice)
    requires Inv(s) && Enabled(s, t, c) && s.threads[t].Idle?
    ensures Inv(Step(s, t, c))
  {
    InvokeKeeps(Fifo, s.hist, t, c.call);
    QuietKeeps(s, Step(s, t, c), t);
  }

  lemma LeaveKeeps(s: State, t: nat, c: Choice)
    requires Inv(s) && Enabled(s, t, c) && s.threads[t].Run? && s.threads[t].pc.Leave?
    ensures Inv(Step(s, t, c))
  {
    assert ThreadOk(s, t);
    ReturnKeeps(Fifo, s.hist, s.threads[t].op, s.threads[t].pc.ret);
    QuietKeeps(s, Step(s, t, c), t);
  }

  // A thread may move on to pc if what pc relies on already holds.
  lemma QuietTo(s: State, t: nat, id: nat, pc: PC)
    requires Inv(s) && t in s.threads && s.threads[t].Run? && s.threads[t].op == id && id < |s.hist.ops|
    requires PcOk(s, s.hist.ops[id], pc)
    requires HasNode(Run(id, pc)) ==> HasNode(s.threads[t]) && Private(Run(id, pc)) == Private(s.threads[t])
    requires InU(Run(id, pc)) == InU(s.threads[t]) && InD(Run(id, pc)) == InD(s.threads[t])
    ensures Inv(Quiet(s, t, id, pc))
  {
    var s' := Quiet(s, t, id, pc);
    assert ThreadOk(s, t);
    assert PcOk(s', s'.hist.ops[id], pc);
    TickKeeps(Fifo, s.hist);
    QuietKeeps(s, s', t);
  }

  // Reading the next pointer of a linked node yields its successor in the chain, or NULL for the last one.
  lemma NextOf(s: State, n: nat)
    requires ChainOk(s) && n in s.at
    ensures if s.Next(n) == NULL then s.at[n] == |s.chain| - 1 else Follows(s, n, s.Next(n))
  {
    var k := s.at[n];
    assert NodeOk(s, k) && (k + 1 < |s.chain| ==> NodeOk(s, k + 1));
  }

  // The loads and checks of the enqueue, lines 50 to 53.
  lemma EnqLoadsKeep(s: State, t: nat, c: Choice)
    requires Inv(s) && Enabled(s, t, c) && s.threads[t].Run?
    requires var pc := s.threads[t].pc; pc.EnqLoadTail? || pc.EnqLoadNext? || pc.EnqCheckTail?
    ensures Inv(Step(s, t, c))
  {
    assert ThreadOk(s, t) && NodeOk(s, s.last);
    var id := s.threads[t].op;
    match s.threads[t].pc
    case EnqLoadTail(node) => QuietTo(s, t, id, EnqLoadNext(node, s.tail));
    case EnqLoadNext(node, tail) => NextOf(s, tail); QuietTo(s, t, id, EnqCheckTail(node, tail, s.Next(tail)));
    case EnqCheckTail(node, tail, next) =>
      QuietTo(s, t, id, if tail != s.tail then EnqLoadTail(node)
                        else if next == NULL then EnqLink(node, tail) else EnqHelp(node, tail, next));
  }

  lemma DeqLoadsKeep(s: State, t: nat, c: Choice)
    requires Inv(s) && Enabled(s, t, c) && s.threads[t].Run?
    requires var pc := s.threads[t].pc; pc.DeqLoadHead? || pc.DeqLoadTail? || pc.DeqLoadData?
    ensures Inv(Step(s, t, c))
  {
    assert ThreadOk(s, t) && NodeOk(s, s.first) && NodeOk(s, s.last);
    var id := s.threads[t].op;
    match s.threads[t].pc
    case DeqLoadHead => QuietTo(s, t, id, DeqLoadTail(s.head));
    case DeqLoadTail(head) => QuietTo(s, t, id, DeqLoadNext(head, s.tail));
    case DeqLoadData(head, next) =>
      assert NodeOk(s, s.at[next]);
      QuietTo(s, t, id, DeqUnlink(head, next, s.Data(next)));
  }

  // Line 80 of the dequeue: if the head it read has no successor, the queue is empty at this very moment.
  lemma DeqLoadNextKeeps(s: State, t: nat, c: Choice)
    requires Inv(s) && Enabled(s, t, c) && s.threads[t].Run? && s.threads[t].pc.DeqLoadNext?
    ensures Inv(Step(s, t, c))
  {
    var id, pc := s.threads[t].op, s.threads[t].pc;
    assert ThreadOk(s, t);
    NextOf(s, pc.head);
    if pc.head == pc.tail && s.Next(pc.head) == NULL {
      assert Contents(s) == [];
      ObserveKeeps(Fifo, s.hist, id, Empty);
      QuietKeeps(s, Step(s, t, c), t);
    } else {
      assert s.at[pc.head] == s.at[pc.tail] ==> pc.head == pc.tail;
      QuietTo(s, t, id, DeqCheckHead(pc.head, pc.tail, s.Next(pc.head)));
    }
  }

  lemma DeqCheckHeadKeeps(s: State, t: nat, c: Choice)
    requires Inv(s) && Enabled(s, t, c) && s.threads[t].Run? && s.threads[t].pc.DeqCheckHead?
    ensures Inv(Step(s, t, c))
  {
    var id, pc := s.threads[t].op, s.threads[t].pc;
    assert ThreadOk(s, t);
    if pc.head != s.head {
      DeqRetracts(s, t, id, pc);
    } else {
      DeqGoesOn(s, t, id, pc);
    }
  }

  lemma DeqRetracts(s: State, t: nat, id: nat, pc: PC)
    requires Inv(s) && t in s.threads && s.threads[t] == Run(id, pc) && pc.DeqCheckHead?
    ensures Inv(s.(hist := s.hist.Retract(id)).Go(t, id, DeqLoadHead))
  {
    assert ThreadOk(s, t);
    RetractKeeps(Fifo, s.hist, id);
    QuietKeeps(s, s.(hist := s.hist.Retract(id)).Go(t, id, DeqLoadHead), t);
  }

  lemma DeqGoesOn(s: State, t: nat, id: nat, pc: PC)
    requires Inv(s) && t in s.threads && s.threads[t] == Run(id, pc) && pc.DeqCheckHead? && pc.head == s.head
    ensures Inv(Quiet(s, t, id, if pc.head != pc.tail then DeqLoadData(pc.head, pc.next)
                                else if pc.next == NULL then Leave(Empty) else DeqHelp(pc.tail, pc.next)))
  {
    assert ThreadOk(s, t);
    assert s.at[pc.head] == s.at[pc.tail] ==> pc.head == pc.tail;
    QuietTo(s, t, id, if pc.head != pc.tail then DeqLoadData(pc.head, pc.next)
                      else if pc.next == NULL then Leave(Empty) else DeqHelp(pc.tail, pc.next));
  }

  // A compare-and-swap that fails changes nothing.
  lemma MissKeeps(s: State, t: nat, c: Choice)
    requires Inv(s) && Enabled(s, t, c) && s.threads[t].Run?
    requires match s.threads[t].pc
      case EnqLink(_, tail) => s.Next(tail) != NULL || !c.lucky
      case EnqHelp(_, tail, _) => s.tail != tail || !c.lucky
      case EnqSwing(_, tail) => s.tail != tail
      case DeqHelp(tail, _) => s.tail != tail || !c.lucky
      case DeqUnlink(head, _, _) => s.head != head || !c.lucky
      case _ => false
    ensures Inv(Step(s, t, c))
  {
    var id, pc := s.threads[t].op, s.threads[t].pc;
    if pc.EnqLink? || pc.EnqHelp? {
      EnqMisses(s, t, id, pc);
    } else if pc.EnqSwing? {
      SwingMisses(s, t, id, pc);
    } else {
      DeqMisses(s, t, id, pc);
    }
  }

  lemma EnqMisses(s: State, t: nat, id: nat, pc: PC)
    requires Inv(s) && t in s.threads && s.threads[t] == Run(id, pc) && (pc.EnqLink? || pc.EnqHelp?)
    ensures Inv(Quiet(s, t, id, EnqLoadTail(pc.node)))
  {
    assert ThreadOk(s, t);
    QuietTo(s, t, id, EnqLoadTail(pc.node));
  }

  lemma SwingMisses(s: State, t: nat, id: nat, pc: PC)
    requires Inv(s) && t in s.threads && s.threads[t] == Run(id, pc) && pc.EnqSwing?
    ensures Inv(Quiet(s, t, id, EnqCount))
  {
    assert ThreadOk(s, t);
    QuietTo(s, t, id, EnqCount);
  }

  lemma DeqMisses(s: State, t: nat, id: nat, pc: PC)
    requires Inv(s) && t in s.threads && s.threads[t] == Run(id, pc) && (pc.DeqHelp? || pc.DeqUnlink?)
    ensures Inv(Quiet(s, t, id, DeqLoadHead))
  {
    assert ThreadOk(s, t);
    QuietTo(s, t, id, DeqLoadHead);
  }

  lemma AllocChain(s: State, s': State, n: nat, v: int)
    requires ChainOk(s) && n !in s.next
    requires s' == s.(next := s.next[n := NULL], data := s.data[n := v], hist := s'.hist, threads := s'.threads)
    ensures ChainOk(s') && Contents(s') == Contents(s) && n !in s.at
  {
    forall k | 0 <= k < |s.chain| ensures NodeOk(s', k) && s.chain[k] != n &&
      s.chain[k] in s.data { assert NodeOk(s, k); }
    SameContents(s, s');
  }

  lemma SameContents(s: State, s': State)
    requires ChainOk(s) && ChainOk(s') && s'.chain == s.chain && s'.first == s.first
    requires forall k | 0 <= k < |s.chain| ::
               s.chain[k] in s.data && s.chain[k] in s'.data && s'.data[s.chain[k]] == s.data[s.chain[k]]
    ensures Contents(s') == Contents(s)
  {
  }

  lemma AllocKeeps(s: State, t: nat, id: nat, n: nat, v: int)
    requires Inv(s) && t in s.threads && s.threads[t] == Run(id, EnqAlloc(v)) && n != NULL && n !in s.next
    ensures Inv(Alloc(s, t, id, n, v))
  {
    var s' := Alloc(s, t, id, n, v);
    assert ThreadOk(s, t);
    TickKeeps(Fifo, s.hist);
    AllocChain(s, s', n, v);
    SizeKeeps(s, s', t, 0);
    Assemble(s, s', t);
  }

  lemma NoMemoryKeeps(s: State, t: nat, c: Choice)
    requires Inv(s) && Enabled(s, t, c) && s.threads[t].Run? && s.threads[t].pc.EnqAlloc? && !c.lucky
    ensures Inv(Step(s, t, c))
  {
    assert ThreadOk(s, t);
    ObserveKeeps(Fifo, s.hist, s.threads[t].op, NoMemory);
    QuietKeeps(s, Step(s, t, c), t);
  }

  // Line 55 of the enqueue: the node is linked behind the last one, and the value is at the end of the queue.
  lemma LinkKeeps(s: State, t: nat, id: nat, node: nat, tail: nat)
    requires Inv(s) && t in s.threads && s.threads[t] == Run(id, EnqLink(node, tail)) && s.Next(tail) == NULL
    ensures Inv(Link(s, t, id, node, tail))
  {
    var s' := Link(s, t, id, node, tail);
    assert ThreadOk(s, t);
    LinkLogs(s, t, id, node, tail);
    LinkGrows(s, t, id, node, tail);
    SizeKeeps(s, s', t, 0);
    Assemble(s, s', t);
  }

  lemma LinkLogs(s: State, t: nat, id: nat, node: nat, tail: nat)
    requires Inv(s) && ThreadOk(s, t) && s.threads[t] == Run(id, EnqLink(node, tail)) && s.Next(tail) == NULL
    ensures var s' := Link(s, t, id, node, tail);
      && ChainOk(s') && |Contents(s')| == |Contents(s)| + 1
      && Linearizable(Fifo, s'.hist) && Replay(Fifo, s'.hist.log) == Some(Contents(s'))
  {
    LinkChain(s, Link(s, t, id, node, tail), node, tail);
    EffectKeeps(Fifo, s.hist, id, Done);
  }

  lemma LinkGrows(s: State, t: nat, id: nat, node: nat, tail: nat)
    requires ChainOk(s) && ThreadOk(s, t) && s.threads[t] == Run(id, EnqLink(node, tail)) && s.Next(tail) == NULL
    ensures var s' := Link(s, t, id, node, tail); Grows(s, s', t) && ThreadOk(s', t)
  {
    var k := s.at[tail];
    assert NodeOk(s, k) && (k + 1 < |s.chain| ==> NodeOk(s, k + 1));
  }

  lemma LinkChain(s: State, s': State, node: nat, tail: nat)
    requires ChainOk(s) && Seen(s, tail, s.last) && s.Next(tail) == NULL && node !in s.at && node != NULL &&
             node in s.next
    requires s.next[node] == NULL
    requires s' == s.(next := s.next[tail := node], chain := s.chain + [node], at := s.at[node := |s.chain|],
                      hist := s'.hist, threads := s'.threads)
    ensures ChainOk(s') && Contents(s') == Contents(s) + [s.data[node]]
    ensures s.at[tail] == |s.chain| - 1 && tail == s.tail
  {
    var k := s.at[tail];
    assert NodeOk(s, k) && (k + 1 < |s.chain| ==> NodeOk(s, k + 1));
    forall j | 0 <= j < |s'.chain| ensures NodeOk(s', j) {
      if j < |s.chain| { assert NodeOk(s, j); }
    }
    assert Contents(s') == Contents(s) + [s.data[node]];
  }

  lemma MoveChain(s: State, s': State)
    requires ChainOk(s) && s' == s.(head := s'.head, first := s'.first, tail := s'.tail, last := s'.last,
             hist := s'.hist, threads := s'.threads)
    requires s.first <= s'.first <= s'.last < |s.chain| && s.last <= s'.last
    requires s'.head == s.chain[s'.first] && s'.tail == s.chain[s'.last]
    ensures ChainOk(s') && Contents(s') == Contents(s)[s'.first - s.first..]
  {
    forall k | 0 <= k < |s'.chain| ensures NodeOk(s', k) { assert NodeOk(s, k); }
    assert Contents(s') == Contents(s)[s'.first - s.first..];
  }

  // The tail moves on to the next linked node.
  lemma SwingGrows(s: State, t: nat, id: nat, next: nat, pc: PC)
    requires ChainOk(s) && ThreadOk(s, t) && s.threads[t].Run? && s.threads[t].op == id
    requires match s.threads[t].pc
      case EnqHelp(node, tail, n) => tail == s.tail && next == n && pc == EnqLoadTail(node)
      case EnqSwing(node, tail) => tail == s.tail && next == node && pc == EnqCount
      case DeqHelp(tail, n) => tail == s.tail && next == n && pc == DeqLoadHead
      case _ => false
    ensures var s' := Swing(s, t, id, next, pc); Grows(s, s', t) && ThreadOk(s', t) && Follows(s, s.tail, next)
  {
  }

  lemma SwingChain(s: State, t: nat, id: nat, next: nat, pc: PC)
    requires ChainOk(s) && Follows(s, s.tail, next)
    ensures var s' := Swing(s, t, id, next, pc); ChainOk(s') && Contents(s') == Contents(s)
  {
    assert NodeOk(s, s.last);
    MoveChain(s, Swing(s, t, id, next, pc));
    assert Contents(s)[0..] == Contents(s);
  }

  lemma SwingKeeps(s: State, t: nat, id: nat, next: nat, pc: PC)
    requires Inv(s) && t in s.threads && s.threads[t].Run? && s.threads[t].op == id
    requires match s.threads[t].pc
      case EnqHelp(node, tail, n) => tail == s.tail && next == n && pc == EnqLoadTail(node)
      case EnqSwing(node, tail) => tail == s.tail && next == node && pc == EnqCount
      case DeqHelp(tail, n) => tail == s.tail && next == n && pc == DeqLoadHead
      case _ => false
    ensures Inv(Swing(s, t, id, next, pc))
  {
    var s' := Swing(s, t, id, next, pc);
    assert ThreadOk(s, t);
    SwingGrows(s, t, id, next, pc);
    SwingChain(s, t, id, next, pc);
    TickKeeps(Fifo, s.hist);
    SizeKeeps(s, s', t, 0);
    Assemble(s, s', t);
  }

  // Line 93 of the dequeue: the head moves on, and the oldest value leaves the queue.
  lemma UnlinkGrows(s: State, t: nat, id: nat, next: nat, data: int)
    requires ThreadOk(s, t) && s.threads[t] == Run(id, DeqUnlink(s.head, next, data))
    ensures var s' := Unlink(s, t, id, next, data); Grows(s, s', t) && ThreadOk(s', t)
  {
  }

  lemma UnlinkChain(s: State, t: nat, id: nat, next: nat, data: int)
    requires ChainOk(s) && ThreadOk(s, t) && s.threads[t] == Run(id, DeqUnlink(s.head, next, data))
    ensures var s' := Unlink(s, t, id, next, data);
      ChainOk(s') && Contents(s) != [] && Contents(s)[0] == data && Contents(s') == Contents(s)[1..]
  {
    assert NodeOk(s, s.first);
    MoveChain(s, Unlink(s, t, id, next, data));
  }

  lemma UnlinkKeeps(s: State, t: nat, id: nat, next: nat, data: int)
    requires Inv(s) && t in s.threads && s.threads[t] == Run(id, DeqUnlink(s.head, next, data))
    ensures Inv(Unlink(s, t, id, next, data))
  {
    var s' := Unlink(s, t, id, next, data);
    assert ThreadOk(s, t);
    UnlinkGrows(s, t, id, next, data);
    UnlinkChain(s, t, id, next, data);
    EffectKeeps(Fifo, s.hist, id, Got(data));
    SizeKeeps(s, s', t, 0);
    Assemble(s, s', t);
  }

  lemma CountKeeps(s: State, t: nat, id: nat, d: int, ret: Ret)
    requires Inv(s) && t in s.threads && s.threads[t].Run? && s.threads[t].op == id
    requires match s.threads[t].pc
      case EnqCount => d == 1 && ret == Done
      case DeqCount(data) => d == -1 && ret == Got(data)
      case _ => false
    ensures Inv(Count(s, t, id, d, ret))
  {
    var s' := Count(s, t, id, d, ret);
    assert ThreadOk(s, t);
    TickKeeps(Fifo, s.hist);
    SameChain(s, s');
    SizeKeeps(s, s', t, d);
    Assemble(s, s', t);
  }

  lemma StepKeepsInv(s: State, t: nat, c: Choice)
    requires Inv(s) && Enabled(s, t, c)
    ensures Inv(Step(s, t, c))
  {
    match s.threads[t]
    case Idle => IdleKeeps(s, t, c);
    case Run(id, pc) =>
      match pc
      case EnqAlloc(v) => if c.lucky { AllocKeeps(s, t, id, c.node, v); } else { NoMemoryKeeps(s, t, c); }
      case EnqLoadTail(_) => EnqLoadsKeep(s, t, c);
      case EnqLoadNext(_, _) => EnqLoadsKeep(s, t, c);
      case EnqCheckTail(_, _, _) => EnqLoadsKeep(s, t, c);
      case EnqLink(node, tail) =>
        if s.Next(tail) == NULL && c.lucky { LinkKeeps(s, t, id, node, tail); } else { MissKeeps(s, t, c); }
      case EnqHelp(node, tail, next) =>
        if s.tail == tail && c.lucky { SwingKeeps(s, t, id, next, EnqLoadTail(node)); } else { MissKeeps(s, t, c); }
      case EnqSwing(node, tail) =>
        if s.tail == tail { SwingKeeps(s, t, id, node, EnqCount); } else { MissKeeps(s, t, c); }
      case EnqCount => CountKeeps(s, t, id, 1, Done);
      case DeqLoadHead => DeqLoadsKeep(s, t, c);
      case DeqLoadTail(_) => DeqLoadsKeep(s, t, c);
      case DeqLoadNext(_, _) => DeqLoadNextKeeps(s, t, c);
      case DeqCheckHead(_, _, _) => DeqCheckHeadKeeps(s, t, c);
      case DeqHelp(tail, next) =>
        if s.tail == tail && c.lucky { SwingKeeps(s, t, id, next, DeqLoadHead); } else { MissKeeps(s, t, c); }
      case DeqLoadData(_, _) => DeqLoadsKeep(s, t, c);
      case DeqUnlink(head, next, data) =>
        if s.head == head && c.lucky { UnlinkKeeps(s, t, id, next, data); } else { MissKeeps(s, t, c); }
      case DeqCount(data) => CountKeeps(s, t, id, -1, Got(data));
      case Leave(_) => LeaveKeeps(s, t, c);
  }

  // ---- whole runs: any number of threads, any interleaving
  function After(s: State, w: seq<(nat, Choice)>): State {
    if w == [] then s
    else
      var before := After(s, w[..|w| - 1]);
      var (t, c) := w[|w| - 1];
      if Enabled(before, t, c) then Step(before, t, c) else before
  }

  lemma InitInv(dummy: nat, ids: set<nat>)
    requires dummy != NULL
    ensures Inv(Init(dummy, ids))
  {
    var s := Init(dummy, ids);
    forall k | 0 <= k < |s.chain| ensures NodeOk(s, k) {}
    forall t | t in s.threads ensures ThreadOk(s, t) {}
    forall t, u | t in s.threads && u in s.threads ensures Distinct(s, t, u) {}
    assert Uncounted(s) == {} && Undiscounted(s) == {};
    assert Contents(s) == [];
  }

  lemma {:induction false} RunInv(s: State, w: seq<(nat, Choice)>)
    requires Inv(s)
    ensures Inv(After(s, w))
  {
    if w != [] {
      var k := |w| - 1;
      RunInv(s, w[..k]);
      var before := After(s, w[..k]);
      if Enabled(before, w[k].0, w[k].1) {
        StepKeepsInv(before, w[k].0, w[k].1);
      }
    }
  }

  // The history is linearizable and its log leads to the values now in the list; head never passes tail and tail lags
  // the last linked node by at most one; the dequeue never follows a NULL next pointer; the size counter is off by
  // exactly the operations that have linked or unlinked a node and still have to count it.
  ghost predicate Correct(s: State) {
    && Linearizable(Fifo, s.hist)
    && ChainOk(s) && Replay(Fifo, s.hist.log) == Some(Contents(s))
    && s.first <= s.last <= |s.chain| - 1 <= s.last + 1
    && (forall t | t in s.threads && s.threads[t].Run? && s.threads[t].pc.DeqLoadData? ::
          s.threads[t].pc.next != NULL && s.threads[t].pc.next in s.data)
    && s.size == Wrap(|Contents(s)| - |Uncounted(s)| + |Undiscounted(s)|)
  }

  lemma InvCorrect(s: State)
    requires Inv(s)
    ensures Correct(s)
  {
    forall t | t in s.threads && s.threads[t].Run? && s.threads[t].pc.DeqLoadData?
      ensures s.threads[t].pc.next != NULL && s.threads[t].pc.next in s.data
    {
      assert ThreadOk(s, t) && NodeOk(s, s.at[s.threads[t].pc.next]);
    }
  }

  lemma EveryRunIsCorrect(dummy: nat, ids: set<nat>, w: seq<(nat, Choice)>)
    requires dummy != NULL
    ensures Correct(After(Init(dummy, ids), w))
  {
    InitInv(dummy, ids);
    RunInv(Init(dummy, ids), w);
    InvCorrect(After(Init(dummy, ids), w));
  }
}
