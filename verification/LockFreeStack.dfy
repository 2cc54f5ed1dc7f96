/**
 The lock-free stack of mini_rtos/src/lockless.c as a transition system: one step is one atomic access of one thread.

 Memory is sequentially consistent, nodes are never reused, a weak compare-and-swap may fail for no reason. Hazard
 records are thread-local in the source and only ever written, so protecting a pointer is modelled by its two loads.
 */
module LockFreeStack {
  import opened Machine
  import opened Linearizability
  import opened Options

  const NULL: nat := 0

  datatype PC =
    | PushAlloc(v: int)
    | PushLoadTop(node: nat)
    | PushStoreNext(node: nat, top: nat)
    | PushSwap(node: nat)
    | PushCount
    | PopLoadTop
    | PopProtect(top: nat)
    | PopRecheck(top: nat, hazard: nat)
    | PopCheck(top: nat)
    | PopLoadNext(top: nat)
    | PopSwap(top: nat, next: nat)
    | PopLoadData(top: nat)
    | PopCount(data: int)
    | Leave(ret: Ret)

  datatype Thread = Idle | Run(op: nat, pc: PC)

  // chain and linked are auxiliary: the nodes on the stack from the top down, and every node ever pushed.
  datatype State = State(
    top: nat, size: uint32, next: map<nat, nat>, data: map<nat, int>, threads: map<nat, Thread>,
    hist: History, chain: seq<nat>, linked: set<nat>)
  {
    function Go(t: nat, op: nat, pc: PC): State {
      this.(threads := threads[t := Run(op, pc)])
    }

    function Next(n: nat): nat {
      if n in next then next[n] else NULL
    }

    function Data(n: nat): int {
      if n in data then data[n] else 0
    }
  }

  function Init(ids: set<nat>): State {
    State(NULL, 0, map[], map[], map t | t in ids :: Idle, History(0, [], []), [], {})
  }

  datatype Choice = Choice(call: Call, node: nat, lucky: bool)

  predicate Enabled(s: State, t: nat, c: Choice) {
    t in s.threads && c.node != NULL && c.node !in s.next
  }

  function Quiet(s: State, t: nat, id: nat, pc: PC): State {
    s.(hist := s.hist.Tick()).Go(t, id, pc)
  }

  // A store to the next pointer of a node that only this thread knows.
  function Store(s: State, t: nat, id: nat, node: nat, top: nat, pc: PC): State {
    s.(next := s.next[node := top], hist := s.hist.Tick()).Go(t, id, pc)
  }

  function Push(s: State, t: nat, id: nat, node: nat): State {
    s.(top := node, chain := [node] + s.chain, linked := s.linked + {node}, hist := s.hist.Effect(id, Done))
     .Go(t, id, PushCount)
  }

  function Pop(s: State, t: nat, id: nat, top: nat, next: nat): State {
    s.(top := next, chain := if s.chain == [] then [] else s.chain[1..], hist := s.hist.Effect(id, Got(s.Data(top))))
     .Go(t, id, PopLoadData(top))
  }

  function Count(s: State, t: nat, id: nat, d: int, ret: Ret): State {
    s.(size := Wrap(s.size + d), hist := s.hist.Tick()).Go(t, id, Leave(ret))
  }

  function Step(s: State, t: nat, c: Choice): State
    requires Enabled(s, t, c)
  {
    match s.threads[t]
    case Idle =>
      s.(threads := s.threads[t := Run(|s.hist.ops|, if c.call.Put? then PushAlloc(c.call.v) else PopLoadTop)],
         hist := s.hist.Invoke(t, c.call))
    case Run(id, pc) =>
      match pc
      case PushAlloc(v) =>
        if c.lucky then
          s.(next := s.next[c.node := NULL], data := s.data[c.node := v], hist := s.hist.Tick()).Go(t, id,
            PushLoadTop(c.node))
        else s.(hist := s.hist.Observe(id, NoMemory)).Go(t, id, Leave(NoMemory))
      case PushLoadTop(node) => Quiet(s, t, id, PushStoreNext(node, s.top))
      case PushStoreNext(node, top) => Store(s, t, id, node, top, PushSwap(node))
      case PushSwap(node) =>
        if s.top == s.Next(node) && c.lucky then Push(s, t, id, node)
        else Store(s, t, id, node, s.top, PushLoadTop(node))
      case PushCount => Count(s, t, id, 1, Done)
      case PopLoadTop =>
        if s.top == NULL then s.(hist := s.hist.Observe(id, Empty)).Go(t, id, Leave(Empty))
        else Quiet(s, t, id, PopProtect(s.top))
      case PopProtect(top) => Quiet(s, t, id, PopRecheck(top, s.top))
      case PopRecheck(top, hazard) => Quiet(s, t, id, if hazard == s.top then PopCheck(top) else PopProtect(top))
      case PopCheck(top) => Quiet(s, t, id, if top == s.top then PopLoadNext(top) else PopLoadTop)
      case PopLoadNext(top) => Quiet(s, t, id, PopSwap(top, s.Next(top)))
      case PopSwap(top, next) =>
        if s.top == top && c.lucky then Pop(s, t, id, top, next) else Quiet(s, t, id, PopLoadTop)
      case PopLoadData(top) => Quiet(s, t, id, PopCount(s.Data(top)))
      case PopCount(data) => Count(s, t, id, -1, Got(data))
      case Leave(ret) => s.(threads := s.threads[t := Idle], hist := s.hist.Return(id, ret))
  }

  // ---- the invariant
  ghost predicate NodeOk(s: State, k: int) {
    && 0 <= k < |s.chain|
    && s.chain[k] in s.linked
    && s.Next(s.chain[k]) == if k + 1 < |s.chain| then s.chain[k + 1] else NULL
  }

  ghost predicate ChainOk(s: State) {
    && s.top == (if s.chain == [] then NULL else s.chain[0])
    && (forall k {:trigger NodeOk(s, k)} | 0 <= k < |s.chain| :: NodeOk(s, k))
    && (forall n | n in s.linked :: n != NULL && n in s.next)
    && s.next.Keys == s.data.Keys
  }

  // The values on the stack, top first.
  function Contents(s: State): seq<int> {
    seq(|s.chain|, k requires 0 <= k < |s.chain| => s.Data(s.chain[k]))
  }

  predicate HasNode(th: Thread) {
    th.Run? && (th.pc.PushLoadTop? || th.pc.PushStoreNext? || th.pc.PushSwap?)
  }

  function Private(th: Thread): nat {
    if HasNode(th) then th.pc.node else NULL
  }

  ghost predicate PcOk(s: State, op: Op, pc: PC) {
    match pc
    case PushAlloc(v) => op.lin.None? && op.call == Put(v)
    case PushLoadTop(_) => op.lin.None? && op.call.Put?
    case PushStoreNext(_, _) => op.lin.None? && op.call.Put?
    case PushSwap(_) => op.lin.None? && op.call.Put?
    case PushCount => op.lin.Some? && op.lin.value.ret == Done && op.call.Put?
    case PopLoadTop => op.lin.None? && op.call.Take?
    case PopProtect(top) => op.lin.None? && op.call.Take? && top in s.linked
    case PopRecheck(top, _) => op.lin.None? && op.call.Take? && top in s.linked
    case PopCheck(top) => op.lin.None? && op.call.Take? && top in s.linked
    case PopLoadNext(top) => op.lin.None? && op.call.Take? && top in s.linked
    case PopSwap(top, next) => op.lin.None? && op.call.Take? && top in s.linked && next == s.Next(top)
    case PopLoadData(top) => op.lin.Some? && top in s.linked && op.lin.value.ret == Got(s.Data(top)) && op.call.Take?
    case PopCount(data) => op.lin.Some? && op.lin.value.ret == Got(data) && op.call.Take?
    case Leave(ret) => op.lin.Some? && op.lin.value.ret == ret
  }

  ghost predicate ThreadOk(s: State, t: nat) {
    && t in s.threads
    && (s.threads[t].Run? ==>
          var th := s.threads[t];
          && th.op < |s.hist.ops| && s.hist.ops[th.op].res.None? && s.hist.ops[th.op].thread == t
          && PcOk(s, s.hist.ops[th.op], th.pc)
          && (HasNode(th) ==>
                && Private(th) != NULL && Private(th) !in s.linked && Private(th) in s.next
                && s.hist.ops[th.op].call == Put(s.Data(Private(th)))))
  }

  ghost predicate Distinct(s: State, t: nat, u: nat) {
    t in s.threads && u in s.threads &&
    (t != u ==> (Private(s.threads[t]) != NULL ==> Private(s.threads[t]) != Private(s.threads[u])))
  }

  predicate InU(th: Thread) {
    th.Run? && th.pc.PushCount?
  }

  predicate InD(th: Thread) {
    th.Run? && (th.pc.PopLoadData? || th.pc.PopCount?)
  }

  function Uncounted(s: State): set<nat> {
    set t | t in s.threads && InU(s.threads[t])
  }

  function Undiscounted(s: State): set<nat> {
    set t | t in s.threads && InD(s.threads[t])
  }

  ghost predicate SizeOk(s: State) {
    s.size == Wrap(|Contents(s)| - |Uncounted(s)| + |Undiscounted(s)|)
  }

  ghost predicate Inv(s: State) {
    && ChainOk(s)
    && Linearizable(Lifo, s.hist) && Replay(Lifo, s.hist.log) == Some(Contents(s))
    && (forall t {:trigger ThreadOk(s, t)} | t in s.threads :: ThreadOk(s, t))
    && (forall t, u {:trigger Distinct(s, t, u)} | t in s.threads && u in s.threads :: Distinct(s, t, u))
    && SizeOk(s)
  }

  // ---- every step keeps the invariant
  ghost predicate Grows(s: State, s': State, t: nat) {
    && s.linked <= s'.linked
    && (forall n | n in s'.linked && n !in s.linked :: t in s.threads && n == Private(s.threads[t]))
    && (forall n | n in s.data :: n in s'.data && s'.data[n] == s.data[n])
    && (forall n | n in s.next :: n in s'.next)
    && (forall n | n in s.linked :: n in s.next && n in s.data && s'.Next(n) == s.Next(n))
    && |s.hist.ops| <= |s'.hist.ops|
    && (forall i | 0 <= i < |s.hist.ops| && s.hist.ops[i].thread != t :: s'.hist.ops[i] == s.hist.ops[i])
  }

  lemma OthersKeep(s: State, s': State, t: nat, u: nat)
    requires Grows(s, s', t) && t != u && ThreadOk(s, u) && t in s.threads && Distinct(s, u, t) &&
             s.next.Keys == s.data.Keys
    requires u in s'.threads && s'.threads[u] == s.threads[u]
    ensures ThreadOk(s', u)
  {
  }

  lemma Assemble(s: State, s': State, t: nat)
    requires Inv(s) && t in s.threads && Grows(s, s', t)
    requires ChainOk(s') && Linearizable(Lifo, s'.hist) && Replay(Lifo, s'.hist.log) == Some(Contents(s')) && SizeOk(s')
    requires t in s'.threads && s'.threads == s.threads[t := s'.threads[t]] && ThreadOk(s', t)
    requires var p := Private(s'.threads[t]); p == NULL || p == Private(s.threads[t]) || p !in s.next
    ensures Inv(s')
  {
    forall u | u in s'.threads ensures ThreadOk(s', u) {
      if u != t {
        assert ThreadOk(s, u) && Distinct(s, u, t);
        OthersKeep(s, s', t, u);
      }
    }
    forall u, v | u in s'.threads && v in s'.threads ensures Distinct(s', u, v) {
      assert Distinct(s, u, v) && ThreadOk(s, u) && ThreadOk(s, v);
    }
  }

  lemma SizeKeeps(s: State, s': State, t: nat, d: int)
    requires SizeOk(s)
    requires (d == 0 ==> s'.size == s.size) && (d != 0 ==> s'.size == Wrap(s.size + d))
    requires t in s.threads && t in s'.threads && s'.threads == s.threads[t := s'.threads[t]]
    requires var th, th' := s.threads[t], s'.threads[t];
      |Contents(s')| == |Contents(s)| + d + Bit(InU(th')) - Bit(InU(th)) - Bit(InD(th')) + Bit(InD(th))
    ensures SizeOk(s')
  {
    CardDiffer(Uncounted(s), Uncounted(s'), t);
    CardDiffer(Undiscounted(s), Undiscounted(s'), t);
    WrapAdd(|Contents(s)| - |Uncounted(s)| + |Undiscounted(s)|, d);
  }

  // Steps that leave the stack alone: only nodes that were never pushed may change.
  ghost predicate SameStack(s: State, s': State) {
    && s'.top == s.top && s'.chain == s.chain && s'.linked == s.linked && s'.next.Keys == s'.data.Keys
    && (forall n | n in s.linked :: n in s'.next && s'.Next(n) == s.Next(n) && s'.Data(n) == s.Data(n))
  }

  lemma SameStackKeeps(s: State, s': State)
    requires ChainOk(s) && SameStack(s, s')
    ensures ChainOk(s') && Contents(s') == Contents(s)
  {
    forall k | 0 <= k < |s'.chain| ensures NodeOk(s', k) { assert NodeOk(s, k); }
    forall k | 0 <= k < |s.chain| ensures Contents(s')[k] == Contents(s)[k] { assert NodeOk(s, k); }
  }

  lemma QuietKeeps(s: State, s': State, t: nat)
    requires Inv(s) && s' == s.(threads := s'.threads, hist := s'.hist) && s'.hist.log == s.hist.log
    requires t in s.threads && t in s'.threads && s'.threads == s.threads[t := s'.threads[t]]
    requires |s.hist.ops| <= |s'.hist.ops|
    requires forall i | 0 <= i < |s.hist.ops| && s.hist.ops[i].thread != t :: s'.hist.ops[i] == s.hist.ops[i]
    requires Private(s'.threads[t]) == NULL || Private(s'.threads[t]) == Private(s.threads[t])
    requires InU(s'.threads[t]) == InU(s.threads[t]) && InD(s'.threads[t]) == InD(s.threads[t])
    requires Linearizable(Lifo, s'.hist) && ThreadOk(s', t)
    ensures Inv(s')
  {
    SameStackKeeps(s, s');
    SizeKeeps(s, s', t, 0);
    Assemble(s, s', t);
  }

  lemma QuietTo(s: State, t: nat, id: nat, pc: PC)
    requires Inv(s) && t in s.threads && s.threads[t].Run? && s.threads[t].op == id && id < |s.hist.ops|
    requires PcOk(s, s.hist.ops[id], pc)
    requires HasNode(Run(id, pc)) ==> HasNode(s.threads[t]) && Private(Run(id, pc)) == Private(s.threads[t])
    requires InU(Run(id, pc)) == InU(s.threads[t]) && InD(Run(id, pc)) == InD(s.threads[t])
    ensures Inv(Quiet(s, t, id, pc))
  {
    var s' := Quiet(s, t, id, pc);
    assert ThreadOk(s, t);
    assert PcOk(s', s'.hist.ops[id], pc);
    TickKeeps(Lifo, s.hist);
    QuietKeeps(s, s', t);
  }

  lemma BoundsKeep(s: State, t: nat, c: Choice)
    requires Inv(s) && Enabled(s, t, c) && (s.threads[t].Idle? || s.threads[t].pc.Leave?)
    ensures Inv(Step(s, t, c))
  {
    assert ThreadOk(s, t);
    if s.threads[t].Idle? {
      InvokeKeeps(Lifo, s.hist, t, c.call);
    } else {
      ReturnKeeps(Lifo, s.hist, s.threads[t].op, s.threads[t].pc.ret);
    }
    QuietKeeps(s, Step(s, t, c), t);
  }

  lemma AllocKeeps(s: State, t: nat, c: Choice)
    requires Inv(s) && Enabled(s, t, c) && s.threads[t].Run? && s.threads[t].pc.PushAlloc?
    ensures Inv(Step(s, t, c))
  {
    var s' := Step(s, t, c);
    assert ThreadOk(s, t);
    if c.lucky {
      TickKeeps(Lifo, s.hist);
      SameStackKeeps(s, s');
      SizeKeeps(s, s', t, 0);
      Assemble(s, s', t);
    } else {
      ObserveKeeps(Lifo, s.hist, s.threads[t].op, NoMemory);
      QuietKeeps(s, s', t);
    }
  }

  lemma StoreKeeps(s: State, t: nat, id: nat, node: nat, top: nat, pc: PC)
    requires Inv(s) && t in s.threads && HasNode(s.threads[t]) && s.threads[t].op == id && s.threads[t].pc.node == node
    requires pc == PushSwap(node) || pc == PushLoadTop(node)
    ensures Inv(Store(s, t, id, node, top, pc))
  {
    var s' := Store(s, t, id, node, top, pc);
    assert ThreadOk(s, t);
    TickKeeps(Lifo, s.hist);
    SameStackKeeps(s, s');
    SizeKeeps(s, s', t, 0);
    Assemble(s, s', t);
  }

  // Lines 127-130 of the push: the node becomes the new top.
  lemma PushKeeps(s: State, t: nat, id: nat, node: nat)
    requires Inv(s) && t in s.threads && s.threads[t] == Run(id, PushSwap(node)) && s.top == s.Next(node)
    ensures Inv(Push(s, t, id, node))
  {
    var s' := Push(s, t, id, node);
    assert ThreadOk(s, t);
    forall k | 0 <= k < |s'.chain| ensures NodeOk(s', k) {
      if k > 0 { assert NodeOk(s, k - 1); }
    }
    assert Contents(s') == [s.Data(node)] + Contents(s);
    EffectKeeps(Lifo, s.hist, id, Done);
    SizeKeeps(s, s', t, 0);
    Assemble(s, s', t);
  }

  lemma PopChain(s: State, s': State, next: nat)
    requires ChainOk(s) && s.chain != [] && next == s.Next(s.top)
    requires s' == s.(top := next, chain := s.chain[1..], hist := s'.hist, threads := s'.threads)
    ensures ChainOk(s') && Contents(s') == Contents(s)[1..] && Contents(s)[0] == s.Data(s.top)
  {
    assert NodeOk(s, 0);
    forall k | 0 <= k < |s'.chain| ensures NodeOk(s', k) { assert NodeOk(s, k + 1); }
  }

  // Lines 147-150 of the pop: the top node leaves the stack.
  lemma PopKeeps(s: State, t: nat, id: nat, next: nat)
    requires Inv(s) && t in s.threads && s.threads[t] == Run(id, PopSwap(s.top, next))
    ensures Inv(Pop(s, t, id, s.top, next))
  {
    var s' := Pop(s, t, id, s.top, next);
    assert ThreadOk(s, t) && s.chain != [] && NodeOk(s, 0);
    PopChain(s, s', next);
    EffectKeeps(Lifo, s.hist, id, Got(s.Data(s.top)));
    SizeKeeps(s, s', t, 0);
    Assemble(s, s', t);
  }

  lemma CountKeeps(s: State, t: nat, id: nat, d: int, ret: Ret)
    requires Inv(s) && t in s.threads && s.threads[t].Run? && s.threads[t].op == id
    requires match s.threads[t].pc
      case PushCount => d == 1 && ret == Done
      case PopCount(data) => d == -1 && ret == Got(data)
      case _ => false
    ensures Inv(Count(s, t, id, d, ret))
  {
    var s' := Count(s, t, id, d, ret);
    assert ThreadOk(s, t);
    TickKeeps(Lifo, s.hist);
    SameStackKeeps(s, s');
    SizeKeeps(s, s', t, d);
    Assemble(s, s', t);
  }

  // Line 141 of the pop: a NULL top means the stack is empty at this very moment.
  lemma PopLoadTopKeeps(s: State, t: nat, c: Choice)
    requires Inv(s) && Enabled(s, t, c) && s.threads[t].Run? && s.threads[t].pc.PopLoadTop?
    ensures Inv(Step(s, t, c))
  {
    assert ThreadOk(s, t);
    if s.chain != [] { assert NodeOk(s, 0); }
    if s.top == NULL {
      assert Contents(s) == [];
      ObserveKeeps(Lifo, s.hist, s.threads[t].op, Empty);
      QuietKeeps(s, Step(s, t, c), t);
    } else {
      QuietTo(s, t, s.threads[t].op, PopProtect(s.top));
    }
  }

  lemma StepKeepsInv(s: State, t: nat, c: Choice)
    requires Inv(s) && Enabled(s, t, c)
    ensures Inv(Step(s, t, c))
  {
    assert ThreadOk(s, t);
    match s.threads[t]
    case Idle => BoundsKeep(s, t, c);
    case Run(id, pc) =>
      match pc
      case PushAlloc(_) => AllocKeeps(s, t, c);
      case PushLoadTop(node) => QuietTo(s, t, id, PushStoreNext(node, s.top));
      case PushStoreNext(node, top) => StoreKeeps(s, t, id, node, top, PushSwap(node));
      case PushSwap(node) =>
        if s.top == s.Next(node) && c.lucky { PushKeeps(s, t, id, node); }
        else { StoreKeeps(s, t, id, node, s.top, PushLoadTop(node)); }
      case PushCount => CountKeeps(s, t, id, 1, Done);
      case PopLoadTop => PopLoadTopKeeps(s, t, c);
      case PopProtect(top) => QuietTo(s, t, id, PopRecheck(top, s.top));
      case PopRecheck(top, hazard) => QuietTo(s, t, id, if hazard == s.top then PopCheck(top) else PopProtect(top));
      case PopCheck(top) => QuietTo(s, t, id, if top == s.top then PopLoadNext(top) else PopLoadTop);
      case PopLoadNext(top) => QuietTo(s, t, id, PopSwap(top, s.Next(top)));
      case PopSwap(top, next) =>
        if s.top == top && c.lucky { PopKeeps(s, t, id, next); } else { QuietTo(s, t, id, PopLoadTop); }
      case PopLoadData(top) => QuietTo(s, t, id, PopCount(s.Data(top)));
      case PopCount(data) => CountKeeps(s, t, id, -1, Got(data));
      case Leave(_) => BoundsKeep(s, t, c);
  }

  // ---- whole runs: any number of threads, any interleaving
  function After(s: State, w: seq<(nat, Choice)>): State {
    if w == [] then s
    else
      var before := After(s, w[..|w| - 1]);
      var (t, c) := w[|w| - 1];
      if Enabled(before, t, c) then Step(before, t, c) else before
  }

  lemma {:induction false} RunInv(ids: set<nat>, w: seq<(nat, Choice)>)
    ensures Inv(After(Init(ids), w))
  {
    if w == [] {
      var s := Init(ids);
      forall t | t in s.threads ensures ThreadOk(s, t) {}
      forall t, u | t in s.threads && u in s.threads ensures Distinct(s, t, u) {}
      assert Uncounted(s) == {} && Undiscounted(s) == {} && Contents(s) == [];
    } else {
      var k := |w| - 1;
      RunInv(ids, w[..k]);
      var before := After(Init(ids), w[..k]);
      if Enabled(before, w[k].0, w[k].1) {
        StepKeepsInv(before, w[k].0, w[k].1);
      }
    }
  }

  // The history is linearizable to a LIFO stack, its log leads to the values now on the stack, and the size counter is
  // off by exactly the operations that have pushed or popped a node and still have to count it.
  ghost predicate Correct(s: State) {
    && Linearizable(Lifo, s.hist)
    && Replay(Lifo, s.hist.log) == Some(Contents(s))
    && s.size == Wrap(|Contents(s)| - |Uncounted(s)| + |Undiscounted(s)|)
  }

  lemma EveryRunIsCorrect(ids: set<nat>, w: seq<(nat, Choice)>)
    ensures Correct(After(Init(ids), w))
  {
    RunInv(ids, w);
    InvCorrect(After(Init(ids), w));
  }

  lemma InvCorrect(s: State)
    requires Inv(s)
    ensures Correct(s)
  {
  }
}
