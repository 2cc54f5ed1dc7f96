/**
 What the operations of the lock-free stack achieve, besides being linearizable: a thread that runs alone returns within
 10 steps with the answer and the effect of the sequential stack, and a push gives up only if its allocation failed.
 */
module LockFreeStackProgress {
  import opened Linearizability
  import opened LockFreeStack
  import opened Machine
  import opened Options

  // What is expected of an operation at pc, while the stack holds q. It may have had its effect already.
  function Expected(op: Op, pc: PC, q: seq<int>): (Ret, seq<int>) {
    if op.lin.Some? && (Changes(op.lin.value.ret) || pc.Leave?) then (op.lin.value.ret, q)
    else Outcome(Lifo, op.call, q)
  }

  ghost function Expects(s: State, t: nat): (Ret, seq<int>)
    requires t in s.threads && s.threads[t].Run? && s.threads[t].op < |s.hist.ops|
  {
    Expected(s.hist.ops[s.threads[t].op], s.threads[t].pc, Contents(s))
  }

  // How many steps an operation alone needs at most, given the top of the stack and the next pointer of its own node.
  function CheckRank(top: nat, seen: nat): nat {
    if seen == top then 6 else if top == NULL then 3 else 10
  }

  function Rank(top: nat, own: nat, pc: PC): nat {
    match pc
    case PushAlloc(_) => 6
    case PushLoadTop(_) => 5
    case PushStoreNext(_, seen) => if seen == top then 4 else 7
    case PushSwap(_) => if own == top then 3 else 6
    case PushCount => 2
    case PopLoadTop => if top == NULL then 2 else 9
    case PopProtect(seen) => CheckRank(top, seen) + 2
    case PopRecheck(seen, hazard) => if hazard == top then CheckRank(top, seen) + 1 else CheckRank(top, seen) + 3
    case PopCheck(seen) => CheckRank(top, seen)
    case PopLoadNext(seen) => if seen == top then 5 else CheckRank(top, seen) + 1
    case PopSwap(seen, _) => if seen == top then 4 else CheckRank(top, seen)
    case PopLoadData(_) => 3
    case PopCount(_) => 2
    case Leave(_) => 1
  }

  function Own(s: State, pc: PC): nat {
    if pc.PushSwap? then s.Next(pc.node) else NULL
  }

  // One step of a running operation brings it closer to its return and changes nothing about what is expected of it.
  ghost predicate Advances(s: State, s': State, t: nat) {
    && t in s.threads && s.threads[t].Run? && t in s'.threads && s'.threads[t].Run?
    && s'.threads[t].op == s.threads[t].op < |s.hist.ops| && s.threads[t].op < |s'.hist.ops|
    && Rank(s'.top, Own(s', s'.threads[t].pc), s'.threads[t].pc) < Rank(s.top, Own(s, s.threads[t].pc), s.threads[t].pc)
    && Expects(s', t) == Expects(s, t)
  }

  // A step that leaves the stack and what the operation has done so far alone.
  lemma SameStackAdvances(s: State, s': State, t: nat, id: nat, pc: PC)
    requires ChainOk(s) && SameStack(s, s') && t in s.threads && s.threads[t].Run?
    requires s.threads[t].op == id < |s.hist.ops|
    requires t in s'.threads && s'.threads[t] == Run(id, pc) && s'.hist.ops == s.hist.ops
    requires Rank(s'.top, Own(s', pc), pc) < Rank(s.top, Own(s, s.threads[t].pc), s.threads[t].pc)
    requires var op, q := s.hist.ops[id], Contents(s); Expected(op, pc, q) == Expected(op, s.threads[t].pc, q)
    ensures Advances(s, s', t)
  {
    SameStackKeeps(s, s');
  }

  lemma PushAdvances(s: State, t: nat, id: nat, pc: PC, c: Choice)
    requires ChainOk(s) && ThreadOk(s, t) && Enabled(s, t, c) && s.threads[t] == Run(id, pc) && c.lucky
    requires pc.PushAlloc? || pc.PushLoadTop? || pc.PushStoreNext? || pc.PushCount?
    ensures Advances(s, Step(s, t, c), t)
  {
    var s' := Step(s, t, c);
    SameStackAdvances(s, s', t, id, s'.threads[t].pc);
  }

  lemma PushSwapAdvances(s: State, t: nat, id: nat, pc: PC, c: Choice)
    requires ChainOk(s) && ThreadOk(s, t) && Enabled(s, t, c) && s.threads[t] == Run(id, pc) && c.lucky && pc.PushSwap?
    ensures Advances(s, Step(s, t, c), t)
  {
    if s.top == s.Next(pc.node) {
      PushPuts(s, t, id, pc.node);
    } else {
      var s' := Step(s, t, c);
      SameStackAdvances(s, s', t, id, PushLoadTop(pc.node));
    }
  }

  lemma PushPuts(s: State, t: nat, id: nat, node: nat)
    requires ChainOk(s) && ThreadOk(s, t) && s.threads[t] == Run(id, PushSwap(node)) && s.top == s.Next(node)
    ensures Advances(s, Push(s, t, id, node), t)
  {
    var s' := Push(s, t, id, node);
    assert Contents(s') == [s.Data(node)] + Contents(s);
  }

  lemma PopAdvances(s: State, t: nat, id: nat, pc: PC, c: Choice)
    requires ChainOk(s) && ThreadOk(s, t) && Enabled(s, t, c) && s.threads[t] == Run(id, pc) && c.lucky
    requires pc.PopProtect? || pc.PopRecheck? || pc.PopCheck? || pc.PopLoadNext? || pc.PopLoadData? || pc.PopCount?
    ensures Advances(s, Step(s, t, c), t)
  {
    var s' := Step(s, t, c);
    SameStackAdvances(s, s', t, id, s'.threads[t].pc);
  }

  lemma PopLoadTopAdvances(s: State, t: nat, id: nat, pc: PC, c: Choice)
    requires ChainOk(s) && ThreadOk(s, t) && Enabled(s, t, c) && s.threads[t] == Run(id, pc) && pc.PopLoadTop?
    ensures Advances(s, Step(s, t, c), t)
  {
    var s' := Step(s, t, c);
    if s.top == NULL {
      assert s.chain != [] ==> NodeOk(s, 0);
      SameStackKeeps(s, s');
      assert Contents(s) == [];
    } else {
      SameStackAdvances(s, s', t, id, PopProtect(s.top));
    }
  }

  lemma PopSwapAdvances(s: State, t: nat, id: nat, pc: PC, c: Choice)
    requires ChainOk(s) && ThreadOk(s, t) && Enabled(s, t, c) && s.threads[t] == Run(id, pc) && c.lucky && pc.PopSwap?
    ensures Advances(s, Step(s, t, c), t)
  {
    if s.top == pc.top {
      PopTakes(s, t, id, pc.next);
    } else {
      SameStackAdvances(s, Step(s, t, c), t, id, PopLoadTop);
    }
  }

  lemma PopTakes(s: State, t: nat, id: nat, next: nat)
    requires ChainOk(s) && ThreadOk(s, t) && s.threads[t] == Run(id, PopSwap(s.top, next))
    ensures Advances(s, Pop(s, t, id, s.top, next), t)
  {
    var s' := Pop(s, t, id, s.top, next);
    PopChain(s, s', next);
  }

  // ---- every step, and whole operations
  lemma StepAdvances(s: State, t: nat, id: nat, pc: PC, c: Choice)
    requires Inv(s) && Enabled(s, t, c) && s.threads[t] == Run(id, pc) && !pc.Leave? && c.lucky
    ensures Inv(Step(s, t, c)) && Advances(s, Step(s, t, c), t)
  {
    StepKeepsInv(s, t, c);
    assert ThreadOk(s, t);
    if pc.PushSwap? {
      PushSwapAdvances(s, t, id, pc, c);
    } else if pc.PopLoadTop? {
      PopLoadTopAdvances(s, t, id, pc, c);
    } else if pc.PopSwap? {
      PopSwapAdvances(s, t, id, pc, c);
    } else if pc.PushAlloc? || pc.PushLoadTop? || pc.PushStoreNext? || pc.PushCount? {
      PushAdvances(s, t, id, pc, c);
    } else {
      PopAdvances(s, t, id, pc, c);
    }
  }

  // The states that thread t goes through alone, with allocations that work and swaps that do not fail for no reason.
  ghost predicate StepsAt(t: nat, cs: seq<Choice>, path: seq<State>, i: int) {
    && 0 <= i < |cs| < |path| && Enabled(path[i], t, cs[i]) && cs[i].lucky
    && path[i + 1] == Step(path[i], t, cs[i])
  }

  ghost predicate RunsAlone(t: nat, cs: seq<Choice>, path: seq<State>) {
    |path| == |cs| + 1 && forall i {:trigger StepsAt(t, cs, path, i)} | 0 <= i < |cs| :: StepsAt(t, cs, path, i)
  }

  // Operation id of thread t has returned ret, and the stack holds q.
  ghost predicate Returned(s: State, t: nat, id: nat, ret: Ret, q: seq<int>) {
    && Inv(s) && t in s.threads && s.threads[t].Idle? && id < |s.hist.ops|
    && s.hist.ops[id].res.Some? && s.hist.ops[id].res.value.ret == ret && Contents(s) == q
  }

  ghost predicate Running(s: State, t: nat) {
    Inv(s) && t in s.threads && s.threads[t].Run? && s.threads[t].op < |s.hist.ops|
  }

  ghost function Left(s: State, t: nat): nat
    requires Running(s, t)
  {
    Rank(s.top, Own(s, s.threads[t].pc), s.threads[t].pc)
  }

  // An operation that goes on alone, wherever it is, returns what is expected of it.
  lemma {:induction false} ReturnsAlone(t: nat, cs: seq<Choice>, path: seq<State>, i: nat) returns (n: nat)
    requires RunsAlone(t, cs, path) && i < |path| && Running(path[i], t) && i + Left(path[i], t) <= |cs|
    ensures i < n <= i + Left(path[i], t)
    ensures Returned(path[n], t, path[i].threads[t].op, Expects(path[i], t).0, Expects(path[i], t).1)
    decreases |path| - i
  {
    OneStep(t, cs, path, i);
    if path[i].threads[t].pc.Leave? {
      n := i + 1;
    } else {
      n := ReturnsAlone(t, cs, path, i + 1);
    }
  }

  lemma OneStep(t: nat, cs: seq<Choice>, path: seq<State>, i: nat)
    requires RunsAlone(t, cs, path) && i < |path| && Running(path[i], t) && i + Left(path[i], t) <= |cs|
    ensures 0 < Left(path[i], t) && i < |cs|
    ensures var s, s' := path[i], path[i + 1];
      if s.threads[t].pc.Leave? then Returned(s', t, s.threads[t].op, Expects(s, t).0, Expects(s, t).1)
      else Running(s', t) && Left(s', t) < Left(s, t) && Expects(s', t) == Expects(s, t) &&
           s'.threads[t].op == s.threads[t].op
  {
    var s := path[i];
    assert StepsAt(t, cs, path, i);
    if s.threads[t].pc.Leave? {
      LeaveReturns(s, t, cs[i]);
    } else {
      StepAdvances(s, t, s.threads[t].op, s.threads[t].pc, cs[i]);
    }
  }

  lemma LeaveReturns(s: State, t: nat, c: Choice)
    requires Inv(s) && Enabled(s, t, c) && s.threads[t].Run? && s.threads[t].pc.Leave?
    requires s.threads[t].op < |s.hist.ops|
    ensures Returned(Step(s, t, c), t, s.threads[t].op, Expects(s, t).0, Expects(s, t).1)
  {
    assert ThreadOk(s, t);
    StepKeepsInv(s, t, c);
    SameStackKeeps(s, Step(s, t, c));
  }

  lemma CallStarts(s: State, t: nat, c: Choice)
    requires Inv(s) && Enabled(s, t, c) && s.threads[t].Idle?
    ensures var s', id := Step(s, t, c), |s.hist.ops|;
      && Running(s', t) && s'.threads[t].op == id
      && Expects(s', t) == Outcome(Lifo, c.call, Contents(s)) && Left(s', t) <= 9
  {
    StepKeepsInv(s, t, c);
    SameStackKeeps(s, Step(s, t, c));
  }

  // From every state of the invariant: an idle thread that calls an operation and runs alone has returned after at most
  // 10 steps. A push returns true and its value is on top; a pop returns the top value and it is gone, or nothing
  // exactly if the stack is empty.
  lemma CallReturnsAlone(s: State, t: nat, cs: seq<Choice>, path: seq<State>) returns (n: nat)
    requires Inv(s) && t in s.threads && s.threads[t].Idle? && RunsAlone(t, cs, path) && path[0] == s && |cs| >= 10
    ensures n <= 10
    ensures var q, id := Contents(s), |s.hist.ops|;
      match cs[0].call
      case Put(v) => Returned(path[n], t, id, Done, [v] + q)
      case Take => if q == [] then Returned(path[n], t, id, Empty, []) else Returned(path[n], t, id, Got(q[0]), q[1..])
  {
    assert StepsAt(t, cs, path, 0);
    CallStarts(s, t, cs[0]);
    n := ReturnsAlone(t, cs, path, 1);
  }

  // Such steps there always are: some address is not allocated yet.
  lemma {:induction false} LuckyStepsExist(s: State, t: nat, call: Call, k: nat)
    returns (cs: seq<Choice>, path: seq<State>)
    requires Inv(s) && t in s.threads
    ensures |cs| == k && RunsAlone(t, cs, path) && path[0] == s && (k > 0 ==> cs[0].call == call)
    decreases k
  {
    if k == 0 {
      cs, path := [], [s];
    } else {
      var cs', path' := LuckyStepsExist(s, t, call, k - 1);
      var n := Unused(path'[k - 1].next.Keys);
      StillThere(t, cs', path', k - 1);
      cs := cs' + [Choice(call, n, true)];
      path := OneMore(t, cs', path', Choice(call, n, true));
    }
  }

  lemma OneMore(t: nat, cs: seq<Choice>, path: seq<State>, c: Choice) returns (path': seq<State>)
    requires RunsAlone(t, cs, path) && Enabled(path[|cs|], t, c) && c.lucky
    ensures RunsAlone(t, cs + [c], path') && path'[0] == path[0]
  {
    var s := Step(path[|cs|], t, c);
    path' := path + [s];
    forall i | 0 <= i < |cs| + 1 ensures StepsAt(t, cs + [c], path', i) {
      if i < |cs| { assert StepsAt(t, cs, path, i); }
    }
  }

  lemma {:induction false} StillThere(t: nat, cs: seq<Choice>, path: seq<State>, i: nat)
    requires RunsAlone(t, cs, path) && i < |path| && Inv(path[0]) && t in path[0].threads
    ensures Inv(path[i]) && t in path[i].threads
  {
    if i > 0 {
      StillThere(t, cs, path, i - 1);
      assert StepsAt(t, cs, path, i - 1);
      StaysThere(path[i - 1], t, cs[i - 1]);
    }
  }

  lemma StaysThere(s: State, t: nat, c: Choice)
    requires Inv(s) && Enabled(s, t, c) && c.lucky
    ensures Inv(Step(s, t, c)) && t in Step(s, t, c).threads
  {
    if s.threads[t].Run? && !s.threads[t].pc.Leave? {
      StepAdvances(s, t, s.threads[t].op, s.threads[t].pc, c);
    } else {
      StepKeepsInv(s, t, c);
    }
  }

  // ---- giving up
  // What a step does to the history.
  lemma HistoryStep(s: State, t: nat, c: Choice)
    requires Enabled(s, t, c)
    ensures var h, h', th := s.hist, Step(s, t, c).hist, s.threads[t];
      if th.Idle? then h' == h.Invoke(t, c.call)
      else
        || h' == h.Tick() || h' == h.Effect(th.op, Done) || h' == h.Observe(th.op, Empty)
        || (th.pc.PopSwap? && h' == h.Effect(th.op, Got(s.Data(th.pc.top))))
        || (th.pc.Leave? && h' == h.Return(th.op, th.pc.ret))
        || (th.pc.PushAlloc? && !c.lucky && h' == h.Observe(th.op, NoMemory))
  {
  }

  // An operation starts to answer NoMemory only in a step in which its allocation fails.
  lemma NoMemoryStep(s: State, t: nat, c: Choice, id: nat)
    requires Inv(s) && Enabled(s, t, c) && id < |Step(s, t, c).hist.ops|
    requires Step(s, t, c).hist.ops[id].lin.Some? && Step(s, t, c).hist.ops[id].lin.value.ret.NoMemory?
    ensures (id < |s.hist.ops| && s.hist.ops[id].lin == Step(s, t, c).hist.ops[id].lin) ||
            (s.threads[t].Run? && s.threads[t].op == id && s.threads[t].pc.PushAlloc? && !c.lucky)
  {
    assert ThreadOk(s, t);
    HistoryStep(s, t, c);
  }

  // In every run an operation answers NoMemory only if its own allocation failed, in step k of the run.
  lemma {:induction false} NoMemoryHasReason(ids: set<nat>, w: seq<(nat, Choice)>, id: nat) returns (k: nat)
    requires var s := After(Init(ids), w);
      id < |s.hist.ops| && s.hist.ops[id].lin.Some? && s.hist.ops[id].lin.value.ret.NoMemory?
    ensures k < |w|
    ensures var before, t := After(Init(ids), w[..k]), w[k].0;
      t in before.threads && before.threads[t].Run? && before.threads[t].op == id &&
      before.threads[t].pc.PushAlloc? && !w[k].1.lucky
    decreases |w|
  {
    var i, j := Init(ids), |w| - 1;
    var before := After(i, w[..j]);
    RunInv(ids, w[..j]);
    if Enabled(before, w[j].0, w[j].1) {
      NoMemoryStep(before, w[j].0, w[j].1, id);
    }
    if id < |before.hist.ops| && before.hist.ops[id].lin == After(i, w).hist.ops[id].lin {
      k := NoMemoryHasReason(ids, w[..j], id);
      assert w[..j][..k] == w[..k];
    } else {
      k := j;
    }
  }
}
