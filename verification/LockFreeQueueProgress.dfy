/**
 What the operations of the lock-free queue achieve, besides being linearizable: a thread that runs alone returns within
 17 steps with the answer and the effect of the sequential queue, and an enqueue gives up only if its allocation failed.
 */
module LockFreeQueueProgress {
  import opened Linearizability
  import opened LockFreeQueue
  import opened Machine
  import opened Options

  // What is expected of an operation at pc, while the queue holds q. It may have had its effect already, or have seen
  // an empty queue under this head.
  function Expected(op: Op, pc: PC, head: nat, q: seq<int>): (Ret, seq<int>) {
    if op.lin.Some? && (Changes(op.lin.value.ret) || pc.Leave? || (pc.DeqCheckHead? && pc.head == head)) then
      (op.lin.value.ret, q)
    else Outcome(Fifo, op.call, q)
  }

  ghost function Expects(s: State, t: nat): (Ret, seq<int>)
    requires ChainOk(s) && t in s.threads && s.threads[t].Run? && s.threads[t].op < |s.hist.ops|
  {
    Expected(s.hist.ops[s.threads[t].op], s.threads[t].pc, s.head, Contents(s))
  }

  // The part of the state that the loops look at.
  datatype Links = Links(head: nat, tail: nat, next: map<nat, nat>) {
    function Next(n: nat): nat {
      if n in next then next[n] else NULL
    }
  }

  function LinksOf(s: State): Links {
    Links(s.head, s.tail, s.next)
  }

  // How many steps an operation alone needs at most: from the start of the enqueue or dequeue loop, and from pc.
  function EnqRank(s: Links): nat {
    if s.Next(s.tail) == NULL then 7 else 11
  }

  function DeqRank(s: Links): nat {
    if s.head != s.tail then 8 else if s.Next(s.head) == NULL then 5 else 13
  }

  function Rank(s: Links, pc: PC): nat {
    match pc
    case EnqAlloc(_) => EnqRank(s) + 1
    case EnqLoadTail(_) => EnqRank(s)
    case EnqLoadNext(_, tail) => if tail != s.tail then EnqRank(s) + 2 else if s.Next(tail) == NULL then 6 else 10
    case EnqCheckTail(_, tail, next) =>
      if tail != s.tail then EnqRank(s) + 1
      else if next != NULL then 9
      else if s.Next(tail) == NULL then 5 else EnqRank(s) + 2
    case EnqLink(_, tail) => if s.Next(tail) == NULL then 4 else EnqRank(s) + 1
    case EnqHelp(_, tail, _) => if tail == s.tail then 8 else EnqRank(s) + 1
    case EnqSwing(_, _) => 3
    case EnqCount => 2
    case DeqLoadHead => DeqRank(s)
    case DeqLoadTail(head) => if head != s.head then DeqRank(s) + 3 else DeqRank(s) - 1
    case DeqLoadNext(head, tail) =>
      if head != s.head then DeqRank(s) + 2
      else if head != tail then 6
      else if s.Next(head) == NULL then 3
      else if tail == s.tail then 11 else DeqRank(s) + 3
    case DeqCheckHead(head, tail, next) =>
      if head != s.head then DeqRank(s) + 1
      else if head != tail then 5
      else if next == NULL then 2
      else if tail == s.tail then 10 else DeqRank(s) + 2
    case DeqHelp(tail, _) => if tail == s.tail then 9 else DeqRank(s) + 1
    case DeqLoadData(head, _) => if head == s.head then 4 else DeqRank(s) + 2
    case DeqUnlink(head, _, _) => if head == s.head then 3 else DeqRank(s) + 1
    case DeqCount(_) => 2
    case Leave(_) => 1
  }

  // One step of a running operation brings it closer to its return and changes nothing about what is expected of it.
  ghost predicate Advances(s: State, s': State, t: nat) {
    && ChainOk(s) && ChainOk(s') && t in s.threads && s.threads[t].Run? && t in s'.threads && s'.threads[t].Run?
    && s'.threads[t].op == s.threads[t].op < |s.hist.ops| && s.threads[t].op < |s'.hist.ops|
    && Rank(LinksOf(s'), s'.threads[t].pc) < Rank(LinksOf(s), s.threads[t].pc)
    && Expects(s', t) == Expects(s, t)
  }

  lemma QuietAdvances(s: State, t: nat, id: nat, pc: PC)
    requires ChainOk(s) && t in s.threads && s.threads[t].Run? && s.threads[t].op == id
    requires id < |s.hist.ops| && Rank(LinksOf(s), pc) < Rank(LinksOf(s), s.threads[t].pc)
    requires var op, q := s.hist.ops[id], Contents(s);
      Expected(op, pc, s.head, q) == Expected(op, s.threads[t].pc, s.head, q)
    ensures Advances(s, Quiet(s, t, id, pc), t)
  {
    var s' := Quiet(s, t, id, pc);
    assert LinksOf(s') == LinksOf(s);
    SameChain(s, s');
  }

  // ---- the enqueue
  lemma EnqLoadTailAdvances(s: State, t: nat, id: nat, pc: PC, c: Choice)
    requires ChainOk(s) && ThreadOk(s, t) && Enabled(s, t, c) && s.threads[t] == Run(id, pc)
    requires pc.EnqLoadTail?
    ensures Advances(s, Step(s, t, c), t)
  {
    QuietAdvances(s, t, id, EnqLoadNext(pc.node, s.tail));
  }

  lemma EnqLoadNextAdvances(s: State, t: nat, id: nat, pc: PC, c: Choice)
    requires ChainOk(s) && ThreadOk(s, t) && Enabled(s, t, c) && s.threads[t] == Run(id, pc)
    requires pc.EnqLoadNext?
    ensures Advances(s, Step(s, t, c), t)
  {
    QuietAdvances(s, t, id, EnqCheckTail(pc.node, pc.tail, s.Next(pc.tail)));
  }

  lemma EnqCheckTailAdvances(s: State, t: nat, id: nat, pc: PC, c: Choice)
    requires ChainOk(s) && ThreadOk(s, t) && Enabled(s, t, c) && s.threads[t] == Run(id, pc)
    requires pc.EnqCheckTail?
    ensures Advances(s, Step(s, t, c), t)
  {
    QuietAdvances(s, t, id, if pc.tail != s.tail then EnqLoadTail(pc.node)
                            else if pc.next == NULL then EnqLink(pc.node, pc.tail)
                            else EnqHelp(pc.node, pc.tail, pc.next));
  }

  lemma AllocAdvances(s: State, t: nat, id: nat, pc: PC, c: Choice)
    requires ChainOk(s) && ThreadOk(s, t) && Enabled(s, t, c) && s.threads[t] == Run(id, pc)
    requires pc.EnqAlloc? && c.lucky
    ensures Advances(s, Step(s, t, c), t)
  {
    var s' := Alloc(s, t, id, c.node, pc.v);
    assert NodeOk(s, s.last);
    AllocChain(s, s', c.node, pc.v);
    assert LinksOf(s').Next(s.tail) == LinksOf(s).Next(s.tail);
  }

  lemma LinkAdvances(s: State, t: nat, id: nat, pc: PC, c: Choice)
    requires ChainOk(s) && ThreadOk(s, t) && Enabled(s, t, c) && s.threads[t] == Run(id, pc)
    requires pc.EnqLink? && c.lucky
    ensures Advances(s, Step(s, t, c), t)
  {
    if s.Next(pc.tail) == NULL {
      LinkPuts(s, t, id, pc.node, pc.tail);
    } else {
      QuietAdvances(s, t, id, EnqLoadTail(pc.node));
    }
  }

  lemma LinkPuts(s: State, t: nat, id: nat, node: nat, tail: nat)
    requires ChainOk(s) && ThreadOk(s, t) && s.threads[t] == Run(id, EnqLink(node, tail)) && s.Next(tail) == NULL
    ensures Advances(s, Link(s, t, id, node, tail), t)
  {
    LinkChain(s, Link(s, t, id, node, tail), node, tail);
  }

  // Once the tail has moved on, it is at the last node and past the head.
  lemma SwungLinks(s: State, t: nat, id: nat, next: nat, pc: PC)
    requires ChainOk(s) && Follows(s, s.tail, next)
    ensures var s' := Swing(s, t, id, next, pc);
      EnqRank(LinksOf(s')) == 7 && DeqRank(LinksOf(s')) == 8 && ChainOk(s') && Contents(s') == Contents(s)
  {
    SwingChain(s, t, id, next, pc);
    assert NodeOk(s, s.last) && NodeOk(s, s.first) && NodeOk(s, s.last + 1);
  }

  lemma SwingAdvances(s: State, t: nat, id: nat, next: nat, pc: PC)
    requires ChainOk(s) && t in s.threads && s.threads[t].Run? && s.threads[t].op == id < |s.hist.ops|
    requires Follows(s, s.tail, next) && (pc.EnqLoadTail? || pc.EnqCount? || pc.DeqLoadHead?)
    requires (if pc.EnqLoadTail? then 7 else if pc.EnqCount? then 2 else 8) < Rank(LinksOf(s), s.threads[t].pc)
    requires var op, q := s.hist.ops[id], Contents(s);
      Expected(op, pc, s.head, q) == Expected(op, s.threads[t].pc, s.head, q)
    ensures Advances(s, Swing(s, t, id, next, pc), t)
  {
    SwungLinks(s, t, id, next, pc);
  }

  lemma EnqHelpAdvances(s: State, t: nat, id: nat, pc: PC, c: Choice)
    requires ChainOk(s) && ThreadOk(s, t) && Enabled(s, t, c) && s.threads[t] == Run(id, pc)
    requires pc.EnqHelp? && c.lucky
    ensures Advances(s, Step(s, t, c), t)
  {
    if s.tail == pc.tail {
      SwingAdvances(s, t, id, pc.next, EnqLoadTail(pc.node));
    } else {
      QuietAdvances(s, t, id, EnqLoadTail(pc.node));
    }
  }

  lemma EnqSwingAdvances(s: State, t: nat, id: nat, pc: PC, c: Choice)
    requires ChainOk(s) && ThreadOk(s, t) && Enabled(s, t, c) && s.threads[t] == Run(id, pc)
    requires pc.EnqSwing?
    ensures Advances(s, Step(s, t, c), t)
  {
    if s.tail == pc.tail {
      SwingAdvances(s, t, id, pc.node, EnqCount);
    } else {
      QuietAdvances(s, t, id, EnqCount);
    }
  }

  lemma CountAdvances(s: State, t: nat, id: nat, pc: PC, c: Choice)
    requires ChainOk(s) && ThreadOk(s, t) && Enabled(s, t, c) && s.threads[t] == Run(id, pc)
    requires (pc.EnqCount? || pc.DeqCount?)
    ensures Advances(s, Step(s, t, c), t)
  {
    SameChain(s, Step(s, t, c));
  }

  // ---- the dequeue
  lemma DeqLoadsAdvance(s: State, t: nat, id: nat, pc: PC, c: Choice)
    requires ChainOk(s) && ThreadOk(s, t) && Enabled(s, t, c) && s.threads[t] == Run(id, pc)
    requires (pc.DeqLoadHead? || pc.DeqLoadTail?)
    ensures Advances(s, Step(s, t, c), t)
  {
    QuietAdvances(s, t, id, if pc.DeqLoadHead? then DeqLoadTail(s.head) else DeqLoadNext(pc.head, s.tail));
  }

  lemma DeqLoadNextAdvances(s: State, t: nat, id: nat, pc: PC, c: Choice)
    requires ChainOk(s) && ThreadOk(s, t) && Enabled(s, t, c) && s.threads[t] == Run(id, pc)
    requires pc.DeqLoadNext?
    ensures Advances(s, Step(s, t, c), t)
  {
    NextOf(s, pc.head);
    if pc.head == pc.tail && s.Next(pc.head) == NULL {
      ObserveAdvances(s, t, id, pc);
    } else {
      QuietAdvances(s, t, id, DeqCheckHead(pc.head, pc.tail, s.Next(pc.head)));
    }
  }

  lemma ObserveAdvances(s: State, t: nat, id: nat, pc: PC)
    requires ChainOk(s) && ThreadOk(s, t) && s.threads[t] == Run(id, pc) && pc.DeqLoadNext?
    requires pc.head == pc.tail && s.Next(pc.head) == NULL
    ensures Advances(s, s.(hist := s.hist.Observe(id, Empty)).Go(t, id, DeqCheckHead(pc.head, pc.tail, NULL)), t)
  {
    var s' := s.(hist := s.hist.Observe(id, Empty)).Go(t, id, DeqCheckHead(pc.head, pc.tail, NULL));
    NextOf(s, pc.head);
    assert Contents(s) == [] && pc.head == s.head;
    SameChain(s, s');
    assert LinksOf(s') == LinksOf(s);
  }

  lemma RetractAdvances(s: State, t: nat, id: nat, pc: PC)
    requires ChainOk(s) && ThreadOk(s, t) && s.threads[t] == Run(id, pc) && pc.DeqCheckHead? && pc.head != s.head
    ensures Advances(s, s.(hist := s.hist.Retract(id)).Go(t, id, DeqLoadHead), t)
  {
    var s' := s.(hist := s.hist.Retract(id)).Go(t, id, DeqLoadHead);
    SameChain(s, s');
    assert LinksOf(s') == LinksOf(s);
  }

  lemma DeqCheckHeadAdvances(s: State, t: nat, id: nat, pc: PC, c: Choice)
    requires ChainOk(s) && ThreadOk(s, t) && Enabled(s, t, c) && s.threads[t] == Run(id, pc)
    requires pc.DeqCheckHead?
    ensures Advances(s, Step(s, t, c), t)
  {
    if pc.head != s.head {
      RetractAdvances(s, t, id, pc);
    } else {
      QuietAdvances(s, t, id, if pc.head != pc.tail then DeqLoadData(pc.head, pc.next)
                              else if pc.next == NULL then Leave(Empty) else DeqHelp(pc.tail, pc.next));
    }
  }

  lemma DeqHelpAdvances(s: State, t: nat, id: nat, pc: PC, c: Choice)
    requires ChainOk(s) && ThreadOk(s, t) && Enabled(s, t, c) && s.threads[t] == Run(id, pc)
    requires pc.DeqHelp? && c.lucky
    ensures Advances(s, Step(s, t, c), t)
  {
    if s.tail == pc.tail {
      SwingAdvances(s, t, id, pc.next, DeqLoadHead);
    } else {
      QuietAdvances(s, t, id, DeqLoadHead);
    }
  }

  lemma DeqLoadDataAdvances(s: State, t: nat, id: nat, pc: PC, c: Choice)
    requires ChainOk(s) && ThreadOk(s, t) && Enabled(s, t, c) && s.threads[t] == Run(id, pc)
    requires pc.DeqLoadData?
    ensures Advances(s, Step(s, t, c), t)
  {
    QuietAdvances(s, t, id, DeqUnlink(pc.head, pc.next, s.Data(pc.next)));
  }

  lemma UnlinkAdvances(s: State, t: nat, id: nat, pc: PC, c: Choice)
    requires ChainOk(s) && ThreadOk(s, t) && Enabled(s, t, c) && s.threads[t] == Run(id, pc)
    requires pc.DeqUnlink? && c.lucky
    ensures Advances(s, Step(s, t, c), t)
  {
    if s.head == pc.head {
      UnlinkTakes(s, t, id, pc.next, pc.data);
    } else {
      QuietAdvances(s, t, id, DeqLoadHead);
    }
  }

  lemma UnlinkTakes(s: State, t: nat, id: nat, next: nat, data: int)
    requires ChainOk(s) && ThreadOk(s, t) && s.threads[t] == Run(id, DeqUnlink(s.head, next, data))
    ensures Advances(s, Unlink(s, t, id, next, data), t)
  {
    UnlinkChain(s, t, id, next, data);
  }

  // ---- every step, and whole operations
  lemma StepAdvances(s: State, t: nat, id: nat, pc: PC, c: Choice)
    requires Inv(s) && Enabled(s, t, c) && s.threads[t] == Run(id, pc) && !pc.Leave? && c.lucky
    ensures Inv(Step(s, t, c)) && Advances(s, Step(s, t, c), t)
  {
    StepKeepsInv(s, t, c);
    assert ThreadOk(s, t);
    CaseAdvances(s, t, id, pc, c);
  }

  lemma CaseAdvances(s: State, t: nat, id: nat, pc: PC, c: Choice)
    requires ChainOk(s) && ThreadOk(s, t) && Enabled(s, t, c) && s.threads[t] == Run(id, pc)
    requires !pc.Leave? && c.lucky
    ensures Advances(s, Step(s, t, c), t)
  {
    match pc
    case EnqAlloc(_) => AllocAdvances(s, t, id, pc, c);
    case EnqLoadTail(_) => EnqLoadTailAdvances(s, t, id, pc, c);
    case EnqLoadNext(_, _) => EnqLoadNextAdvances(s, t, id, pc, c);
    case EnqCheckTail(_, _, _) => EnqCheckTailAdvances(s, t, id, pc, c);
    case EnqLink(_, _) => LinkAdvances(s, t, id, pc, c);
    case EnqHelp(_, _, _) => EnqHelpAdvances(s, t, id, pc, c);
    case EnqSwing(_, _) => EnqSwingAdvances(s, t, id, pc, c);
    case EnqCount => CountAdvances(s, t, id, pc, c);
    case DeqLoadHead => DeqLoadsAdvance(s, t, id, pc, c);
    case DeqLoadTail(_) => DeqLoadsAdvance(s, t, id, pc, c);
    case DeqLoadNext(_, _) => DeqLoadNextAdvances(s, t, id, pc, c);
    case DeqCheckHead(_, _, _) => DeqCheckHeadAdvances(s, t, id, pc, c);
    case DeqHelp(_, _) => DeqHelpAdvances(s, t, id, pc, c);
    case DeqLoadData(_, _) => DeqLoadDataAdvances(s, t, id, pc, c);
    case DeqUnlink(_, _, _) => UnlinkAdvances(s, t, id, pc, c);
    case DeqCount(_) => CountAdvances(s, t, id, pc, c);
  }

  // The states that thread t goes through alone, with allocations that work and swaps that do not fail for no reason.
  ghost predicate StepsAt(t: nat, cs: seq<Choice>, path: seq<State>, i: int) {
    && 0 <= i < |cs| < |path| && Enabled(path[i], t, cs[i]) && cs[i].lucky
    && path[i + 1] == Step(path[i], t, cs[i])
  }

  ghost predicate RunsAlone(t: nat, cs: seq<Choice>, path: seq<State>) {
    |path| == |cs| + 1 && forall i {:trigger StepsAt(t, cs, path, i)} | 0 <= i < |cs| :: StepsAt(t, cs, path, i)
  }

  // Operation id of thread t has returned ret, and the queue holds q.
  ghost predicate Returned(s: State, t: nat, id: nat, ret: Ret, q: seq<int>) {
    && Inv(s) && t in s.threads && s.threads[t].Idle? && id < |s.hist.ops|
    && s.hist.ops[id].res.Some? && s.hist.ops[id].res.value.ret == ret && Contents(s) == q
  }

  ghost predicate Running(s: State, t: nat) {
    Inv(s) && t in s.threads && s.threads[t].Run? && s.threads[t].op < |s.hist.ops|
  }

  ghost function Left(s: State, t: nat): nat
    requires Running(s, t)
  {
    Rank(LinksOf(s), s.threads[t].pc)
  }

  // An operation that goes on alone, wherever it is, returns what is expected of it.
  lemma {:induction false} ReturnsAlone(t: nat, cs: seq<Choice>, path: seq<State>, i: nat) returns (n: nat)
    requires RunsAlone(t, cs, path) && i < |path| && Running(path[i], t) && i + Left(path[i], t) <= |cs|
    ensures i < n <= i + Left(path[i], t)
    ensures Returned(path[n], t, path[i].threads[t].op, Expects(path[i], t).0, Expects(path[i], t).1)
    decreases |path| - i
  {
    OneStep(t, cs, path, i);
    if path[i].threads[t].pc.Leave? {
      n := i + 1;
    } else {
      n := ReturnsAlone(t, cs, path, i + 1);
    }
  }

  lemma OneStep(t: nat, cs: seq<Choice>, path: seq<State>, i: nat)
    requires RunsAlone(t, cs, path) && i < |path| && Running(path[i], t) && i + Left(path[i], t) <= |cs|
    ensures 0 < Left(path[i], t) && i < |cs|
    ensures var s, s' := path[i], path[i + 1];
      if s.threads[t].pc.Leave? then Returned(s', t, s.threads[t].op, Expects(s, t).0, Expects(s, t).1)
      else Running(s', t) && Left(s', t) < Left(s, t) && Expects(s', t) == Expects(s, t) &&
           s'.threads[t].op == s.threads[t].op
  {
    var s := path[i];
    assert Rank(LinksOf(s), s.threads[t].pc) > 0;
    assert StepsAt(t, cs, path, i);
    if s.threads[t].pc.Leave? {
      LeaveReturns(s, t, cs[i]);
    } else {
      StepAdvances(s, t, s.threads[t].op, s.threads[t].pc, cs[i]);
    }
  }

  lemma LeaveReturns(s: State, t: nat, c: Choice)
    requires Inv(s) && Enabled(s, t, c) && s.threads[t].Run? && s.threads[t].pc.Leave?
    requires s.threads[t].op < |s.hist.ops|
    ensures Returned(Step(s, t, c), t, s.threads[t].op, Expects(s, t).0, Expects(s, t).1)
  {
    assert ThreadOk(s, t);
    StepKeepsInv(s, t, c);
    SameChain(s, Step(s, t, c));
  }

  lemma CallStarts(s: State, t: nat, c: Choice)
    requires Inv(s) && Enabled(s, t, c) && s.threads[t].Idle?
    ensures var s', id := Step(s, t, c), |s.hist.ops|;
      && Inv(s') && s'.threads[t].Run? && s'.threads[t].op == id < |s'.hist.ops|
      && Expects(s', t) == Outcome(Fifo, c.call, Contents(s)) && Rank(LinksOf(s'), s'.threads[t].pc) <= 16
  {
    StepKeepsInv(s, t, c);
    SameChain(s, Step(s, t, c));
  }

  // From every state of the invariant: an idle thread that calls an operation and runs alone has returned after at most
  // 17 steps. An enqueue returns true and its value is at the end; a dequeue returns the first value and it is gone, or
  // nothing exactly if the queue is empty.
  lemma CallReturnsAlone(s: State, t: nat, cs: seq<Choice>, path: seq<State>) returns (n: nat)
    requires Inv(s) && t in s.threads && s.threads[t].Idle? && RunsAlone(t, cs, path) && path[0] == s && |cs| >= 17
    ensures n <= 17
    ensures var q, id := Contents(s), |s.hist.ops|;
      match cs[0].call
      case Put(v) => Returned(path[n], t, id, Done, q + [v])
      case Take => if q == [] then Returned(path[n], t, id, Empty, []) else Returned(path[n], t, id, Got(q[0]), q[1..])
  {
    assert StepsAt(t, cs, path, 0);
    CallStarts(s, t, cs[0]);
    n := ReturnsAlone(t, cs, path, 1);
  }

  // Such steps there always are: some address is not allocated yet.
  lemma {:induction false} LuckyStepsExist(s: State, t: nat, call: Call, k: nat)
    returns (cs: seq<Choice>, path: seq<State>)
    requires Inv(s) && t in s.threads
    ensures |cs| == k && RunsAlone(t, cs, path) && path[0] == s && (k > 0 ==> cs[0].call == call)
    decreases k
  {
    if k == 0 {
      cs, path := [], [s];
    } else {
      var cs', path' := LuckyStepsExist(s, t, call, k - 1);
      var n := Unused(path'[k - 1].next.Keys);
      StillThere(t, cs', path', k - 1);
      cs := cs' + [Choice(call, n, true)];
      path := OneMore(t, cs', path', Choice(call, n, true));
    }
  }

  lemma OneMore(t: nat, cs: seq<Choice>, path: seq<State>, c: Choice) returns (path': seq<State>)
    requires RunsAlone(t, cs, path) && Enabled(path[|cs|], t, c) && c.lucky
    ensures RunsAlone(t, cs + [c], path') && path'[0] == path[0]
  {
    var s := Step(path[|cs|], t, c);
    path' := path + [s];
    forall i | 0 <= i < |cs| + 1 ensures StepsAt(t, cs + [c], path', i) {
      if i < |cs| { assert StepsAt(t, cs, path, i); }
    }
  }

  lemma {:induction false} StillThere(t: nat, cs: seq<Choice>, path: seq<State>, i: nat)
    requires RunsAlone(t, cs, path) && i < |path| && Inv(path[0]) && t in path[0].threads
    ensures Inv(path[i]) && t in path[i].threads
  {
    if i > 0 {
      StillThere(t, cs, path, i - 1);
      assert StepsAt(t, cs, path, i - 1);
      StaysThere(path[i - 1], t, cs[i - 1]);
    }
  }

  lemma StaysThere(s: State, t: nat, c: Choice)
    requires Inv(s) && Enabled(s, t, c) && c.lucky
    ensures Inv(Step(s, t, c)) && t in Step(s, t, c).threads
  {
    if s.threads[t].Run? && !s.threads[t].pc.Leave? {
      StepAdvances(s, t, s.threads[t].op, s.threads[t].pc, c);
    } else {
      StepKeepsInv(s, t, c);
    }
  }

  // ---- giving up
  // An operation starts to answer NoMemory only in a step in which its allocation fails.
  lemma NoMemoryStep(s: State, t: nat, c: Choice, id: nat)
    requires Inv(s) && Enabled(s, t, c) && id < |Step(s, t, c).hist.ops|
    requires Step(s, t, c).hist.ops[id].lin.Some? && Step(s, t, c).hist.ops[id].lin.value.ret.NoMemory?
    ensures (id < |s.hist.ops| && s.hist.ops[id].lin == Step(s, t, c).hist.ops[id].lin) ||
            (s.threads[t].Run? && s.threads[t].op == id && s.threads[t].pc.EnqAlloc? && !c.lucky)
  {
    assert ThreadOk(s, t);
    HistoryStep(s, t, c);
  }

  // What a step does to the history.
  ghost predicate Records(s: State, t: nat, c: Choice, h: History)
    requires t in s.threads
  {
    var th := s.threads[t];
    if th.Idle? then h == s.hist.Invoke(t, c.call)
    else
      || h == s.hist.Tick() || h == s.hist.Effect(th.op, Done) || h == s.hist.Observe(th.op, Empty)
      || h == s.hist.Retract(th.op)
      || (th.pc.DeqUnlink? && h == s.hist.Effect(th.op, Got(th.pc.data)))
      || (th.pc.Leave? && h == s.hist.Return(th.op, th.pc.ret))
      || (th.pc.EnqAlloc? && !c.lucky && h == s.hist.Observe(th.op, NoMemory))
  }

  predicate Enqueues(th: Thread) {
    th.Run? &&
    (th.pc.EnqAlloc? || th.pc.EnqLoadTail? || th.pc.EnqLoadNext? || th.pc.EnqCheckTail? || th.pc.EnqLink? ||
     th.pc.EnqHelp? || th.pc.EnqSwing? || th.pc.EnqCount?)
  }

  lemma HistoryStep(s: State, t: nat, c: Choice)
    requires Enabled(s, t, c)
    ensures Records(s, t, c, Step(s, t, c).hist)
  {
    if Enqueues(s.threads[t]) {
      EnqHistory(s, t, c);
    } else if Branches(s.threads[t]) {
      BranchHistory(s, t, c);
    } else {
      DeqHistory(s, t, c);
    }
  }

  lemma EnqHistory(s: State, t: nat, c: Choice)
    requires Enabled(s, t, c) && Enqueues(s.threads[t])
    ensures Records(s, t, c, Step(s, t, c).hist)
  {
  }

  predicate Branches(th: Thread) {
    th.Run? && (th.pc.DeqLoadNext? || th.pc.DeqCheckHead? || th.pc.DeqHelp? || th.pc.DeqUnlink?)
  }

  lemma BranchHistory(s: State, t: nat, c: Choice)
    requires Enabled(s, t, c) && Branches(s.threads[t])
    ensures Records(s, t, c, Step(s, t, c).hist)
  {
  }

  lemma DeqHistory(s: State, t: nat, c: Choice)
    requires Enabled(s, t, c) && !Enqueues(s.threads[t]) && !Branches(s.threads[t])
    ensures Records(s, t, c, Step(s, t, c).hist)
  {
  }

  // In every run an operation answers NoMemory only if its own allocation failed, in step k of the run.
  lemma {:induction false} NoMemoryHasReason(dummy: nat, ids: set<nat>, w: seq<(nat, Choice)>, id: nat) returns (k: nat)
    requires dummy != NULL
    requires var s := After(Init(dummy, ids), w);
      id < |s.hist.ops| && s.hist.ops[id].lin.Some? && s.hist.ops[id].lin.value.ret.NoMemory?
    ensures k < |w|
    ensures var before, t := After(Init(dummy, ids), w[..k]), w[k].0;
      t in before.threads && before.threads[t].Run? && before.threads[t].op == id &&
      before.threads[t].pc.EnqAlloc? && !w[k].1.lucky
    decreases |w|
  {
    var i, j := Init(dummy, ids), |w| - 1;
    var before := After(i, w[..j]);
    InitInv(dummy, ids);
    RunInv(i, w[..j]);
    if Enabled(before, w[j].0, w[j].1) {
      NoMemoryStep(before, w[j].0, w[j].1, id);
    }
    if id < |before.hist.ops| && before.hist.ops[id].lin == After(i, w).hist.ops[id].lin {
      k := NoMemoryHasReason(dummy, ids, w[..j], id);
      assert w[..j][..k] == w[..k];
    } else {
      k := j;
    }
  }
}
