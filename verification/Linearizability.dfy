/**
 Histories of concurrent operations on a container, and what it means for one to be linearizable.

 The history is an auxiliary record: no step of a protocol reads it. One tick of `clock` is one atomic step of one
 thread.
 */
module Linearizability {
  import opened Options

  // Put is enqueue or push, Take is dequeue or pop.
  datatype Call = Put(v: int) | Take
  datatype Ret = Done | NoMemory | Got(v: int) | Empty

  // When an operation took effect, the length of the log just before, and its answer.
  datatype Lin = Lin(time: nat, slot: nat, ret: Ret)
  // When an operation returned to its caller, and with what.
  datatype Res = Res(time: nat, ret: Ret)
  datatype Op = Op(thread: nat, call: Call, inv: nat, lin: Option<Lin>, res: Option<Res>)

  // An operation that changed the container.
  datatype Event = Event(op: nat, time: nat, call: Call, ret: Ret)

  datatype History = History(clock: nat, ops: seq<Op>, log: seq<Event>) {
    function Tick(): History {
      this.(clock := clock + 1)
    }

    function Invoke(t: nat, call: Call): History {
      Tick().(ops := ops + [Op(t, call, clock, None, None)])
    }

    // Operation id changes the container now.
    function Effect(id: nat, ret: Ret): History {
      if id >= |ops| then Tick()
      else Tick().(ops := ops[id := ops[id].(lin := Some(Lin(clock, |log|, ret)))],
                   log := log + [Event(id, clock, ops[id].call, ret)])
    }

    // Operation id reads its answer off the container now, without changing it.
    function Observe(id: nat, ret: Ret): History {
      if id >= |ops| then Tick()
      else Tick().(ops := ops[id := ops[id].(lin := Some(Lin(clock, |log|, ret)))])
    }

    // Operation id starts over and drops what it had observed.
    function Retract(id: nat): History {
      if id >= |ops| then Tick()
      else Tick().(ops := ops[id := ops[id].(lin := None)])
    }

    function Return(id: nat, ret: Ret): History {
      if id >= |ops| then Tick()
      else Tick().(ops := ops[id := ops[id].(res := Some(Res(clock, ret)))])
    }
  }

  datatype Discipline = Fifo | Lifo

  // The sequential container: what is inside after the logged operations ran one after the other, oldest or top first;
  // None as soon as one of them returns something the container would not have returned.
  function Replay(d: Discipline, log: seq<Event>): Option<seq<int>> {
    if log == [] then Some([])
    else
      var before, e := Replay(d, log[..|log| - 1]), log[|log| - 1];
      if before.None? then None
      else match (e.call, e.ret)
        case (Put(v), Done) => Some(if d.Fifo? then before.value + [v] else [v] + before.value)
        case (Take, Got(v)) => if before.value != [] && before.value[0] == v then Some(before.value[1..]) else None
        case _ => None
  }

  // What an operation does to a container holding q: its answer, and what the container holds afterwards.
  function Outcome(d: Discipline, call: Call, q: seq<int>): (Ret, seq<int>) {
    match call
    case Put(v) => (Done, if d.Fifo? then q + [v] else [v] + q)
    case Take => if q == [] then (Empty, q) else (Got(q[0]), q[1..])
  }

  predicate Changes(ret: Ret) {
    ret.Done? || ret.Got?
  }

  // Operation id took effect inside its own interval, and its answer is the one the sequential container gives there.
  ghost predicate OpOk(d: Discipline, h: History, id: int) {
    && 0 <= id < |h.ops|
    && var op := h.ops[id];
    && op.inv < h.clock
    && (op.lin.Some? ==>
          var l := op.lin.value;
          && op.inv <= l.time < h.clock && l.slot <= |h.log|
          && (l.slot > 0 ==> h.log[l.slot - 1].time < l.time)
          && (if Changes(l.ret) then l.slot < |h.log| && h.log[l.slot] == Event(id, l.time, op.call, l.ret)
              else
                && (l.slot < |h.log| ==> l.time < h.log[l.slot].time)
                && (if l.ret.Empty? then op.call.Take? && Replay(d, h.log[..l.slot]) == Some([]) else op.call.Put?)))
    && (op.res.Some? ==>
          op.lin.Some? && op.lin.value.ret == op.res.value.ret && op.lin.value.time <= op.res.value.time < h.clock)
  }

  // Every logged event belongs to exactly one operation.
  ghost predicate EventOk(h: History, k: int) {
    && 0 <= k < |h.log|
    && var e := h.log[k];
    && e.op < |h.ops| && e.time < h.clock && Changes(e.ret)
    && h.ops[e.op].call == e.call && h.ops[e.op].lin == Some(Lin(e.time, k, e.ret))
    && (k > 0 ==> h.log[k - 1].time < e.time)
  }

  // No two operations take effect in the same step.
  ghost predicate Apart(h: History, i: int, j: int) {
    && 0 <= i < |h.ops| && 0 <= j < |h.ops|
    && (i != j && h.ops[i].lin.Some? && h.ops[j].lin.Some? ==> h.ops[i].lin.value.time != h.ops[j].lin.value.time)
  }

  ghost predicate Linearizable(d: Discipline, h: History) {
    && Replay(d, h.log).Some?
    && (forall id {:trigger OpOk(d, h, id)} | 0 <= id < |h.ops| :: OpOk(d, h, id))
    && (forall k {:trigger EventOk(h, k)} | 0 <= k < |h.log| :: EventOk(h, k))
    && (forall i, j {:trigger Apart(h, i, j)} | 0 <= i < |h.ops| && 0 <= j < |h.ops| :: Apart(h, i, j))
  }

  // An operation that returned before another was called takes effect before it.
  lemma RealTimeOrder(d: Discipline, h: History, a: nat, b: nat)
    requires Linearizable(d, h) && a < |h.ops| && b < |h.ops|
    requires h.ops[a].res.Some? && h.ops[b].lin.Some? && h.ops[a].res.value.time < h.ops[b].inv
    ensures h.ops[a].lin.Some? && h.ops[a].lin.value.time < h.ops[b].lin.value.time
  {
    assert OpOk(d, h, a) && OpOk(d, h, b);
  }

  // What happens to operation id between h and h', nothing else changing but the clock.
  ghost predicate OnlyOp(h: History, h': History, id: int) {
    && 0 <= id < |h.ops| && |h'.ops| == |h.ops| && h'.log == h.log && h'.clock == h.clock + 1
    && (forall i | 0 <= i < |h.ops| && i != id :: h'.ops[i] == h.ops[i])
  }

  lemma TickKeeps(d: Discipline, h: History)
    requires Linearizable(d, h)
    ensures Linearizable(d, h.Tick())
  {
    var h' := h.Tick();
    forall i | 0 <= i < |h'.ops| ensures OpOk(d, h', i) { assert OpOk(d, h, i); }
    forall k | 0 <= k < |h'.log| ensures EventOk(h', k) { assert EventOk(h, k); }
    forall i, j | 0 <= i < |h'.ops| && 0 <= j < |h'.ops| ensures Apart(h', i, j) { assert Apart(h, i, j); }
  }

  lemma InvokeKeeps(d: Discipline, h: History, t: nat, call: Call)
    requires Linearizable(d, h)
    ensures Linearizable(d, h.Invoke(t, call))
  {
    var h' := h.Invoke(t, call);
    forall i | 0 <= i < |h'.ops| ensures OpOk(d, h', i) { if i < |h.ops| { assert OpOk(d, h, i); } }
    forall k | 0 <= k < |h'.log| ensures EventOk(h', k) { assert EventOk(h, k); }
    forall i, j | 0 <= i < |h'.ops| && 0 <= j < |h'.ops| ensures Apart(h', i, j) {
      if i < |h.ops| && j < |h.ops| { assert Apart(h, i, j); }
    }
  }

  // Changing one operation that has no event in the log keeps the rest in order.
  lemma OnlyOpKeeps(d: Discipline, h: History, h': History, id: nat)
    requires Linearizable(d, h) && OnlyOp(h, h', id) && OpOk(d, h', id)
    requires h'.ops[id].call == h.ops[id].call
    requires h'.ops[id].lin == h.ops[id].lin || h.ops[id].lin.None? || !Changes(h.ops[id].lin.value.ret)
    requires h'.ops[id].lin == h.ops[id].lin || h'.ops[id].lin.None? || h'.ops[id].lin.value.time == h.clock
    ensures Linearizable(d, h')
  {
    forall i | 0 <= i < |h'.ops| ensures OpOk(d, h', i) { assert OpOk(d, h, i); }
    forall k | 0 <= k < |h'.log| ensures EventOk(h', k) { assert EventOk(h, k); }
    forall i, j | 0 <= i < |h'.ops| && 0 <= j < |h'.ops| ensures Apart(h', i, j) {
      assert Apart(h, i, j) && OpOk(d, h, i) && OpOk(d, h, j);
    }
  }

  lemma ObserveKeeps(d: Discipline, h: History, id: nat, ret: Ret)
    requires Linearizable(d, h) && id < |h.ops| && h.ops[id].res.None?
    requires h.ops[id].lin.None? || !Changes(h.ops[id].lin.value.ret)
    requires if h.ops[id].call.Take? then ret == Empty && Replay(d, h.log) == Some([]) else ret == NoMemory
    ensures Linearizable(d, h.Observe(id, ret))
  {
    assert OpOk(d, h, id);
    assert h.log[..|h.log|] == h.log;
    if |h.log| > 0 { assert EventOk(h, |h.log| - 1); }
    OnlyOpKeeps(d, h, h.Observe(id, ret), id);
  }

  lemma RetractKeeps(d: Discipline, h: History, id: nat)
    requires Linearizable(d, h) && id < |h.ops| && h.ops[id].res.None?
    requires h.ops[id].lin.None? || !Changes(h.ops[id].lin.value.ret)
    ensures Linearizable(d, h.Retract(id))
  {
    assert OpOk(d, h, id);
    OnlyOpKeeps(d, h, h.Retract(id), id);
  }

  lemma ReturnKeeps(d: Discipline, h: History, id: nat, ret: Ret)
    requires Linearizable(d, h) && id < |h.ops| && h.ops[id].lin.Some? && h.ops[id].lin.value.ret == ret
    ensures Linearizable(d, h.Return(id, ret))
  {
    assert OpOk(d, h, id);
    OnlyOpKeeps(d, h, h.Return(id, ret), id);
  }

  // A new event at the end of the log does not disturb what happened before it.
  lemma EffectKeeps(d: Discipline, h: History, id: nat, ret: Ret)
    requires Linearizable(d, h) && id < |h.ops| && h.ops[id].res.None?
    requires h.ops[id].lin.None? || !Changes(h.ops[id].lin.value.ret)
    requires match h.ops[id].call
      case Put(_) => ret == Done
      case Take => ret.Got? && Replay(d, h.log).value != [] && Replay(d, h.log).value[0] == ret.v
    ensures var h' := h.Effect(id, ret);
      && Linearizable(d, h')
      && Replay(d, h'.log) == Some(match h.ops[id].call
           case Put(v) => if d.Fifo? then Replay(d, h.log).value + [v] else [v] + Replay(d, h.log).value
           case Take => Replay(d, h.log).value[1..])
  {
    var h' := h.Effect(id, ret);
    assert h'.log[..|h.log|] == h.log;
    assert OpOk(d, h, id);
    if |h.log| > 0 { assert EventOk(h, |h.log| - 1); }
    forall i | 0 <= i < |h'.ops| ensures OpOk(d, h', i) {
      if i != id { EffectSpares(d, h, id, ret, i); }
    }
    forall k | 0 <= k < |h'.log| ensures EventOk(h', k) {
      if k < |h.log| { assert EventOk(h, k); }
    }
    forall i, j | 0 <= i < |h'.ops| && 0 <= j < |h'.ops| ensures Apart(h', i, j) {
      assert Apart(h, i, j) && OpOk(d, h, i) && OpOk(d, h, j);
    }
  }

  lemma EffectSpares(d: Discipline, h: History, id: nat, ret: Ret, i: nat)
    requires Linearizable(d, h) && id < |h.ops| && i < |h.ops| && i != id
    ensures OpOk(d, h.Effect(id, ret), i)
  {
    var h' := h.Effect(id, ret);
    assert OpOk(d, h, i);
    if h.ops[i].lin.Some? {
      var m := h.ops[i].lin.value.slot;
      assert h'.log[..m] == h.log[..m];
    }
  }
}
