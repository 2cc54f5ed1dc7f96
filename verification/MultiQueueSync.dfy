/**
 * The locking of mini_rtos/src/multiqueue.c: any number of threads in mqueue_enqueue and mqueue_dequeue, two counting
 * semaphores and a mutex, as a transition system. A thread reads the list in one step and writes it in another.
 */
module MultiQueueSync {
  import opened Machine
  import opened MultiQueue
  import opened Options

  // seen is the list as the thread read it, at the number of its event in the log.
  datatype Thread =
    | Idle
    | EnqWait(item: Item)                      // before the wait on not_full
    | EnqLock(item: Item)                      // has a free-slot token, before the mutex
    | EnqAlloc(item: Item)                     // inside the mutex, before the allocations
    | EnqRead(item: Item)                      // before the walk along the list
    | EnqWrite(item: Item, seen: seq<Item>)    // before linking the item
    | EnqUnlock                                // item linked
    | EnqPost                                  // before the post on not_empty
    | EnqGiveUp                                // allocation failed, still inside the mutex
    | EnqPutBack                               // before the post that returns the token
    | DeqWait                                  // before the wait on not_empty
    | DeqLock                                  // has an item token, before the mutex
    | DeqCheck                                 // inside the mutex, before the test for an empty list
    | DeqRead                                  // before reading the list
    | DeqWrite(seen: seq<Item>)                // before unlinking the item
    | DeqUnlock(got: Item, at: nat)            // item unlinked
    | DeqPost(got: Item, at: nat)              // before the post on not_full
    | DeqReturn(got: Item, at: nat)            // before handing out the data
    | DeqFail                                  // found the list empty after a successful wait

  // What was done to the list, in the order in which it was done.
  datatype Event = Put(item: Item) | Took(item: Item)

  // log is auxiliary.
  datatype Shared = Shared(notFull: nat, notEmpty: nat, mutex: bool, items: seq<Item>, log: seq<Event>)
  datatype State = State(mem: Shared, threads: map<nat, Thread>)

  // Which call an idle thread makes and with what, whether a wait times out, whether an allocation fails.
  datatype Choice = Enqueue(item: Item, timeout: bool, noMemory: bool) | Dequeue(timeout: bool)

  function Init(max: nat, ids: set<nat>): State {
    State(Shared(max, 0, false, [], []), map t | t in ids :: Idle)
  }

  ghost function Next(ty: QueueType, m: Shared, th: Thread, c: Choice): (Shared, Thread) {
    match th
    case Idle => (m, if c.Enqueue? then EnqWait(c.item) else DeqWait)
    case EnqWait(x) =>
      if m.notFull > 0 then (m.(notFull := m.notFull - 1), EnqLock(x))
      else (m, if c.timeout then Idle else th)
    case EnqLock(x) => if m.mutex then (m, th) else (m.(mutex := true), EnqAlloc(x))
    case EnqAlloc(x) => (m, if c.Enqueue? && c.noMemory then EnqGiveUp else EnqRead(x))
    case EnqRead(x) => (m, EnqWrite(x, m.items))
    case EnqWrite(x, seen) => (m.(items := Inserted(ty, seen, x), log := m.log + [Put(x)]), EnqUnlock)
    case EnqUnlock => (m.(mutex := false), EnqPost)
    case EnqPost => (m.(notEmpty := m.notEmpty + 1), Idle)
    case EnqGiveUp => (m.(mutex := false), EnqPutBack)
    case EnqPutBack => (m.(notFull := m.notFull + 1), Idle)
    case DeqWait =>
      if m.notEmpty > 0 then (m.(notEmpty := m.notEmpty - 1), DeqLock)
      else (m, if c.timeout then Idle else DeqWait)
    case DeqLock => if m.mutex then (m, th) else (m.(mutex := true), DeqCheck)
    case DeqCheck => if m.items == [] then (m.(mutex := false), DeqFail) else (m, DeqRead)
    case DeqRead => (m, DeqWrite(m.items))
    case DeqWrite(seen) =>
      if seen == [] then (m, DeqFail)
      else
        var s := Turned(ty, seen);
        (m.(items := s[1..], log := m.log + [Took(s[0])]), DeqUnlock(s[0], |m.log|))
    case DeqUnlock(x, at) => (m.(mutex := false), DeqPost(x, at))
    case DeqPost(x, at) => (m.(notFull := m.notFull + 1), DeqReturn(x, at))
    case DeqReturn(_, _) => (m, Idle)
    case DeqFail => (m, Idle)
  }

  ghost function Step(ty: QueueType, s: State, t: nat, c: Choice): State
    requires t in s.threads
  {
    var (m, th) := Next(ty, s.mem, s.threads[t], c);
    State(m, s.threads[t := th])
  }

  // The sequential queue: what is in it after the logged operations ran one after the other, None as soon as one of
  // them took something the queue would not have handed out.
  ghost function Replay(ty: QueueType, log: seq<Event>): Option<seq<Item>> {
    if log == [] then Some([])
    else
      var before := Replay(ty, log[..|log| - 1]);
      if before.None? then None
      else match log[|log| - 1]
        case Put(x) => Some(Inserted(ty, before.value, x))
        case Took(x) =>
          if before.value != [] && Turned(ty, before.value)[0] == x then Some(Turned(ty, before.value)[1..]) else None
  }

  // ---- who holds which token
  // A free-slot token taken and neither turned into an item nor put back.
  predicate HasSlot(th: Thread) {
    th.EnqLock? || th.EnqAlloc? || th.EnqRead? || th.EnqWrite? || th.EnqGiveUp? || th.EnqPutBack?
  }

  // An item unlinked whose slot is not yet posted as free.
  predicate OwesSlot(th: Thread) {
    th.DeqUnlock? || th.DeqPost?
  }

  // An item token taken and not yet turned into an unlinked item.
  predicate HasItem(th: Thread) {
    th.DeqLock? || th.DeqCheck? || th.DeqRead? || th.DeqWrite?
  }

  // An item linked and not yet posted.
  predicate OwesItem(th: Thread) {
    th.EnqUnlock? || th.EnqPost?
  }

  predicate Inside(th: Thread) {
    || th.EnqAlloc? || th.EnqRead? || th.EnqWrite? || th.EnqUnlock? || th.EnqGiveUp?
    || th.DeqCheck? || th.DeqRead? || th.DeqWrite? || th.DeqUnlock?
  }

  function Who(s: State, p: Thread -> bool): set<nat> {
    set t | t in s.threads && p(s.threads[t])
  }

  // ---- the invariant
  ghost predicate Tally(max: nat, m: Shared, hasSlot: int, owesSlot: int, hasItem: int, owesItem: int, inside: int) {
    && m.notFull + hasSlot + |m.items| + owesSlot == max
    && |m.items| == m.notEmpty + hasItem + owesItem
    && 0 <= inside <= 1 && (m.mutex <==> inside == 1)
  }

  // What a thread has read is still so, and what it has taken is in the log.
  ghost predicate ThreadOk(m: Shared, th: Thread) {
    match th
    case EnqWrite(_, seen) => seen == m.items
    case DeqWrite(seen) => seen == m.items
    case DeqUnlock(x, at) => at < |m.log| && m.log[at] == Took(x)
    case DeqPost(x, at) => at < |m.log| && m.log[at] == Took(x)
    case DeqReturn(x, at) => at < |m.log| && m.log[at] == Took(x)
    case DeqFail => false
    case _ => true
  }

  ghost predicate Inv(max: nat, ty: QueueType, s: State) {
    && Tallied(max, s)
    && Replay(ty, s.mem.log) == Some(s.mem.items)
    && (forall t {:trigger ThreadOk(s.mem, s.threads[t])} | t in s.threads :: ThreadOk(s.mem, s.threads[t]))
  }

  lemma NextKeepsTally(max: nat, ty: QueueType, m: Shared, th: Thread, c: Choice, hs: nat, os: nat, hi: nat, oi: nat,
                       i: nat)
    requires Tally(max, m, hs, os, hi, oi, i) && ThreadOk(m, th)
    requires Bit(HasSlot(th)) <= hs && Bit(OwesSlot(th)) <= os && Bit(HasItem(th)) <= hi && Bit(OwesItem(th)) <= oi
    requires Bit(Inside(th)) <= i
    ensures var (m', th') := Next(ty, m, th, c);
      && Tally(max, m', hs + Bit(HasSlot(th')) - Bit(HasSlot(th)), os + Bit(OwesSlot(th')) - Bit(OwesSlot(th)),
               hi + Bit(HasItem(th')) - Bit(HasItem(th)), oi + Bit(OwesItem(th')) - Bit(OwesItem(th)),
               i + Bit(Inside(th')) - Bit(Inside(th)))
      && ThreadOk(m', th')
  {
  }

  // Only a thread inside the mutex writes the list, and it does to it what the sequential queue does.
  lemma NextKeepsList(ty: QueueType, m: Shared, th: Thread, c: Choice)
    requires ThreadOk(m, th) && Replay(ty, m.log) == Some(m.items) && (th.DeqWrite? ==> m.items != [])
    ensures var m' := Next(ty, m, th, c).0;
      && Replay(ty, m'.log) == Some(m'.items) && m.log <= m'.log
      && (m'.items != m.items ==> Inside(th))
  {
    var m' := Next(ty, m, th, c).0;
    if |m'.log| > |m.log| {
      assert m'.log[..|m'.log| - 1] == m.log;
    }
  }

  lemma Count(s: State, s': State, t: nat, p: Thread -> bool)
    requires t in s.threads && t in s'.threads && s'.threads == s.threads[t := s'.threads[t]]
    ensures |Who(s', p)| == |Who(s, p)| + Bit(p(s'.threads[t])) - Bit(p(s.threads[t]))
    ensures Bit(p(s.threads[t])) <= |Who(s, p)|
  {
    CardDiffer(Who(s, p), Who(s', p), t);
    if t in Who(s, p) { SubsetSize({t}, Who(s, p)); }
  }

  lemma OthersKeep(max: nat, ty: QueueType, s: State, t: nat, c: Choice, u: nat)
    requires Inv(max, ty, s) && t in s.threads && u in s.threads && u != t
    requires s.threads[t].DeqWrite? ==> s.mem.items != []
    ensures ThreadOk(Step(ty, s, t, c).mem, s.threads[u])
  {
    assert ThreadOk(s.mem, s.threads[t]) && ThreadOk(s.mem, s.threads[u]);
    NextKeepsList(ty, s.mem, s.threads[t], c);
    if Inside(s.threads[t]) && Inside(s.threads[u]) {
      SubsetSize({t, u}, Who(s, Inside));
    }
  }

  ghost predicate Tallied(max: nat, s: State) {
    Tally(max, s.mem, |Who(s, HasSlot)|, |Who(s, OwesSlot)|, |Who(s, HasItem)|, |Who(s, OwesItem)|, |Who(s, Inside)|)
  }

  lemma StepKeepsTally(max: nat, ty: QueueType, s: State, t: nat, c: Choice)
    requires Tallied(max, s) && t in s.threads && ThreadOk(s.mem, s.threads[t])
    ensures Tallied(max, Step(ty, s, t, c)) && ThreadOk(Step(ty, s, t, c).mem, Step(ty, s, t, c).threads[t])
    ensures s.threads[t].DeqWrite? ==> s.mem.items != []
  {
    var s' := Step(ty, s, t, c);
    Count(s, s', t, HasSlot);
    Count(s, s', t, OwesSlot);
    Count(s, s', t, HasItem);
    Count(s, s', t, OwesItem);
    Count(s, s', t, Inside);
    NextKeepsTally(max, ty, s.mem, s.threads[t], c, |Who(s, HasSlot)|, |Who(s, OwesSlot)|, |Who(s, HasItem)|,
                   |Who(s, OwesItem)|, |Who(s, Inside)|);
  }

  lemma StepKeepsInv(max: nat, ty: QueueType, s: State, t: nat, c: Choice)
    requires Inv(max, ty, s) && t in s.threads
    ensures Inv(max, ty, Step(ty, s, t, c))
  {
    var s' := Step(ty, s, t, c);
    assert ThreadOk(s.mem, s.threads[t]);
    StepKeepsTally(max, ty, s, t, c);
    NextKeepsList(ty, s.mem, s.threads[t], c);
    forall u | u in s'.threads ensures ThreadOk(s'.mem, s'.threads[u]) {
      if u != t { OthersKeep(max, ty, s, t, c, u); }
    }
  }

  // ---- whole runs
  ghost function After(ty: QueueType, s: State, w: seq<(nat, Choice)>): State {
    if w == [] then s
    else
      var before := After(ty, s, w[..|w| - 1]);
      var (t, c) := w[|w| - 1];
      if t in before.threads then Step(ty, before, t, c) else before
  }

  lemma {:induction false} RunInv(max: nat, ty: QueueType, ids: set<nat>, w: seq<(nat, Choice)>)
    ensures Inv(max, ty, After(ty, Init(max, ids), w))
  {
    if w == [] {
      var s := Init(max, ids);
      assert Who(s, HasSlot) == {} && Who(s, OwesSlot) == {} && Who(s, HasItem) == {} && Who(s, OwesItem) == {} &&
             Who(s, Inside) == {};
    } else {
      var k := |w| - 1;
      RunInv(max, ty, ids, w[..k]);
      var before := After(ty, Init(max, ids), w[..k]);
      if w[k].0 in before.threads {
        StepKeepsInv(max, ty, before, w[k].0, w[k].1);
      }
    }
  }

  // Free-slot tokens, tokens in the hands of threads and items always add up to max_items; the queue never holds more
  // than max_items; a thread that got an item token always finds an item; the mutex admits one thread at a time.
  lemma EveryRunIsBounded(max: nat, ty: QueueType, ids: set<nat>, w: seq<(nat, Choice)>)
    ensures var s := After(ty, Init(max, ids), w);
      && s.mem.notFull + |Who(s, HasSlot)| + |s.mem.items| + |Who(s, OwesSlot)| == max
      && |s.mem.items| == s.mem.notEmpty + |Who(s, HasItem)| + |Who(s, OwesItem)|
      && |s.mem.items| <= max
      && |Who(s, Inside)| <= 1
      && (forall t | t in s.threads :: s.threads[t] != DeqFail && (s.threads[t].DeqCheck? ==> s.mem.items != []))
  {
    RunInv(max, ty, ids, w);
    var s := After(ty, Init(max, ids), w);
    forall t | t in s.threads ensures s.threads[t] != DeqFail && (s.threads[t].DeqCheck? ==> s.mem.items != []) {
      assert ThreadOk(s.mem, s.threads[t]);
      if s.threads[t].DeqCheck? { SubsetSize({t}, Who(s, HasItem)); }
    }
  }

  // Under every interleaving the list is what the sequential queue holds after the operations in the order in which
  // they went through the mutex, and every dequeue returns what the sequential queue handed out there.
  lemma EveryRunIsSequential(max: nat, ty: QueueType, ids: set<nat>, w: seq<(nat, Choice)>)
    ensures var s := After(ty, Init(max, ids), w);
      && Replay(ty, s.mem.log) == Some(s.mem.items)
      && (forall t | t in s.threads && s.threads[t].DeqReturn? ::
            s.threads[t].at < |s.mem.log| && s.mem.log[s.threads[t].at] == Took(s.threads[t].got))
  {
    RunInv(max, ty, ids, w);
    var s := After(ty, Init(max, ids), w);
    forall t | t in s.threads && s.threads[t].DeqReturn?
      ensures s.threads[t].at < |s.mem.log| && s.mem.log[s.threads[t].at] == Took(s.threads[t].got)
    {
      assert ThreadOk(s.mem, s.threads[t]);
    }
  }

  // ---- progress
  // n steps of thread t alone.
  ghost function Alone(ty: QueueType, s: State, t: nat, c: Choice, n: nat): (r: State)
    requires t in s.threads
    ensures t in r.threads
  {
    if n == 0 then s else Step(ty, Alone(ty, s, t, c, n - 1), t, c)
  }

  ghost function Iterate(ty: QueueType, m: Shared, th: Thread, c: Choice, n: nat): (Shared, Thread) {
    if n == 0 then (m, th)
    else
      var (m', th') := Iterate(ty, m, th, c, n - 1);
      Next(ty, m', th', c)
  }

  lemma {:induction false} AloneIs(ty: QueueType, s: State, t: nat, c: Choice, n: nat)
    requires t in s.threads
    ensures var (m, th) := Iterate(ty, s.mem, s.threads[t], c, n); Alone(ty, s, t, c, n) == State(m, s.threads[t := th])
  {
    if n == 0 {
      assert s.threads[t := s.threads[t]] == s.threads;
    } else {
      AloneIs(ty, s, t, c, n - 1);
    }
  }

  lemma IterateStep(ty: QueueType, m: Shared, th: Thread, c: Choice, n: nat)
    ensures var (m', th') := Iterate(ty, m, th, c, n); Iterate(ty, m, th, c, n + 1) == Next(ty, m', th', c)
  {
  }

  // An idle thread that enqueues x alone, with a free slot and memory, is done after eight steps: x is in its place.
  lemma EnqueueAlone(ty: QueueType, s: State, t: nat, c: Choice)
    requires t in s.threads && s.threads[t].Idle? && !s.mem.mutex && s.mem.notFull > 0 && c.Enqueue? && !c.noMemory
    ensures var s' := Alone(ty, s, t, c, 8);
      && s'.threads == s.threads[t := Idle] && s'.mem.items == Inserted(ty, s.mem.items, c.item) && !s'.mem.mutex
      && s'.mem.notFull == s.mem.notFull - 1 && s'.mem.notEmpty == s.mem.notEmpty + 1
  {
    AloneIs(ty, s, t, c, 8);
    EnqueueEnters(ty, s.mem, c);
    EnqueuePuts(ty, s.mem, c);
    EnqueueEnds(ty, s.mem, c, Inserted(ty, s.mem.items, c.item), s.mem.log + [Put(c.item)]);
  }

  lemma EnqueueEnters(ty: QueueType, m: Shared, c: Choice)
    requires !m.mutex && m.notFull > 0 && c.Enqueue? && !c.noMemory
    ensures Iterate(ty, m, Idle, c, 4) == (m.(notFull := m.notFull - 1, mutex := true), EnqRead(c.item))
  {
    IterateStep(ty, m, Idle, c, 0);
    IterateStep(ty, m, Idle, c, 1);
    IterateStep(ty, m, Idle, c, 2);
    IterateStep(ty, m, Idle, c, 3);
  }

  lemma EnqueuePuts(ty: QueueType, m: Shared, c: Choice)
    requires m.notFull > 0
    requires c.Enqueue? && Iterate(ty, m, Idle, c, 4) == (m.(notFull := m.notFull - 1, mutex := true), EnqRead(c.item))
    ensures Iterate(ty, m, Idle, c, 6) ==
            (Shared(m.notFull - 1, m.notEmpty, true, Inserted(ty, m.items, c.item), m.log + [Put(c.item)]), EnqUnlock)
  {
    IterateStep(ty, m, Idle, c, 4);
    IterateStep(ty, m, Idle, c, 5);
  }

  lemma EnqueueEnds(ty: QueueType, m: Shared, c: Choice, items: seq<Item>, log: seq<Event>)
    requires m.notFull > 0
    requires Iterate(ty, m, Idle, c, 6) == (Shared(m.notFull - 1, m.notEmpty, true, items, log), EnqUnlock)
    ensures Iterate(ty, m, Idle, c, 8) == (Shared(m.notFull - 1, m.notEmpty + 1, false, items, log), Idle)
  {
    IterateStep(ty, m, Idle, c, 6);
    IterateStep(ty, m, Idle, c, 7);
  }

  // With no memory it is done after six steps, and nothing has changed.
  lemma EnqueueFailsAlone(ty: QueueType, s: State, t: nat, c: Choice)
    requires t in s.threads && s.threads[t].Idle? && !s.mem.mutex && s.mem.notFull > 0 && c.Enqueue? && c.noMemory
    ensures Alone(ty, s, t, c, 6) == s
  {
    var m := s.mem;
    AloneIs(ty, s, t, c, 6);
    IterateStep(ty, m, Idle, c, 0);
    IterateStep(ty, m, Idle, c, 1);
    IterateStep(ty, m, Idle, c, 2);
    IterateStep(ty, m, Idle, c, 3);
    IterateStep(ty, m, Idle, c, 4);
    IterateStep(ty, m, Idle, c, 5);
    assert s.threads[t := Idle] == s.threads;
  }

  // An idle thread that dequeues alone, with an item posted, hands out after eight steps what the queue hands out.
  lemma DequeueAlone(ty: QueueType, s: State, t: nat, c: Choice)
    requires t in s.threads && s.threads[t].Idle? && !s.mem.mutex && s.mem.notEmpty > 0 && s.mem.items != []
    requires c.Dequeue?
    ensures var s', q := Alone(ty, s, t, c, 8), Turned(ty, s.mem.items);
      && s'.threads == s.threads[t := DeqReturn(q[0], |s.mem.log|)] && s'.mem.items == q[1..] && !s'.mem.mutex
      && s'.mem.notFull == s.mem.notFull + 1 && s'.mem.notEmpty == s.mem.notEmpty - 1
    ensures Alone(ty, s, t, c, 9).threads == s.threads
  {
    AloneIs(ty, s, t, c, 8);
    DequeueEnters(ty, s.mem, c);
    DequeueTakes(ty, s.mem, c);
    var q := Turned(ty, s.mem.items);
    DequeueEnds(ty, s.mem, c, q[1..], s.mem.log + [Took(q[0])], q[0]);
    assert s.threads[t := Idle] == s.threads;
  }

  lemma DequeueEnters(ty: QueueType, m: Shared, c: Choice)
    requires !m.mutex && m.notEmpty > 0 && m.items != [] && c.Dequeue?
    ensures Iterate(ty, m, Idle, c, 4) == (m.(notEmpty := m.notEmpty - 1, mutex := true), DeqRead)
  {
    IterateStep(ty, m, Idle, c, 0);
    IterateStep(ty, m, Idle, c, 1);
    IterateStep(ty, m, Idle, c, 2);
    IterateStep(ty, m, Idle, c, 3);
  }

  lemma DequeueTakes(ty: QueueType, m: Shared, c: Choice)
    requires m.notEmpty > 0 && m.items != []
    requires Iterate(ty, m, Idle, c, 4) == (m.(notEmpty := m.notEmpty - 1, mutex := true), DeqRead)
    ensures var q := Turned(ty, m.items);
      Iterate(ty, m, Idle, c, 6) ==
      (Shared(m.notFull, m.notEmpty - 1, true, q[1..], m.log + [Took(q[0])]), DeqUnlock(q[0], |m.log|))
  {
    IterateStep(ty, m, Idle, c, 4);
    IterateStep(ty, m, Idle, c, 5);
  }

  lemma DequeueEnds(ty: QueueType, m: Shared, c: Choice, items: seq<Item>, log: seq<Event>, got: Item)
    requires m.notEmpty > 0
    requires Iterate(ty, m, Idle, c, 6) ==
             (Shared(m.notFull, m.notEmpty - 1, true, items, log), DeqUnlock(got, |m.log|))
    ensures Iterate(ty, m, Idle, c, 8) ==
            (Shared(m.notFull + 1, m.notEmpty - 1, false, items, log), DeqReturn(got, |m.log|))
  {
    IterateStep(ty, m, Idle, c, 6);
    IterateStep(ty, m, Idle, c, 7);
  }

  // Without a token a thread waits until its time is up, and nothing changes.
  lemma WaitsForToken(ty: QueueType, s: State, t: nat, c: Choice)
    requires t in s.threads && (s.threads[t].EnqWait? || s.threads[t].DeqWait?)
    requires if s.threads[t].EnqWait? then s.mem.notFull == 0 else s.mem.notEmpty == 0
    ensures Step(ty, s, t, c) == State(s.mem, s.threads[t := if c.timeout then Idle else s.threads[t]])
  {
  }

  // In every run, an item posted is an item in the list.
  lemma PostedMeansItem(max: nat, ty: QueueType, ids: set<nat>, w: seq<(nat, Choice)>)
    ensures var s := After(ty, Init(max, ids), w); s.mem.notEmpty > 0 ==> s.mem.items != []
  {
    RunInv(max, ty, ids, w);
  }
}
