/**
 The ticket lock of spinlock.c (raw_spin_*) as a transition system: one step is one atomic access of one thread.

 issued and served are auxiliary: next_ticket and owner_ticket as they would be without the 32-bit wrap-around.
 */
module TicketLock {
  import opened Machine

  const NO_CPU: uint32 := 0xffff_ffff

  // full is the unwrapped ticket; seen the unwrapped next_ticket at the time trylock read it.
  datatype Thread =
    | Idle
    | Wait(ticket: uint32, full: nat)
    | Won(full: nat)
    | Held(full: nat, cpu: uint32)
    | Unlocking(full: nat)
    | TryCompare(ticket: uint32, seen: nat)
    | TrySwap(ticket: uint32, seen: nat)

  datatype State = State(
    next: uint32, owner: uint32, cpu: uint32, threads: map<nat, Thread>,
    issued: nat, served: nat, holder: map<nat, nat>, grants: seq<nat>)

  function Init(ids: set<nat>): State {
    State(0, 0, NO_CPU, map t | t in ids :: Idle, 0, 0, map[], [])
  }

  // What the environment decides: which operation an idle thread calls, and on which processor it runs.
  datatype Choice = Choice(try: bool, cpu: uint32)

  // Thread t draws the next ticket.
  function Draw(s: State, t: nat): State {
    s.(next := Wrap(s.next + 1), issued := s.issued + 1, holder := s.holder[s.issued := t])
  }

  function Step(s: State, t: nat, c: Choice): State
    requires t in s.threads
  {
    match s.threads[t]
    case Idle =>
      if c.try then s.(threads := s.threads[t := TryCompare(s.next, s.issued)])
      else Draw(s, t).(threads := s.threads[t := Wait(s.next, s.issued)])
    case Wait(ticket, full) =>
      if s.owner == ticket then s.(threads := s.threads[t := Won(full)], grants := s.grants + [full]) else s
    case Won(full) => s.(cpu := c.cpu, threads := s.threads[t := Held(full, c.cpu)])
    case Held(full, _) => s.(cpu := NO_CPU, threads := s.threads[t := Unlocking(full)])
    case Unlocking(full) =>
      s.(owner := Wrap(s.owner + 1), served := s.served + 1, threads := s.threads[t := Idle])
    case TryCompare(ticket, seen) =>
      s.(threads := s.threads[t := if ticket == s.owner then TrySwap(ticket, seen) else Idle])
    case TrySwap(ticket, seen) =>
      if s.next == ticket then
        Draw(s, t).(threads := s.threads[t := Won(s.issued)], grants := s.grants + [s.issued])
      else s.(threads := s.threads[t := Idle])
  }

  // The swap of a trylock does not succeed while a ticket is outstanding.
  predicate SwapsWhenFree(s: State, t: nat) {
    t in s.threads && (s.threads[t].TrySwap? && s.next == s.threads[t].ticket ==> s.served == s.issued)
  }

  // ---- the invariant
  predicate Ticketed(th: Thread) {
    th.Wait? || th.Won? || th.Held? || th.Unlocking?
  }

  // Between winning the lock and giving it back.
  predicate Inside(th: Thread) {
    th.Won? || th.Held? || th.Unlocking?
  }

  ghost predicate ThreadOk(s: State, t: nat) {
    && t in s.threads
    && var th := s.threads[t];
    && (Ticketed(th) ==> s.served <= th.full < s.issued && th.full in s.holder && s.holder[th.full] == t)
    && (th.Wait? ==> th.ticket == Wrap(th.full))
    && (Inside(th) ==> th.full == s.served && |s.grants| == s.served + 1)
    && (th.Held? ==> s.cpu == th.cpu)
    && (th.TryCompare? || th.TrySwap? ==> th.seen <= s.issued && th.ticket == Wrap(th.seen))
    && (th.TrySwap? && s.issued == th.seen ==> s.served == s.issued)
  }

  // Every ticket drawn and not yet served is in the hands of the thread that drew it.
  ghost predicate TicketOk(s: State, k: int) {
    && 0 <= k && k in s.holder && s.holder[k] in s.threads
    && Ticketed(s.threads[s.holder[k]]) && s.threads[s.holder[k]].full == k
  }

  // The invariant without the 32-bit counters, which only three steps look at.
  ghost predicate Core(s: State) {
    && s.served <= s.issued
    && (forall t {:trigger ThreadOk(s, t)} | t in s.threads :: ThreadOk(s, t))
    && (forall k {:trigger TicketOk(s, k)} | s.served <= k < s.issued :: TicketOk(s, k))
    && s.served <= |s.grants| <= s.served + 1
    && (forall i | 0 <= i < |s.grants| :: s.grants[i] == i)
    && (|s.grants| == s.served + 1 ==>
          s.served < s.issued && TicketOk(s, s.served) && Inside(s.threads[s.holder[s.served]]))
    && (s.cpu != NO_CPU ==> s.served < s.issued && TicketOk(s, s.served) && s.threads[s.holder[s.served]].Held?)
  }

  ghost predicate Inv(s: State) {
    && |s.threads| < TWO32 && s.next == Wrap(s.issued) && s.owner == Wrap(s.served) && Core(s)
  }

  // There are at most as many outstanding tickets as threads.
  lemma {:induction false} TicketsAreThreads(s: State, k: nat) returns (ts: set<nat>)
    requires Inv(s) && s.served <= k <= s.issued
    ensures ts <= s.threads.Keys && |ts| == k - s.served
    ensures forall t | t in ts :: t in s.threads && Ticketed(s.threads[t]) && s.threads[t].full < k
    decreases k
  {
    if k == s.served {
      ts := {};
    } else {
      ts := TicketsAreThreads(s, k - 1);
      assert TicketOk(s, k - 1);
      ts := ts + {s.holder[k - 1]};
    }
  }

  lemma Bounded(s: State)
    requires Inv(s)
    ensures s.issued - s.served < TWO32
  {
    var ts := TicketsAreThreads(s, s.issued);
    assert s.threads.Keys == ts + (s.threads.Keys - ts);
  }

  lemma SameTicket(a: nat, b: nat)
    requires Wrap(a) == Wrap(b) && a <= b < a + TWO32
    ensures a == b
  {
  }

  // What equal 32-bit tickets mean for the unwrapped ones, for the step thread t takes next.
  ghost predicate Matches(s: State, t: nat)
    requires t in s.threads
  {
    var th := s.threads[t];
    && (th.Wait? && s.owner == th.ticket ==> th.full == s.served)
    && (th.TryCompare? && s.owner == th.ticket && s.issued == th.seen ==> s.served == s.issued)
    && (th.TrySwap? && s.next == th.ticket ==> s.served == s.issued)
  }

  lemma OwnStep(s: State, t: nat, c: Choice)
    requires Core(s) && t in s.threads && s.next == Wrap(s.issued) && Matches(s, t)
    ensures ThreadOk(Step(s, t, c), t)
  {
    assert ThreadOk(s, t);
  }

  lemma OtherStep(s: State, t: nat, c: Choice, u: nat)
    requires Core(s) && t in s.threads && Matches(s, t) && u in s.threads && u != t
    ensures ThreadOk(Step(s, t, c), u)
  {
    assert ThreadOk(s, t) && ThreadOk(s, u);
  }

  lemma StepKeepsCore(s: State, t: nat, c: Choice)
    requires Core(s) && t in s.threads && s.next == Wrap(s.issued) && Matches(s, t)
    ensures Core(Step(s, t, c))
  {
    var s' := Step(s, t, c);
    forall u | u in s'.threads ensures ThreadOk(s', u) {
      if u == t { OwnStep(s, t, c); } else { OtherStep(s, t, c, u); }
    }
    TicketStep(s, t, c);
    assert ThreadOk(s, t);
  }

  // Tickets stay with the threads that drew them.
  lemma TicketStep(s: State, t: nat, c: Choice)
    requires Core(s) && t in s.threads && Matches(s, t)
    ensures var s' := Step(s, t, c); forall k {:trigger TicketOk(s', k)} | s'.served <= k < s'.issued :: TicketOk(s', k)
  {
    var s' := Step(s, t, c);
    assert ThreadOk(s, t);
    forall k | s'.served <= k < s'.issued ensures TicketOk(s', k) { if k < s.issued { assert TicketOk(s, k); } }
  }

  lemma StepKeepsInv(s: State, t: nat, c: Choice)
    requires Inv(s) && SwapsWhenFree(s, t)
    ensures Inv(Step(s, t, c))
  {
    var th := s.threads[t];
    assert ThreadOk(s, t);
    Bounded(s);
    if th.Wait? && s.owner == th.ticket { SameTicket(s.served, th.full); }
    if th.TryCompare? && th.ticket == s.owner && s.issued == th.seen { SameTicket(s.served, s.issued); }
    StepKeepsCore(s, t, c);
    WrapAdd(s.issued, 1);
    WrapAdd(s.served, 1);
    assert s.threads.Keys == Step(s, t, c).threads.Keys;
  }

  // That is the exact condition: a swap that succeeds keeps the invariant if and only if no ticket is outstanding.
  lemma SwapKeepsInvIff(s: State, t: nat, c: Choice)
    requires Inv(s) && t in s.threads && s.threads[t].TrySwap? && s.next == s.threads[t].ticket
    ensures Inv(Step(s, t, c)) <==> s.served == s.issued
  {
    var s' := Step(s, t, c);
    assert ThreadOk(s', t) ==> s'.threads[t].full == s'.served;
    if s.served == s.issued { StepKeepsInv(s, t, c); }
  }

  // It holds as long as next_ticket does not run through a whole cycle between trylock's read and its swap.
  lemma NoFullCycleSuffices(s: State, t: nat)
    requires Inv(s) && t in s.threads && (s.threads[t].TrySwap? ==> s.issued - s.threads[t].seen < TWO32)
    ensures SwapsWhenFree(s, t)
  {
    var th := s.threads[t];
    assert ThreadOk(s, t);
    if th.TrySwap? && s.next == th.ticket { SameTicket(th.seen, s.issued); }
  }

  // ---- exclusion
  // The thread is inside, or it is its turn and its own next step takes it there.
  predicate Entitled(s: State, t: nat) {
    t in s.threads && (Inside(s.threads[t]) || (s.threads[t].Wait? && s.threads[t].ticket == s.owner))
  }

  lemma EntitledEnters(s: State, t: nat, c: Choice)
    requires Entitled(s, t)
    ensures Inside(s.threads[t]) || Inside(Step(s, t, c).threads[t])
  {
  }

  ghost predicate Exclusive(s: State) {
    forall t, u {:trigger Entitled(s, t), Entitled(s, u)} | Entitled(s, t) && Entitled(s, u) :: t == u
  }

  lemma InvIsExclusive(s: State)
    requires Inv(s)
    ensures Exclusive(s)
  {
    Bounded(s);
    forall t, u | Entitled(s, t) && Entitled(s, u) ensures t == u {
      assert ThreadOk(s, t) && ThreadOk(s, u);
      if s.threads[t].Wait? { SameTicket(s.served, s.threads[t].full); }
      if s.threads[u].Wait? { SameTicket(s.served, s.threads[u].full); }
    }
  }

  // A swap that succeeds keeps the lock exclusive if and only if no ticket is outstanding. Otherwise the thread whose
  // turn it is is another one, and both are inside at once or after one more step of that thread.
  lemma SwapIsExclusiveIff(s: State, t: nat, c: Choice)
    requires Inv(s) && t in s.threads && s.threads[t].TrySwap? && s.next == s.threads[t].ticket
    ensures Exclusive(Step(s, t, c)) <==> s.served == s.issued
    ensures s.served < s.issued ==> exists u | u in s.threads && u != t ::
              Entitled(Step(s, t, c), t) && Entitled(Step(s, t, c), u)
  {
    var s' := Step(s, t, c);
    if s.served == s.issued {
      StepKeepsInv(s, t, c);
      InvIsExclusive(s');
    } else {
      assert TicketOk(s, s.served);
      var u := s.holder[s.served];
      assert ThreadOk(s, u) && Entitled(s', t) && Entitled(s', u);
    }
  }

  // ---- progress
  // With no ticket outstanding, a trylock that takes its steps undisturbed gets the lock, with the ticket that was
  // next.
  lemma TrylockAlone(s: State, t: nat, c: Choice)
    requires Inv(s) && t in s.threads && s.threads[t].Idle? && c.try && s.served == s.issued
    ensures var s' := Step(Step(Step(s, t, c), t, c), t, c); s'.threads[t] == Won(s.issued) && s'.issued == s.issued + 1
  {
  }

  // A trylock fails only if a ticket is outstanding when it compares, or next_ticket has moved since it read it.
  lemma TrylockFailsOnlyIf(s: State, t: nat, c: Choice)
    requires Inv(s) && t in s.threads && Step(s, t, c).threads[t].Idle?
    ensures s.threads[t].TryCompare? ==> s.served < s.issued || s.threads[t].seen < s.issued
    ensures s.threads[t].TrySwap? ==> s.threads[t].seen < s.issued
  {
    assert ThreadOk(s, t);
  }

  // With no ticket outstanding, a lock that takes its steps undisturbed gets the lock.
  lemma LockAlone(s: State, t: nat, c: Choice)
    requires Inv(s) && t in s.threads && s.threads[t].Idle? && !c.try && s.served == s.issued
    ensures var s' := Step(Step(s, t, c), t, c); s'.threads[t] == Won(s.issued) && s'.issued == s.issued + 1
  {
  }

  // A thread that has won holds the lock on its processor, and two more steps give it back and end the call.
  lemma HolderAlone(s: State, t: nat, c: Choice)
    requires Inv(s) && t in s.threads && s.threads[t].Won?
    ensures var s' := Step(s, t, c); s'.threads[t].Held? && s'.cpu == c.cpu
    ensures var s' := Step(Step(Step(s, t, c), t, c), t, c);
      s'.threads[t].Idle? && s'.cpu == NO_CPU && s'.served == s.served + 1
  {
  }

  // Giving the lock back makes it the turn of the thread with the next ticket, if there is one.
  lemma UnlockPassesOn(s: State, t: nat, c: Choice)
    requires Inv(s) && t in s.threads && s.threads[t].Unlocking? && s.served + 1 < s.issued
    ensures var s' := Step(s, t, c); s.served + 1 in s.holder && Entitled(s', s.holder[s.served + 1])
  {
    assert ThreadOk(s, t) && TicketOk(s, s.served + 1);
    var u := s.holder[s.served + 1];
    assert ThreadOk(s, u);
    WrapAdd(s.served, 1);
  }

  // ---- whole runs
  function After(s: State, w: seq<(nat, Choice)>): State {
    if w == [] then s
    else
      var before := After(s, w[..|w| - 1]);
      var (t, c) := w[|w| - 1];
      if t in before.threads then Step(before, t, c) else before
  }

  // No swap of a trylock succeeds while a ticket is outstanding.
  ghost predicate Orderly(s: State, w: seq<(nat, Choice)>) {
    w != [] ==>
      var before, t := After(s, w[..|w| - 1]), w[|w| - 1].0;
      Orderly(s, w[..|w| - 1]) && (t in before.threads ==> SwapsWhenFree(before, t))
  }

  lemma {:induction false} RunInv(ids: set<nat>, w: seq<(nat, Choice)>)
    requires |ids| < TWO32 && Orderly(Init(ids), w)
    ensures Inv(After(Init(ids), w))
  {
    if w == [] {
      var s := Init(ids);
      assert s.threads.Keys == ids;
      forall t | t in s.threads ensures ThreadOk(s, t) {}
    } else {
      var k := |w| - 1;
      RunInv(ids, w[..k]);
      var before := After(Init(ids), w[..k]);
      if w[k].0 in before.threads {
        StepKeepsInv(before, w[k].0, w[k].1);
      }
    }
  }

  ghost predicate AlwaysExclusive(s: State, w: seq<(nat, Choice)>) {
    Exclusive(After(s, w)) && (w != [] ==> AlwaysExclusive(s, w[..|w| - 1]))
  }

  // Over every run: the lock is exclusive all along if and only if no swap succeeds while a ticket is outstanding.
  lemma {:induction false} RunIsExclusiveIff(ids: set<nat>, w: seq<(nat, Choice)>)
    requires |ids| < TWO32
    ensures AlwaysExclusive(Init(ids), w) <==> Orderly(Init(ids), w)
  {
    var s := Init(ids);
    if w == [] {
      RunInv(ids, w);
      InvIsExclusive(s);
    } else {
      var k := |w| - 1;
      RunIsExclusiveIff(ids, w[..k]);
      if Orderly(s, w[..k]) {
        RunInv(ids, w[..k]);
        var before, t := After(s, w[..k]), w[k].0;
        if t in before.threads && !SwapsWhenFree(before, t) {
          SwapIsExclusiveIff(before, t, w[k].1);
        } else {
          RunInv(ids, w);
          InvIsExclusive(After(s, w));
        }
      }
    }
  }

  // In such a run the lock is granted in the order 0, 1, 2, ... of the tickets, none skipped, to one thread at a time;
  // owner_cpu names the processor of the thread that holds it.
  lemma EveryRunIsExclusiveAndFair(ids: set<nat>, w: seq<(nat, Choice)>)
    requires |ids| < TWO32 && Orderly(Init(ids), w)
    ensures var s := After(Init(ids), w);
      && (forall t, u | t in s.threads && u in s.threads && Inside(s.threads[t]) && Inside(s.threads[u]) :: t == u)
      && (forall i | 0 <= i < |s.grants| :: s.grants[i] == i)
      && (forall t | t in s.threads && Inside(s.threads[t]) :: s.threads[t].full == |s.grants| - 1)
      && (forall t | t in s.threads && s.threads[t].Held? :: s.cpu == s.threads[t].cpu)
  {
    RunInv(ids, w);
    var s := After(Init(ids), w);
    forall t | t in s.threads ensures ThreadOk(s, t) {}
  }

  // Over every run: a trylock that ends without the lock met an outstanding ticket, or next_ticket had moved.
  lemma FailedTrylockHadReason(ids: set<nat>, w: seq<(nat, Choice)>, t: nat, c: Choice)
    requires |ids| < TWO32 && Orderly(Init(ids), w)
    requires var s := After(Init(ids), w); t in s.threads && (s.threads[t].TryCompare? || s.threads[t].TrySwap?)
    requires After(Init(ids), w + [(t, c)]).threads[t].Idle?
    ensures var s := After(Init(ids), w);
      (s.threads[t].TryCompare? && s.served < s.issued) || s.threads[t].seen < s.issued
  {
    RunInv(ids, w);
    AfterStep(Init(ids), w, t, c);
    TrylockFailsOnlyIf(After(Init(ids), w), t, c);
  }

  // ---- a run that lets two threads in
  lemma AfterStep(s: State, w: seq<(nat, Choice)>, t: nat, c: Choice)
    requires t in After(s, w).threads
    ensures After(s, w + [(t, c)]) == Step(After(s, w), t, c)
  {
    assert (w + [(t, c)])[..|w|] == w;
  }

  // Thread 0 is about to swap with the ticket 0 it read at the start, and thread 1 is at th; issued tickets have been
  // drawn since, and served of them given back.
  ghost predicate At(s: State, th: Thread, issued: nat, served: nat) {
    && s.threads.Keys == {0, 1} && s.threads[0] == TrySwap(0, 0) && s.threads[1] == th
    && s.next == Wrap(issued) && s.owner == Wrap(served) && s.issued == issued && s.served == served
  }

  // One more step of thread 1, which takes it from th to th'.
  lemma Goes(s: State, w: seq<(nat, Choice)>, th: Thread, issued: nat, served: nat) returns (w': seq<(nat, Choice)>)
    requires At(After(s, w), th, issued, served) && (th.Wait? ==> th.ticket == Wrap(served))
    requires th.Idle? || th.Wait? || th.Won? || th.Held? || th.Unlocking?
    ensures |w'| == |w| + 1
    ensures match th
      case Idle => At(After(s, w'), Wait(Wrap(issued), issued), issued + 1, served)
      case Wait(_, full) => At(After(s, w'), Won(full), issued, served)
      case Won(full) => At(After(s, w'), Held(full, 0), issued, served)
      case Held(full, _) => At(After(s, w'), Unlocking(full), issued, served)
      case Unlocking(_) => At(After(s, w'), Idle, issued, served + 1)
  {
    w' := w + [(1, Choice(false, 0))];
    AfterStep(s, w, 1, Choice(false, 0));
    WrapAdd(issued, 1);
    WrapAdd(served, 1);
  }

  lemma Draws(s: State, w: seq<(nat, Choice)>, k: nat) returns (w': seq<(nat, Choice)>)
    requires At(After(s, w), Idle, k, k)
    ensures |w'| == |w| + 2 && At(After(s, w'), Won(k), k + 1, k)
  {
    w' := Goes(s, w, Idle, k, k);
    w' := Goes(s, w', Wait(Wrap(k), k), k + 1, k);
  }

  lemma GivesBack(s: State, w: seq<(nat, Choice)>, k: nat) returns (w': seq<(nat, Choice)>)
    requires At(After(s, w), Won(k), k + 1, k)
    ensures |w'| == |w| + 3 && At(After(s, w'), Idle, k + 1, k + 1)
  {
    w' := Goes(s, w, Won(k), k + 1, k);
    w' := Goes(s, w', Held(k, 0), k + 1, k);
    w' := Goes(s, w', Unlocking(k), k + 1, k);
  }

  // Thread 1 takes and gives back the lock k times.
  lemma {:induction false} Rounds(s: State, w: seq<(nat, Choice)>, k: nat) returns (w': seq<(nat, Choice)>)
    requires At(After(s, w), Idle, 0, 0)
    ensures |w'| == |w| + 5 * k && At(After(s, w'), Idle, k, k)
    decreases k
  {
    w' := w;
    if k > 0 {
      w' := Rounds(s, w, k - 1);
      w' := Draws(s, w', k - 1);
      w' := GivesBack(s, w', k - 1);
    }
  }

  // Thread 0 calls trylock and reads ticket 0; thread 1 takes and gives back the lock 2^32 - 1 times and takes it once
  // more; next_ticket is 0 again, thread 0's swap succeeds, and both threads are inside.
  lemma FullCycleBreaksTrylock() returns (w: seq<(nat, Choice)>)
    ensures |w| == 5 * TWO32
    ensures var s := After(Init({0, 1}), w);
      s.threads.Keys == {0, 1} && Inside(s.threads[0]) && Inside(s.threads[1])
  {
    var s := Init({0, 1});
    w := FirstSteps();
    w := Rounds(s, w, TWO32 - 1);
    w := Draws(s, w, TWO32 - 1);
    w := LastStep(s, w, TWO32 - 1);
  }

  lemma FirstSteps() returns (w: seq<(nat, Choice)>)
    ensures |w| == 2 && At(After(Init({0, 1}), w), Idle, 0, 0)
  {
    var s, c := Init({0, 1}), Choice(true, 0);
    w := [] + [(0, c)];
    AfterStep(s, [], 0, c);
    AfterStep(s, w, 0, c);
    w := w + [(0, c)];
  }

  lemma LastStep(s: State, w: seq<(nat, Choice)>, k: nat) returns (w': seq<(nat, Choice)>)
    requires At(After(s, w), Won(k), k + 1, k) && k == TWO32 - 1
    ensures |w'| == |w| + 1
    ensures var s' := After(s, w'); s'.threads.Keys == {0, 1} && Inside(s'.threads[0]) && Inside(s'.threads[1])
  {
    w' := w + [(0, Choice(true, 0))];
    AfterStep(s, w, 0, Choice(true, 0));
  }
}
