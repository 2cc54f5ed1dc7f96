/**
 * Priority inheritance over mutexes, scheduler_features.c: a task that finds a mutex taken lends its priority to the
 * owner, and the boost travels along the chain of owners that are blocked themselves. Smaller numbers are more urgent.
 */
module PriorityInheritance {
  class Task {
    var prio: int
    var blockedOn: Mutex?
    // state & TASK_UNINTERRUPTIBLE
    var uninterruptible: bool

    constructor (prio: int)
      ensures this.prio == prio && blockedOn == null && !uninterruptible
    {
      this.prio, blockedOn, uninterruptible := prio, null, false;
    }
  }

  class Mutex {
    var owner: Task?
    var waiters: seq<Task>

    constructor (owner: Task?)
      ensures this.owner == owner && waiters == []
    {
      this.owner, waiters := owner, [];
    }
  }

  // The task that t waits for.
  function Blocker(t: Task): Task?
    reads t`blockedOn, (if t.blockedOn == null then {} else {t.blockedOn})`owner
  {
    if t.blockedOn == null then null else t.blockedOn.owner
  }

  function Mutexes(all: set<Task>): set<Mutex>
    reads all`blockedOn
  {
    set t | t in all && t.blockedOn != null :: t.blockedOn
  }

  // The owner of the lock that t waits for is at least as urgent as t.
  ghost predicate Served(t: Task)
    reads t`blockedOn, t`prio, (if t.blockedOn == null then {} else {t.blockedOn})`owner
    reads (if Blocker(t) == null then {} else {Blocker(t)})`prio
  {
    Blocker(t) != null ==> Blocker(t).prio <= t.prio
  }

  ghost predicate Closed(all: set<Task>)
    reads all`blockedOn, Mutexes(all)`owner
  {
    forall t | t in all :: Blocker(t) != null ==> Blocker(t) in all
  }

  // A choice of priorities that serves every task.
  ghost predicate Serves(q: map<Task, int>, all: set<Task>)
    reads all`blockedOn, Mutexes(all)`owner
  {
    q.Keys == all && forall t | t in all && Blocker(t) in all :: q[Blocker(t)] <= q[t]
  }

  ghost predicate AtLeastAsUrgent(q: map<Task, int>, all: set<Task>)
    reads all`prio
  {
    q.Keys == all && forall t | t in all :: q[t] <= t.prio
  }

  ghost function LessUrgent(all: set<Task>, prio: int): set<Task>
    reads all`prio
  {
    set t | t in all && t.prio > prio
  }

  // propagate_priority_inheritance. Only the first task may be badly served; at the end nobody is. No task is boosted
  // without need: every other choice of priorities that serves all is at least as urgent everywhere.
  method Propagate(task0: Task, ghost all: set<Task>)
    requires task0 in all && Closed(all)
    requires forall t | t in all && t != task0 :: Served(t)
    modifies all`prio
    ensures forall t | t in all :: Served(t) && t.prio <= old(t.prio)
    ensures forall t | t in all :: t.prio == old(t.prio) || t.prio == old(task0.prio)
    ensures forall q | Serves(q, all) && old(AtLeastAsUrgent(q, all)) :: AtLeastAsUrgent(q, all)
  {
    var task := task0;
    while task.blockedOn != null
      invariant task in all && task.prio == task0.prio == old(task0.prio)
      invariant forall t | t in all && t != task :: Served(t)
      invariant forall t | t in all :: t.prio <= old(t.prio)
      invariant forall t | t in all :: t.prio == old(t.prio) || t.prio == old(task0.prio)
      invariant forall q | Serves(q, all) && old(AtLeastAsUrgent(q, all)) :: AtLeastAsUrgent(q, all)
      decreases LessUrgent(all, old(task0.prio))
    {
      var owner := task.blockedOn.owner;
      if owner == null || owner.prio <= task.prio {
        break;
      }
      assert owner == Blocker(task) && owner in LessUrgent(all, old(task0.prio));
      owner.prio := task.prio;
      task := owner;
      assert owner !in LessUrgent(all, old(task0.prio));
    }
  }

  // The boost branch of pi_mutex_lock, for a task that queues up behind the owner of a mutex. All tasks are served in
  // the end exactly if no boost was needed, or the owner was marked as blocked so that the boost was passed on, or
  // there was nobody less urgent to pass it on to.
  method Contend(mutex: Mutex, task: Task, ghost all: set<Task>)
    requires mutex.owner != null && mutex.owner in all && task in all && Closed(all)
    requires task.blockedOn == null || task.blockedOn == mutex
    requires forall t | t in all && t != task :: Served(t)
    modifies all`prio, mutex`waiters
    ensures mutex.waiters == old(mutex.waiters) + [task]
    ensures mutex.owner.prio <= task.prio == old(task.prio)
    ensures forall t | t in all :: t.prio == old(t.prio) || t.prio == task.prio < old(t.prio)
    ensures (forall t | t in all :: Served(t)) <==>
            old(task.prio >= mutex.owner.prio || mutex.owner.uninterruptible || NothingToPassOn(mutex.owner, task.prio))
    ensures forall q | Serves(q, all) && old(AtLeastAsUrgent(q, all)) && q[mutex.owner] <= q[task] ::
              AtLeastAsUrgent(q, all)
  {
    var owner := mutex.owner;
    mutex.waiters := mutex.waiters + [task];
    if task.prio < owner.prio {
      owner.prio := task.prio;
      if owner.uninterruptible {
        Propagate(owner, all);
      }
    }
  }

  // The failing side of the condition: a waiter at 1 boosts an owner at 3, which waits for a task at 2 without being
  // marked as blocked. The boost stops there.
  method BoostStops() returns (waiter: Task, owner: Task, last: Task)
    ensures !Served(owner) && Blocker(owner) == last && waiter.prio == owner.prio < last.prio
  {
    waiter := new Task(1);
    owner := new Task(3);
    last := new Task(2);
    var mutex := new Mutex(owner);
    var other := new Mutex(last);
    owner.blockedOn := other;
    Contend(mutex, waiter, {waiter, owner, last});
  }

  // Boosting owner to prio leaves nothing to pass on.
  ghost predicate NothingToPassOn(owner: Task, prio: int)
    reads owner`blockedOn, (if owner.blockedOn == null then {} else {owner.blockedOn})`owner
    reads (if Blocker(owner) == null then {} else {Blocker(owner)})`prio
  {
    Blocker(owner) == null || Blocker(owner) == owner || Blocker(owner).prio <= prio
  }
}
