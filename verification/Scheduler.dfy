/**
 * The priority scheduler of mini_rtos/src/scheduler.c under SCHED_PRIORITY: tasks are queued in a red-black tree by a
 * key made of their priority and id, and priority inheritance changes the priorities of tasks that are queued.
 */
module Scheduler {
  import opened Arithmetic
  import opened Machine
  import opened RedBlackTree
  import opened TaskControl

  const ID_LIMIT: int := 0x100_0000

  // ---- priority_key
  function Or(x: nat, y: nat): nat {
    if x == 0 then y else 2 * Or(x / 2, y / 2) + if x % 2 == 1 || y % 2 == 1 then 1 else 0
  }

  lemma {:induction false} OrIsSum(k: nat, p: nat, y: nat)
    requires y < Pow2(k)
    ensures Or(p * Pow2(k), y) == p * Pow2(k) + y
    decreases k
  {
    if p == 0 {
    } else if k == 0 {
      OrZero(p);
    } else {
      var q := Pow2(k - 1);
      assert p * Pow2(k) == 2 * (p * q);
      OrIsSum(k - 1, p, y / 2);
    }
  }

  lemma {:induction false} OrZero(x: nat)
    ensures Or(x, 0) == x
  {
    if x != 0 { OrZero(x / 2); }
  }

  // UINT32_MAX - (priority << 24 | id)
  function Key(priority: uint8, id: uint32): uint32 {
    Wrap(0xffff_ffff - Or(priority * 0x100_0000, id))
  }

  function PriorityKey(t: Task): uint32
    reads t`priority
  {
    Key(t.priority, t.id)
  }

  // For ids of at most 24 bits the keys order the tasks by priority, then by id, both downwards.
  lemma KeyOrder(p: uint8, i: uint32, q: uint8, j: uint32)
    requires i < ID_LIMIT && j < ID_LIMIT
    ensures Key(p, i) < Key(q, j) <==> p > q || (p == q && i > j)
    ensures Key(p, i) == Key(q, j) <==> p == q && i == j
  {
    KeyIs(p, i);
    KeyIs(q, j);
  }

  lemma KeyIs(p: uint8, i: uint32)
    requires i < ID_LIMIT
    ensures Key(p, i) == 0xffff_ffff - (p * 0x100_0000 + i)
  {
    assert Pow2(24) == 0x100_0000 by { Pow2Of24(); }
    OrIsSum(24, p, i);
  }

  lemma Pow2Of24()
    ensures Pow2(24) == 0x100_0000
  {
    assert Pow2(8) == 0x100;
    Pow2Adds(8, 8);
    Pow2Adds(16, 8);
  }

  // A number of more than k bits has a bit that or-ing it in again does not change.
  lemma {:induction false} OrAbsorbs(y: nat, k: nat) returns (b: nat)
    requires y >= Pow2(k)
    ensures b >= k && Pow2(b) <= y && Or(Pow2(b), y) == y
    decreases y
  {
    if k == 0 && y % 2 == 1 {
      b := 0;
      assert Or(0, y / 2) == y / 2;
    } else {
      b := OrAbsorbs(y / 2, if k == 0 then 0 else k - 1);
      b := b + 1;
      assert Pow2(b) / 2 == Pow2(b - 1) && Pow2(b) % 2 == 0;
    }
  }

  // The key of a task tells its priority if and only if its id has at most 24 bits.
  lemma KeyTellsPriorityIff(i: uint32)
    ensures (forall p: uint8, q: uint8 :: Key(p, i) == Key(q, i) ==> p == q) <==> i < ID_LIMIT
  {
    Pow2Of24();
    if i < ID_LIMIT {
      forall p: uint8, q: uint8 ensures Key(p, i) == Key(q, i) ==> p == q {
        KeyOrder(p, i, q, i);
      }
    } else {
      var b := OrAbsorbs(i, 24);
      Pow2Of32();
      if b >= 32 { Pow2Mono(32, b); }
      Pow2Adds(b - 24, 24);
      Pow2Mono(b - 24, 7);
      var q: uint8 := Pow2(b - 24);
      assert Key(q, i) == Key(0, i) && q != 0;
    }
  }

  // ---- the nodes of the tree in order, and the tasks they queue
  ghost function Tasks(o: seq<Node>): (ts: seq<Task?>)
    ensures |ts| == |o| && forall i | 0 <= i < |o| :: ts[i] == o[i].task
  {
    seq(|o|, i requires 0 <= i < |o| => o[i].task)
  }

  // A task is queued as often as it has nodes.
  ghost function QueuedIn(o: seq<Node>): multiset<Task?> {
    multiset(Tasks(o))
  }

  ghost function TaskSet(o: seq<Node>): set<Task> {
    set n | n in o && n.task != null :: n.task
  }

  ghost predicate EntryFits(o: seq<Node>, i: int) {
    0 <= i < |o| && o[i].task != null && o[i].task.id < ID_LIMIT
  }

  ghost predicate SameId(o: seq<Node>, i: int, j: int) {
    EntryFits(o, i) && EntryFits(o, j) && (o[i].task.id == o[j].task.id ==> o[i].task == o[j].task)
  }

  // Ids fit into the key, and no two tasks share one.
  ghost predicate Fits(o: seq<Node>) {
    && (forall i {:trigger EntryFits(o, i)} | 0 <= i < |o| :: EntryFits(o, i))
    && (forall i, j {:trigger SameId(o, i, j)} | 0 <= i < |o| && 0 <= j < |o| :: SameId(o, i, j))
  }

  ghost predicate IdFits(t: Task, queued: multiset<Task?>) {
    t.id < ID_LIMIT && forall u: Task | u in queued :: u.id == t.id ==> u == t
  }

  ghost predicate KeyOk(o: seq<Node>, i: int)
    reads TaskSet(o)`priority
  {
    0 <= i < |o| && o[i].task != null && o[i].key == PriorityKey(o[i].task)
  }

  // Every stored key is the key of its task.
  ghost predicate Keyed(o: seq<Node>)
    reads TaskSet(o)`priority
  {
    forall i {:trigger KeyOk(o, i)} | 0 <= i < |o| :: KeyOk(o, i)
  }

  ghost predicate KeyWas(o: seq<Node>, t: Task, p: uint8, i: int)
    reads (TaskSet(o) - {t})`priority
  {
    && 0 <= i < |o| && o[i].task != null
    && o[i].key == if o[i].task == t then Key(p, t.id) else PriorityKey(o[i].task)
  }

  // Every stored key was the key of its task when t had priority p.
  ghost predicate KeyedWith(o: seq<Node>, t: Task, p: uint8)
    reads (TaskSet(o) - {t})`priority
  {
    forall i {:trigger KeyWas(o, t, p, i)} | 0 <= i < |o| :: KeyWas(o, t, p, i)
  }

  ghost function InsertedAt(o: seq<Node>, i: nat, z: Node): seq<Node>
    requires i <= |o|
  {
    o[..i] + [z] + o[i..]
  }

  // o without its i-th node; i < 0 stands for no node.
  ghost function RemovedAt(o: seq<Node>, i: int): seq<Node>
    requires i < |o|
  {
    if i < 0 then o else o[..i] + o[i + 1..]
  }

  lemma QueuedInsert(o: seq<Node>, i: nat, z: Node)
    requires i <= |o|
    ensures QueuedIn(InsertedAt(o, i, z)) == QueuedIn(o) + multiset{z.task}
  {
    var ts := Tasks(o);
    assert Tasks(InsertedAt(o, i, z)) == ts[..i] + [z.task] + ts[i..];
    assert ts == ts[..i] + ts[i..];
  }

  lemma QueuedSet(o: seq<Node>)
    ensures forall t: Task :: t in QueuedIn(o) <==> t in TaskSet(o)
  {
    forall t: Task ensures t in QueuedIn(o) <==> t in TaskSet(o) {
      if t in QueuedIn(o) {
        var i :| 0 <= i < |o| && Tasks(o)[i] == t;
        assert o[i] in o;
      }
      if t in TaskSet(o) {
        var i :| 0 <= i < |o| && o[i].task == t;
        assert Tasks(o)[i] == t;
      }
    }
  }

  lemma QueuedRemove(o: seq<Node>, i: nat)
    requires i < |o|
    ensures QueuedIn(RemovedAt(o, i)) == QueuedIn(o) - multiset{o[i].task} && o[i].task in QueuedIn(o)
  {
    var ts := Tasks(o);
    assert Tasks(RemovedAt(o, i)) == ts[..i] + ts[i + 1..];
    assert ts == ts[..i] + [ts[i]] + ts[i + 1..];
  }

  lemma FitsInsert(o: seq<Node>, i: nat, z: Node)
    requires Fits(o) && i <= |o| && z.task != null && IdFits(z.task, QueuedIn(o))
    ensures Fits(InsertedAt(o, i, z))
  {
    var p := InsertedAt(o, i, z);
    forall j | 0 <= j < |p| ensures EntryFits(p, j) && (j != i ==> p[j].task in QueuedIn(o)) {
      if j != i {
        var j' := if j < i then j else j - 1;
        assert EntryFits(o, j') && Tasks(o)[j'] == p[j].task;
      }
    }
    forall j, k | 0 <= j < |p| && 0 <= k < |p| ensures SameId(p, j, k) {
      assert EntryFits(p, j) && EntryFits(p, k);
      if j != i && k != i {
        assert SameId(o, if j < i then j else j - 1, if k < i then k else k - 1);
      }
    }
  }

  lemma FitsRemove(o: seq<Node>, i: int)
    requires Fits(o) && i < |o|
    ensures Fits(RemovedAt(o, i))
  {
    var p := RemovedAt(o, i);
    forall j | 0 <= j < |p| ensures EntryFits(p, j) {
      assert EntryFits(o, if i < 0 || j < i then j else j + 1);
    }
    forall j, k | 0 <= j < |p| && 0 <= k < |p| ensures SameId(p, j, k) {
      assert SameId(o, if i < 0 || j < i then j else j + 1, if i < 0 || k < i then k else k + 1);
    }
  }

  // A node under its task's key joins: the keys are in order exactly if they were.
  lemma KeyedInsert(o: seq<Node>, i: nat, z: Node)
    requires i <= |o| && z.task != null && z.key == PriorityKey(z.task)
    ensures Keyed(InsertedAt(o, i, z)) <==> Keyed(o)
  {
    var p := InsertedAt(o, i, z);
    assert p[i] == z;
    forall j | 0 <= j < |p| && j != i ensures KeyOk(p, j) <==> KeyOk(o, if j < i then j else j - 1) {
      SameKey(o, p, if j < i then j else j - 1, j);
    }
    forall j | 0 <= j < |o| ensures KeyOk(o, j) <==> KeyOk(p, if j < i then j else j + 1) {
      SameKey(o, p, j, if j < i then j else j + 1);
    }
  }

  lemma SameKey(o: seq<Node>, p: seq<Node>, j: nat, k: nat)
    requires j < |o| && k < |p| && o[j] == p[k]
    ensures KeyOk(o, j) <==> KeyOk(p, k)
  {
  }

  lemma KeyedRemove(o: seq<Node>, i: int)
    requires i < |o| && Keyed(o)
    ensures Keyed(RemovedAt(o, i))
  {
    var p := RemovedAt(o, i);
    forall j | 0 <= j < |p| ensures KeyOk(p, j) {
      assert KeyOk(o, if i < 0 || j < i then j else j + 1);
    }
  }

  // o' is o with one node of t taken out, if there was one that could be found, and a new one put in.
  ghost predicate Requeued(o: seq<Node>, o': seq<Node>, t: Task, gone: int, back: int)
    reads t`priority
  {
    && gone < |o| && (gone >= 0 ==> o[gone].task == t)
    && 0 <= back < |o'| && |o'| == |RemovedAt(o, gone)| + 1
    && o' == InsertedAt(RemovedAt(o, gone), back, o'[back])
    && o'[back].task == t && o'[back].key == PriorityKey(t)
  }

  lemma RemovedBound(o: seq<Node>, i: int, t: Task)
    requires i < |o| && (i >= 0 ==> o[i].task == t)
    ensures QueuedIn(RemovedAt(o, i)) <= QueuedIn(o) <= QueuedIn(RemovedAt(o, i)) + multiset{t}
    ensures (i >= 0 <==> t in QueuedIn(o)) ==> QueuedIn(RemovedAt(o, i)) == QueuedIn(o) - multiset{t}
  {
    if i >= 0 { QueuedRemove(o, i); }
  }

  lemma FitsStill(o: seq<Node>, i: int, t: Task)
    requires i < |o| && IdFits(t, QueuedIn(o))
    ensures IdFits(t, QueuedIn(RemovedAt(o, i)))
  {
    if i >= 0 { QueuedRemove(o, i); }
  }

  lemma RequeueBound(o: seq<Node>, o': seq<Node>, t: Task, gone: int, back: int)
    requires Requeued(o, o', t, gone, back)
    ensures QueuedIn(o') <= QueuedIn(o) + multiset{t}
  {
    if gone >= 0 { QueuedRemove(o, gone); }
    QueuedInsert(RemovedAt(o, gone), back, o'[back]);
  }

  // The exact condition for the stored keys to survive a change of t's priority from p: t has at most one node.
  lemma RequeueKeyedIff(o: seq<Node>, o': seq<Node>, t: Task, p: uint8, gone: int, back: int)
    requires Fits(o) && t.id < ID_LIMIT && KeyedWith(o, t, p) && Requeued(o, o', t, gone, back)
    requires gone >= 0 <==> t in QueuedIn(o)
    ensures QueuedIn(o') == QueuedIn(o) - multiset{t} + multiset{t}
    ensures Keyed(o') <==> QueuedIn(o)[t] <= 1 || t.priority == p
  {
    var r := RemovedAt(o, gone);
    QueuedInsert(r, back, o'[back]);
    KeyedInsert(r, back, o'[back]);
    if gone >= 0 { QueuedRemove(o, gone); }
    forall j | 0 <= j < |r| ensures KeyWas(r, t, p, j) {
      assert KeyWas(o, t, p, if gone < 0 || j < gone then j else j + 1);
    }
    KeyOrder(p, t.id, t.priority, t.id);
    if t in QueuedIn(r) {
      var j :| 0 <= j < |r| && Tasks(r)[j] == t;
      assert KeyWas(r, t, p, j) && (KeyOk(r, j) <==> t.priority == p);
      if t.priority == p {
        forall k | 0 <= k < |r| ensures KeyOk(r, k) { assert KeyWas(r, t, p, k); }
      }
    } else {
      forall k | 0 <= k < |r| ensures KeyOk(r, k) {
        assert KeyWas(r, t, p, k) && Tasks(r)[k] != t;
      }
    }
  }

  // ---- what get_next_task makes of it
  // No queued task is more urgent than the first one.
  ghost predicate FirstIsUrgent(o: seq<Node>)
    reads TaskSet(o)`priority
  {
    o != [] && o[0].task != null && forall u | u in TaskSet(o) :: u.priority <= o[0].task.priority
  }

  lemma UrgentByKey(o: seq<Node>)
    requires Fits(o) && o != [] && o[0].task != null && PriorityKey(o[0].task) <= o[0].key
    requires forall i | 0 <= i < |o| && o[i].task != null :: o[0].key <= PriorityKey(o[i].task)
    ensures FirstIsUrgent(o)
  {
    assert EntryFits(o, 0);
    forall u | u in TaskSet(o) ensures u.priority <= o[0].task.priority {
      var i :| 0 <= i < |o| && o[i].task == u;
      assert EntryFits(o, i);
      KeyOrder(u.priority, u.id, o[0].task.priority, o[0].task.id);
    }
  }

  lemma KeyedIsUrgent(o: seq<Node>)
    requires Fits(o) && Keyed(o) && Tree.Ascending(o) && o != []
    ensures FirstIsUrgent(o)
  {
    assert EntryFits(o, 0) && KeyOk(o, 0);
    forall i | 0 <= i < |o| && o[i].task != null ensures o[0].key <= PriorityKey(o[i].task) {
      assert KeyOk(o, i) && (i > 0 ==> Tree.Leq(o, 0, i));
    }
    UrgentByKey(o);
  }

  // The nodes after a change of t's priority from p: the new one, and old ones under their old keys.
  lemma RequeuedKeys(o: seq<Node>, o': seq<Node>, t: Task, p: uint8, gone: int, back: int, i: nat)
    requires KeyedWith(o, t, p) && Requeued(o, o', t, gone, back) && i < |o'| && i != back
    ensures o'[i] in o && o'[i].task != null
    ensures o'[i].key == if o'[i].task == t then Key(p, t.id) else PriorityKey(o'[i].task)
  {
    var k := RequeuedFrom(o, RemovedAt(o, gone), o', gone, back, i);
    assert KeyWas(o, t, p, k);
  }

  lemma RequeuedFrom(o: seq<Node>, r: seq<Node>, o': seq<Node>, gone: int, back: nat, i: nat) returns (k: nat)
    requires gone < |o| && r == RemovedAt(o, gone) && back < |o'| == |r| + 1 && o' == InsertedAt(r, back, o'[back])
    requires i < |o'| && i != back
    ensures k < |o| && o'[i] == o[k]
  {
    var j := if i < back then i else i - 1;
    assert o'[i] == r[j];
    k := if gone < 0 || j < gone then j else j + 1;
  }

  // An inheritance never misleads get_next_task: what it leaves behind is less urgent than the new node.
  lemma InheritKeepsUrgent(o: seq<Node>, o': seq<Node>, t: Task, p: uint8, gone: int, back: int)
    requires Fits(o') && KeyedWith(o, t, p) && Requeued(o, o', t, gone, back) && Tree.Ascending(o') && p <= t.priority
    ensures FirstIsUrgent(o')
  {
    assert EntryFits(o', back) && EntryFits(o', 0);
    KeyOrder(t.priority, t.id, p, t.id);
    if back != 0 { RequeuedKeys(o, o', t, p, gone, back, 0); }
    forall i | 0 <= i < |o'| && o'[i].task != null ensures o'[0].key <= PriorityKey(o'[i].task) {
      assert (i > 0 ==> Tree.Leq(o', 0, i)) && (back > 0 ==> Tree.Leq(o', 0, back));
      if i != back { RequeuedKeys(o, o', t, p, gone, back, i); }
    }
    UrgentByKey(o');
  }

  // After a release no key is smaller than the first one was.
  lemma ReleaseBound(o: seq<Node>, o': seq<Node>, t: Task, p: uint8, gone: int, back: int, i: nat)
    requires KeyedWith(o, t, p) && Requeued(o, o', t, gone, back) && Tree.Ascending(o) && gone >= 0
    requires t.id < ID_LIMIT && t.priority <= p && i < |o'|
    ensures o[0].key <= o'[i].key && o[0].key <= Key(p, t.id) <= PriorityKey(t)
  {
    KeyOrder(t.priority, t.id, p, t.id);
    assert KeyWas(o, t, p, gone) && (gone > 0 ==> Tree.Leq(o, 0, gone));
    if i != back {
      RequeuedKeys(o, o', t, p, gone, back, i);
      var k :| 0 <= k < |o| && o[k] == o'[i];
      assert k > 0 ==> Tree.Leq(o, 0, k);
    }
  }

  // A second node of t is still there.
  lemma SecondNode(o: seq<Node>, o': seq<Node>, t: Task, gone: int, back: int) returns (j: nat)
    requires Requeued(o, o', t, gone, back) && gone >= 0 && QueuedIn(o)[t] > 1
    ensures j < |o'| && j != back && o'[j].task == t
  {
    var r := RemovedAt(o, gone);
    QueuedRemove(o, gone);
    assert t in QueuedIn(r);
    var k :| 0 <= k < |r| && Tasks(r)[k] == t;
    j := if k < back then k else k + 1;
  }

  // Two nodes under one key belong to one task.
  lemma KeyOwner(a: Task, p: uint8, b: Task, q: uint8)
    requires a.id < ID_LIMIT && b.id < ID_LIMIT && Key(p, a.id) == Key(q, b.id)
    ensures a.id == b.id
  {
    KeyOrder(p, a.id, q, b.id);
  }

  // t came first and has a second node: it still comes first.
  lemma ReleasedStaysFirst(o: seq<Node>, o': seq<Node>, t: Task, p: uint8, gone: int, back: int)
    requires Fits(o') && KeyedWith(o, t, p) && Requeued(o, o', t, gone, back)
    requires Tree.Ascending(o) && Tree.Ascending(o') && gone >= 0 && QueuedIn(o)[t] > 1
    requires t.id < ID_LIMIT && t.priority <= p && o[0].task == t
    ensures o'[0].task == t
  {
    var j := SecondNode(o, o', t, gone, back);
    RequeuedKeys(o, o', t, p, gone, back, j);
    assert KeyWas(o, t, p, 0) && (j > 0 ==> Tree.Leq(o', 0, j));
    ReleaseBound(o, o', t, p, gone, back, 0);
    if back != 0 {
      RequeuedKeys(o, o', t, p, gone, back, 0);
      assert EntryFits(o', 0) && SameId(o', 0, j);
      if o'[0].task != t { KeyOwner(t, p, o'[0].task, o'[0].task.priority); }
    }
  }

  // Another task came first: it still does, and rightly.
  lemma ReleasedStaysBehind(o: seq<Node>, o': seq<Node>, t: Task, p: uint8, gone: int, back: int)
    requires Fits(o) && Fits(o') && KeyedWith(o, t, p) && Requeued(o, o', t, gone, back)
    requires Tree.Ascending(o) && Tree.Ascending(o') && gone > 0
    requires t.id < ID_LIMIT && t.priority <= p && o[0].task != t
    ensures FirstIsUrgent(o')
  {
    assert KeyWas(o, t, p, 0) && EntryFits(o, 0) && EntryFits(o, gone) && SameId(o, 0, gone);
    var i0 := if back > 0 then 0 else 1;
    assert o'[i0] == o[0] && (i0 > 0 ==> Tree.Leq(o', 0, i0)) && EntryFits(o', 0);
    ReleaseBound(o, o', t, p, gone, back, 0);
    if back != 0 {
      RequeuedKeys(o, o', t, p, gone, back, 0);
    } else {
      KeyOwner(t, t.priority, o[0].task, o[0].task.priority);
    }
    forall i | 0 <= i < |o'| && o'[i].task != null ensures o'[0].key <= PriorityKey(o'[i].task) {
      ReleaseBound(o, o', t, p, gone, back, i);
      if i != back { RequeuedKeys(o, o', t, p, gone, back, i); }
    }
    UrgentByKey(o');
  }

  // The exact condition for get_next_task to be right after a release, over any queue: t had at most one node, or did
  // not come first, or nobody is more urgent than it is now.
  lemma ReleaseUrgentIff(o: seq<Node>, o': seq<Node>, t: Task, p: uint8, gone: int, back: int)
    requires Fits(o) && Fits(o') && KeyedWith(o, t, p) && Requeued(o, o', t, gone, back)
    requires Tree.Ascending(o) && Tree.Ascending(o') && t.id < ID_LIMIT && t.priority <= p
    requires gone >= 0 <==> t in QueuedIn(o)
    ensures FirstIsUrgent(o') <==>
            QueuedIn(o)[t] <= 1 || o[0].task != t || forall u | u in TaskSet(o') :: u.priority <= t.priority
    ensures !FirstIsUrgent(o') ==> o'[0].task == t
  {
    if QueuedIn(o)[t] <= 1 {
      RequeueKeyedIff(o, o', t, p, gone, back);
      KeyedIsUrgent(o');
    } else if o[0].task == t {
      ReleasedStaysFirst(o, o', t, p, gone, back);
    } else {
      ReleasedStaysBehind(o, o', t, p, gone, back);
    }
  }

  // Different ids make different keys, so equal keys never mislead rb_find_task.
  lemma EqualKeys(o: seq<Node>, i: nat, j: nat)
    requires Fits(o) && Keyed(o) && i < |o| && j < |o| && o[i].key == o[j].key
    ensures o[i].task == o[j].task
  {
    assert EntryFits(o, i) && EntryFits(o, j) && KeyOk(o, i) && KeyOk(o, j) && SameId(o, i, j);
    KeyOrder(o[i].task.priority, o[i].task.id, o[j].task.priority, o[j].task.id);
  }

  // The priorities of all tasks in o but t are what they were.
  twostate predicate OthersSame(o: seq<Node>, new t: Task?)
    reads TaskSet(o)`priority
  {
    forall i | 0 <= i < |o| && o[i].task != null && o[i].task != t :: o[i].task.priority == old(o[i].task.priority)
  }

  twostate lemma KeysStay(o: seq<Node>)
    requires OthersSame(o, null)
    ensures Keyed(o) <==> old(Keyed(o))
  {
    forall i | 0 <= i < |o| ensures KeyOk(o, i) <==> old(KeyOk(o, i)) {}
  }

  twostate lemma KeysWere(o: seq<Node>, new t: Task, new p: uint8)
    requires OthersSame(o, t) && old(Keyed(o))
    requires forall i | 0 <= i < |o| && o[i].task == t :: old(o[i].task.priority) == p
    ensures KeyedWith(o, t, p)
  {
    forall i | 0 <= i < |o| ensures KeyWas(o, t, p, i) { assert old(KeyOk(o, i)); }
  }

  class Scheduler {
    const priorityTree: Tree
    // stats.priority_inversions
    var inversions: uint32

    ghost function Queued(): multiset<Task?>
      reads priorityTree`order
    {
      QueuedIn(priorityTree.order)
    }

    ghost predicate Valid()
      reads priorityTree, priorityTree.nil, priorityTree.nodes
    {
      priorityTree.Valid() && Fits(priorityTree.order)
    }

    constructor ()
      ensures Valid() && Queued() == multiset{} && Keyed(priorityTree.order)
      ensures fresh(priorityTree) && fresh(priorityTree.nil) && priorityTree.nodes == {}
    {
      priorityTree := new Tree();
      inversions := 0;
    }

    // rb_find_task finds only nodes of the task, and finds one if there is one and the stored keys are right.
    method FindTask(task: Task) returns (node: Node?)
      requires Valid()
      ensures node != null ==> node in priorityTree.nodes && node.task == task
      ensures Keyed(priorityTree.order) ==> (node != null <==> task in Queued())
    {
      FindTaskFinds(task);
      node := priorityTree.FindTaskNode(task, PriorityKey(task));
      KeysStay(priorityTree.order);
    }

    lemma FindTaskFinds(task: Task)
      requires Valid()
      ensures priorityTree.root == priorityTree.nil || priorityTree.root in priorityTree.nodes
      ensures var n := RedBlackTree.FindTask(priorityTree.ShapeAt(priorityTree.root), task, PriorityKey(task));
        && (n != null ==> n in priorityTree.nodes && n.task == task && task in Queued())
        && (Keyed(priorityTree.order) && task in Queued() ==> n != null)
    {
      var tree, o := priorityTree, priorityTree.order;
      tree.ShapeIsRedBlack();
      var n := RedBlackTree.FindTask(tree.ShapeAt(tree.root), task, PriorityKey(task));
      if n != null {
        var i :| 0 <= i < |o| && o[i] == n;
        assert tree.SlotOk(i) && Tasks(o)[i] == task;
      }
      if Keyed(o) && task in Queued() {
        var i :| 0 <= i < |o| && Tasks(o)[i] == task;
        assert tree.SlotOk(i) && tree.LinkOk(o[i]) && KeyOk(o, i);
        forall m | m in tree.nodes && m.key == o[i].key ensures m.task == task {
          assert tree.LinkOk(m);
          EqualKeys(o, m.pos, i);
        }
        tree.FindsSomeNode(tree.root, o[i]);
      }
    }

    // scheduler_add_task: a new node of the task, whether it has one already or not.
    method PutIn(task: Task) returns (ghost i: nat)
      requires Valid() && IdFits(task, Queued())
      modifies priorityTree, priorityTree.nodes
      ensures Valid() && i <= |old(priorityTree.order)| < |priorityTree.order|
      ensures priorityTree.order[i].task == task && priorityTree.order[i].key == PriorityKey(task)
      ensures priorityTree.order == InsertedAt(old(priorityTree.order), i, priorityTree.order[i])
      ensures fresh(priorityTree.nodes - old(priorityTree.nodes))
    {
      ghost var o := priorityTree.order;
      i := priorityTree.Insert(task, PriorityKey(task));
      FitsInsert(o, i, priorityTree.order[i]);
    }

    // What that means for the queue and for the stored keys.
    method AddTask(task: Task)
      requires Valid() && IdFits(task, Queued())
      modifies priorityTree, priorityTree.nodes
      ensures Valid() && Queued() == old(Queued()) + multiset{task}
      ensures Keyed(priorityTree.order) <==> old(Keyed(priorityTree.order))
      ensures fresh(priorityTree.nodes - old(priorityTree.nodes))
    {
      ghost var o := priorityTree.order;
      ghost var i := PutIn(task);
      QueuedInsert(o, i, priorityTree.order[i]);
      KeysStay(o);
      KeyedInsert(o, i, priorityTree.order[i]);
    }

    // scheduler_remove_task: takes out one node of the task, and finds one if the stored keys are right.
    method TakeOut(task: Task) returns (ghost i: int)
      requires Valid()
      modifies priorityTree, priorityTree.nodes, priorityTree.nil
      ensures Valid() && i < |old(priorityTree.order)| && (i >= 0 ==> old(priorityTree.order)[i].task == task)
      ensures priorityTree.order == RemovedAt(old(priorityTree.order), i)
      ensures old(Keyed(priorityTree.order)) ==> (i >= 0 <==> task in old(Queued()))
      ensures priorityTree.nodes <= old(priorityTree.nodes)
    {
      ghost var o := priorityTree.order;
      var node := FindTask(task);
      KeysStay(o);
      i := -1;
      if node != null {
        i := priorityTree.Delete(node);
        QueuedRemove(o, i);
      }
      FitsRemove(o, i);
    }

    method RemoveTask(task: Task)
      requires Valid()
      modifies priorityTree, priorityTree.nodes, priorityTree.nil
      ensures Valid() && Queued() <= old(Queued()) <= Queued() + multiset{task}
      ensures old(Keyed(priorityTree.order)) ==>
                Keyed(priorityTree.order) && Queued() == old(Queued()) - multiset{task}
      ensures priorityTree.nodes <= old(priorityTree.nodes)
    {
      ghost var o := priorityTree.order;
      ghost var i := TakeOut(task);
      RemovedBound(o, i, task);
      KeysStay(o);
      if Keyed(o) { KeyedRemove(o, i); }
    }

    // get_next_task under SCHED_PRIORITY. With the right keys this is the most urgent task, among equals the one with
    // the largest id.
    method GetNextTask() returns (task: Task?)
      requires Valid() && priorityTree.order != []
      ensures task == priorityTree.order[0].task && task != null && task in Queued()
      ensures FirstIsUrgent(priorityTree.order) <==> forall t: Task | t in Queued() :: t.priority <= task.priority
      ensures Keyed(priorityTree.order) ==> forall t: Task | t in Queued() && t != task ::
                t.priority < task.priority || (t.priority == task.priority && t.id < task.id)
    {
      ghost var o := priorityTree.order;
      assert priorityTree.root != priorityTree.nil;
      assert priorityTree.LinkOk(priorityTree.root);
      var node := priorityTree.Minimum(priorityTree.root);
      task := node.task;
      assert node == o[0] && EntryFits(o, 0) && Tasks(o)[0] == task;
      QueuedSet(o);
      forall t: Task | Keyed(o) && t in Queued() && t != task
        ensures t.priority < task.priority || (t.priority == task.priority && t.id < task.id)
      {
        var j :| 0 <= j < |o| && Tasks(o)[j] == t;
        assert EntryFits(o, j) && Tree.Leq(o, 0, j) && SameId(o, 0, j) && KeyOk(o, 0) && KeyOk(o, j);
        KeyOrder(t.priority, t.id, task.priority, task.id);
      }
    }

    method Lend(blocker: Task, blocked: Task)
      requires blocker != blocked
      modifies blocked`blockedBy, blocker`priority, blocker`originalPriority, blocker`inherited
      modifies blocker`inheritanceDepth, blocker`blocking
      ensures Lent(blocker, blocked)
    {
      if !blocker.inherited {
        blocker.originalPriority := blocker.priority;
        blocker.inherited := true;
      }
      blocker.priority := blocked.priority;
      blocker.inheritanceDepth := Wrap(blocker.inheritanceDepth + 1);
      blocked.blockedBy := blocker;
      blocker.blocking := blocked;
    }

    // The part of inherit_priority between its guard and the statistics.
    method Inherit(blocker: Task, blocked: Task) returns (ghost gone: int, ghost back: int)
      requires Valid() && IdFits(blocker, Queued()) && blocker.priority < blocked.priority
      modifies priorityTree, priorityTree.nodes, priorityTree.nil, blocked`blockedBy
      modifies blocker`priority, blocker`originalPriority, blocker`inherited, blocker`inheritanceDepth, blocker`blocking
      ensures Valid() && fresh(priorityTree.nodes - old(priorityTree.nodes))
      ensures Requeued(old(priorityTree.order), priorityTree.order, blocker, gone, back) && Lent(blocker, blocked)
      ensures old(Keyed(priorityTree.order)) ==> (gone >= 0 <==> blocker in old(Queued()))
    {
      ghost var o := priorityTree.order;
      gone := TakeOut(blocker);
      FitsStill(o, gone, blocker);
      Lend(blocker, blocked);
      back := PutIn(blocker);
    }

    twostate predicate Lent(blocker: Task, blocked: Task)
      reads blocker, blocked
    {
      && blocker.priority == blocked.priority == old(blocked.priority)
      && blocker.inherited && blocker.originalPriority == old(blocker.Base())
      && blocker.inheritanceDepth == Wrap(old(blocker.inheritanceDepth) + 1)
      && blocker.blocking == blocked && blocked.blockedBy == blocker
    }

    // If the stored keys were right, they are so after t was queued again with another priority exactly if it had at
    // most one node.
    twostate predicate KeyedIff(t: Task)
      reads priorityTree`order, TaskSet(priorityTree.order)`priority
    {
      && Queued() <= old(Queued()) + multiset{t}
      && (old(Keyed(priorityTree.order)) ==>
            && Queued() == old(Queued() - multiset{t}) + multiset{t}
            && (Keyed(priorityTree.order) <==> old(Queued())[t] <= 1 || t.priority == old(t.priority)))
    }

    // t is the task that get_next_task returns.
    ghost predicate ComesFirst(t: Task)
      reads priorityTree`order
    {
      priorityTree.order != [] && priorityTree.order[0].task == t
    }

    // If the stored keys were right, get_next_task is right after t went down in priority exactly if t had at most one
    // node, or was not the next task, or nobody is more urgent than it is now; otherwise it still returns t.
    twostate predicate UrgentIff(t: Task)
      reads priorityTree`order, TaskSet(priorityTree.order)`priority, t`priority
    {
      old(Keyed(priorityTree.order)) && t.priority <= old(t.priority) ==>
        && (FirstIsUrgent(priorityTree.order) <==>
            || old(Queued())[t] <= 1
            || !old(ComesFirst(t))
            || forall u | u in TaskSet(priorityTree.order) :: u.priority <= t.priority)
        && (!FirstIsUrgent(priorityTree.order) ==> ComesFirst(t))
    }

    // inherit_priority: a blocker less urgent than the task it blocks takes over that task's priority.
    method InheritPriority(blocker: Task?, blocked: Task?)
      requires Valid() && (blocker != null ==> IdFits(blocker, Queued()))
      modifies `inversions, priorityTree, priorityTree.nodes, priorityTree.nil, One(blocked)`blockedBy
      modifies One(blocker)`priority, One(blocker)`originalPriority, One(blocker)`inherited
      modifies One(blocker)`inheritanceDepth, One(blocker)`blocking
      ensures Valid() && fresh(priorityTree.nodes - old(priorityTree.nodes))
      ensures if old(blocker != null && blocked != null && blocker.priority < blocked.priority)
              then Lent(blocker, blocked) && KeyedIff(blocker) && inversions == Wrap(old(inversions) + 1) &&
                   (old(Keyed(priorityTree.order)) ==> FirstIsUrgent(priorityTree.order))
              else Unchanged(blocker) && Unchanged(blocked) && inversions == old(inversions)
    {
      if blocker == null || blocked == null || blocker.priority >= blocked.priority {
        return;
      }
      ghost var o, p := priorityTree.order, blocker.priority;
      ghost var gone, back := Inherit(blocker, blocked);
      inversions := Wrap(inversions + 1);
      RequeueBound(o, priorityTree.order, blocker, gone, back);
      if old(Keyed(priorityTree.order)) {
        KeysWere(o, blocker, p);
        RequeueKeyedIff(o, priorityTree.order, blocker, p, gone, back);
        InheritKeepsUrgent(o, priorityTree.order, blocker, p, gone, back);
      }
    }

    // Nothing happened to the queue and to t.
    twostate predicate Unchanged(t: Task?)
      reads priorityTree`order, TaskSet(priorityTree.order)`priority, One(t)
    {
      && priorityTree.order == old(priorityTree.order)
      && (Keyed(priorityTree.order) <==> old(Keyed(priorityTree.order)))
      && (t != null ==>
            && t.priority == old(t.priority) && t.originalPriority == old(t.originalPriority)
            && t.inherited == old(t.inherited) && t.inheritanceDepth == old(t.inheritanceDepth)
            && t.blockedBy == old(t.blockedBy) && t.blocking == old(t.blocking))
    }

    method Restore(task: Task)
      modifies task`priority, task`inherited, task`inheritanceDepth, task`blocking, One(task.blocking)`blockedBy
      ensures Restored(task, old(task.blocking))
    {
      task.priority := task.originalPriority;
      task.inherited := false;
      task.inheritanceDepth := 0;
      if task.blocking != null {
        task.blocking.blockedBy := null;
        task.blocking := null;
      }
    }

    twostate predicate Restored(t: Task, waiter: Task?)
      reads t, One(waiter)
    {
      && t.priority == old(t.originalPriority) && !t.inherited && t.inheritanceDepth == 0 && t.blocking == null
      && (waiter != null ==> waiter.blockedBy == null)
    }

    // The part of release_inherited_priority behind its guard.
    method Release(task: Task) returns (ghost gone: int, ghost back: int)
      requires Valid() && IdFits(task, Queued())
      modifies priorityTree, priorityTree.nodes, priorityTree.nil
      modifies task`priority, task`inherited, task`inheritanceDepth, task`blocking, One(task.blocking)`blockedBy
      ensures Valid() && fresh(priorityTree.nodes - old(priorityTree.nodes))
      ensures Requeued(old(priorityTree.order), priorityTree.order, task, gone, back)
      ensures Restored(task, old(task.blocking))
      ensures old(Keyed(priorityTree.order)) ==> (gone >= 0 <==> task in old(Queued()))
    {
      ghost var o := priorityTree.order;
      gone := TakeOut(task);
      FitsStill(o, gone, task);
      Restore(task);
      back := PutIn(task);
    }

    // release_inherited_priority: back to the priority from before the first inheritance.
    method ReleaseInheritedPriority(task: Task?)
      requires Valid() && (task != null ==> IdFits(task, Queued()))
      modifies priorityTree, priorityTree.nodes, priorityTree.nil
      modifies One(task)`priority, One(task)`inherited, One(task)`inheritanceDepth, One(task)`blocking
      modifies One(if task == null then null else task.blocking)`blockedBy
      ensures Valid() && fresh(priorityTree.nodes - old(priorityTree.nodes))
      ensures if old(task != null && task.inherited)
              then Restored(task, old(task.blocking)) && task.priority == old(task.Base()) && KeyedIff(task) &&
                   UrgentIff(task)
              else Unchanged(task)
    {
      if task == null || !task.inherited {
        return;
      }
      ghost var o, p := priorityTree.order, task.priority;
      ghost var gone, back := Release(task);
      RequeueBound(o, priorityTree.order, task, gone, back);
      if old(Keyed(priorityTree.order)) {
        KeysWere(o, task, p);
        RequeueKeyedIff(o, priorityTree.order, task, p, gone, back);
        if task.priority <= p { ReleaseUrgentIff(o, priorityTree.order, task, p, gone, back); }
      }
    }

    // What the calls do, in terms of the scheduler as a value.
    twostate lemma QueueFollows(all: set<Task>, new op: Op)
      requires (op.Add? || op.Remove?) && op.task in all
      requires forall u | u in all :: StandingOf(u) == old(StandingOf(u))
      requires old(Keyed(priorityTree.order)) ==>
                 && Keyed(priorityTree.order)
                 && Queued() == if op.Add? then old(Queued()) + multiset{op.task} else old(Queued()) - multiset{op.task}
      ensures Follows(this, all, op)
    {
      OneStanding(all, op.task);
    }

    twostate lemma InheritFollows(all: set<Task>, new t: Task, new b: Task)
      requires t in all && b in all && forall u | u in all && u != t :: StandingOf(u) == old(StandingOf(u))
      requires if old(t.priority < b.priority) then Lent(t, b) && KeyedIff(t) else Unchanged(t)
      ensures Follows(this, all, Op.Inherit(t, b))
    {
      OneStanding(all, t);
      NextIs(old(ViewOf(this, all)), Op.Inherit(t, b));
    }

    twostate lemma ReleaseFollows(all: set<Task>, new t: Task)
      requires t in all && forall u | u in all && u != t :: StandingOf(u) == old(StandingOf(u))
      requires if old(t.inherited)
               then !t.inherited && t.priority == old(t.originalPriority) == t.originalPriority && KeyedIff(t)
               else Unchanged(t)
      ensures Follows(this, all, Op.Release(t))
    {
      OneStanding(all, t);
      NextIs(old(ViewOf(this, all)), Op.Release(t));
    }
  }

  ghost function One(t: Task?): set<Task> {
    if t == null then {} else {t}
  }

  // ---- the scheduler as a value: how often each task is queued, and the priorities of all tasks
  datatype Standing = Standing(priority: uint8, original: uint8, inherited: bool) {
    function Base(): uint8 {
      if inherited then original else priority
    }
  }

  datatype View = View(queued: multiset<Task?>, of: map<Task, Standing>)

  datatype Op = Add(task: Task) | Remove(task: Task) | Inherit(task: Task, blocked: Task) | Release(task: Task)

  ghost predicate Within(op: Op, all: set<Task>) {
    op.task in all && (op.Inherit? ==> op.blocked in all)
  }

  // Whether op gives its task another priority, and which.
  ghost function NewStanding(v: View, op: Op): Standing
    requires Within(op, v.of.Keys)
  {
    var st := v.of[op.task];
    match op
    case Inherit(_, u) => if st.priority < v.of[u].priority then Standing(v.of[u].priority, st.Base(), true) else st
    case Release(_) => if st.inherited then Standing(st.original, st.original, false) else st
    case _ => st
  }

  ghost function Next(v: View, op: Op): View
    requires Within(op, v.of.Keys)
  {
    var st := NewStanding(v, op);
    var one: multiset<Task?> := multiset{op.task};
    match op
    case Add(_) => v.(queued := v.queued + one)
    case Remove(_) => v.(queued := v.queued - one)
    case _ => if st == v.of[op.task] then v else View(v.queued - one + one, v.of[op.task := st])
  }

  lemma NextIs(v: View, op: Op)
    requires Within(op, v.of.Keys) && (op.Inherit? || op.Release?)
    ensures Next(v, op).of == v.of[op.task := NewStanding(v, op)]
    ensures Next(v, op).queued == if NewStanding(v, op) == v.of[op.task] then v.queued
                                  else v.queued - multiset{op.task} + multiset{op.task}
  {
  }

  // op changes the priority of a task that has more than one node.
  ghost predicate Disturbs(v: View, op: Op)
    requires Within(op, v.of.Keys)
  {
    NewStanding(v, op).priority != v.of[op.task].priority && v.queued[op.task] > 1
  }

  ghost predicate AllWithin(ops: seq<Op>, all: set<Task>) {
    forall op | op in ops :: Within(op, all)
  }

  ghost function After(v: View, ops: seq<Op>): (w: View)
    requires AllWithin(ops, v.of.Keys)
    ensures w.of.Keys == v.of.Keys
  {
    if ops == [] then v else Next(After(v, ops[..|ops| - 1]), ops[|ops| - 1])
  }

  // No call of the run changes the priority of a task that has more than one node.
  ghost predicate Calm(v: View, ops: seq<Op>)
    requires AllWithin(ops, v.of.Keys)
  {
    ops != [] ==>
      Calm(v, ops[..|ops| - 1]) && !Disturbs(After(v, ops[..|ops| - 1]), ops[|ops| - 1])
  }

  // No call touches the priority a task has by itself, and what it has inherited is never less urgent.
  lemma {:induction false} BaseStays(v: View, ops: seq<Op>, t: Task)
    requires AllWithin(ops, v.of.Keys) && t in v.of && v.of[t].Base() <= v.of[t].priority
    ensures After(v, ops).of[t].Base() == v.of[t].Base() <= After(v, ops).of[t].priority
    ensures !After(v, ops).of[t].inherited ==> After(v, ops).of[t].priority == v.of[t].Base()
  {
    if ops != [] {
      BaseStays(v, ops[..|ops| - 1], t);
    }
  }

  // What the run ops leads to from v: the view w, and whether the stored keys are right.
  ghost predicate Tracks(v: View, ops: seq<Op>, w: View, keyed: bool)
    requires AllWithin(ops, v.of.Keys)
  {
    && w.of == After(v, ops).of
    && (Calm(v, ops) ==> keyed && w.queued == After(v, ops).queued)
    && (ops != [] && Calm(v, ops[..|ops| - 1]) ==> (keyed <==> Calm(v, ops)))
  }

  // What one call leads to from v.
  ghost predicate Leads(v: View, keyed: bool, op: Op, w: View, keyed': bool)
    requires Within(op, v.of.Keys)
  {
    && w.of == Next(v, op).of
    && (keyed ==> w.queued == Next(v, op).queued && (keyed' <==> !Disturbs(v, op)))
  }

  lemma TracksStep(v: View, ops: seq<Op>, w: View, keyed: bool, w': View, keyed': bool)
    requires AllWithin(ops, v.of.Keys) && ops != [] && Tracks(v, ops[..|ops| - 1], w, keyed)
    requires Leads(w, keyed, ops[|ops| - 1], w', keyed')
    ensures Tracks(v, ops, w', keyed')
  {
  }

  ghost predicate Single(v: View) {
    forall t: Task | t in v.queued :: v.queued[t] == 1
  }

  // The run adds no task that is queued.
  ghost predicate AddsOnce(v: View, ops: seq<Op>)
    requires AllWithin(ops, v.of.Keys)
  {
    ops != [] ==>
      AddsOnce(v, ops[..|ops| - 1]) &&
      (ops[|ops| - 1].Add? ==> ops[|ops| - 1].task !in After(v, ops[..|ops| - 1]).queued)
  }

  // Runs in which no queued task is added again are calm.
  lemma {:induction false} AddsOnceIsCalm(v: View, ops: seq<Op>)
    requires AllWithin(ops, v.of.Keys) && Single(v) && AddsOnce(v, ops)
    ensures Calm(v, ops) && Single(After(v, ops))
  {
    if ops != [] {
      AddsOnceIsCalm(v, ops[..|ops| - 1]);
      SingleNext(After(v, ops[..|ops| - 1]), ops[|ops| - 1]);
    }
  }

  lemma SingleNext(v: View, op: Op)
    requires Within(op, v.of.Keys) && Single(v) && (op.Add? ==> op.task !in v.queued)
    ensures Single(Next(v, op)) && !Disturbs(v, op)
  {
    forall t: Task | t in Next(v, op).queued ensures Next(v, op).queued[t] == 1 {
      assert t != op.task ==> Next(v, op).queued[t] == v.queued[t];
    }
  }

  // Inheriting and releasing keep the tasks that are queued, and how often.
  lemma {:induction false} QueueStays(v: View, ops: seq<Op>)
    requires AllWithin(ops, v.of.Keys)
    requires forall op | op in ops :: (op.Inherit? || op.Release?) && op.task in v.queued
    ensures After(v, ops).queued == v.queued
  {
    if ops != [] {
      var op := ops[|ops| - 1];
      QueueStays(v, ops[..|ops| - 1]);
      assert op in ops;
      OutAndIn(v.queued, op.task);
      NextIs(After(v, ops[..|ops| - 1]), op);
    }
  }

  lemma OutAndIn(queued: multiset<Task?>, t: Task)
    requires t in queued
    ensures queued - multiset{t} + multiset{t} == queued
  {
  }

  // ---- the code against the value
  ghost function StandingOf(t: Task): Standing
    reads t`priority, t`originalPriority, t`inherited
  {
    Standing(t.priority, t.originalPriority, t.inherited)
  }

  ghost function Standings(all: set<Task>): map<Task, Standing>
    reads all`priority, all`originalPriority, all`inherited
  {
    map t | t in all :: StandingOf(t)
  }

  twostate lemma OneStanding(all: set<Task>, new t: Task)
    requires t in all && forall u | u in all && u != t :: StandingOf(u) == old(StandingOf(u))
    ensures Standings(all) == old(Standings(all))[t := StandingOf(t)]
  {
  }

  ghost function ViewOf(s: Scheduler, all: set<Task>): View
    reads s.priorityTree`order, all`priority, all`originalPriority, all`inherited
  {
    View(s.Queued(), Standings(all))
  }

  ghost predicate IdAlone(t: Task, all: set<Task>) {
    t.id < ID_LIMIT && forall u | u in all :: u.id == t.id ==> u == t
  }

  lemma AloneFits(t: Task, all: set<Task>, queued: multiset<Task?>)
    requires IdAlone(t, all) && forall u: Task | u in queued :: u in all
    ensures IdFits(t, queued)
  {
  }

  // The tasks of the system: unique ids that fit the key, and chains that stay among them.
  ghost predicate System(all: set<Task>, queued: multiset<Task?>)
    reads all`blocking
  {
    && (forall t {:trigger IdAlone(t, all)} | t in all :: IdAlone(t, all))
    && (forall t | t in all && t.blocking != null :: t.blocking in all)
    && (forall t: Task | t in queued :: t in all)
  }

  // Every call changes the priorities as the value does. As long as the stored keys are right, it also changes the
  // queue as the value does, and the keys stay right exactly if the call disturbs no task with several nodes.
  twostate predicate Follows(s: Scheduler, all: set<Task>, op: Op)
    requires Within(op, all)
    reads s.priorityTree`order, all, TaskSet(s.priorityTree.order)`priority
  {
    Leads(old(ViewOf(s, all)), old(Keyed(s.priorityTree.order)), op, ViewOf(s, all), Keyed(s.priorityTree.order))
  }

  // Each call keeps the system sound, and the standing of all tasks but its own.
  method AddIn(s: Scheduler, ghost all: set<Task>, t: Task)
    requires s.Valid() && System(all, s.Queued()) && t in all
    modifies s.priorityTree, s.priorityTree.nodes
    ensures s.Valid() && System(all, s.Queued()) && fresh(s.priorityTree.nodes - old(s.priorityTree.nodes))
    ensures forall u | u in all :: StandingOf(u) == old(StandingOf(u))
    ensures old(Keyed(s.priorityTree.order)) ==> Keyed(s.priorityTree.order)
    ensures s.Queued() == old(s.Queued()) + multiset{t}
  {
    assert IdAlone(t, all);
    AloneFits(t, all, s.Queued());
    s.AddTask(t);
  }

  method RemoveIn(s: Scheduler, ghost all: set<Task>, t: Task)
    requires s.Valid() && System(all, s.Queued()) && t in all
    modifies s.priorityTree, s.priorityTree.nodes, s.priorityTree.nil
    ensures s.Valid() && System(all, s.Queued()) && fresh(s.priorityTree.nodes - old(s.priorityTree.nodes))
    ensures forall u | u in all :: StandingOf(u) == old(StandingOf(u))
    ensures old(Keyed(s.priorityTree.order)) ==>
              Keyed(s.priorityTree.order) && s.Queued() == old(s.Queued()) - multiset{t}
  {
    s.RemoveTask(t);
  }

  method InheritIn(s: Scheduler, ghost all: set<Task>, t: Task, b: Task)
    requires s.Valid() && System(all, s.Queued()) && t in all && b in all
    modifies s`inversions, s.priorityTree, s.priorityTree.nodes, s.priorityTree.nil, all
    ensures s.Valid() && System(all, s.Queued()) && fresh(s.priorityTree.nodes - old(s.priorityTree.nodes))
    ensures forall u | u in all && u != t :: StandingOf(u) == old(StandingOf(u))
    ensures if old(t.priority < b.priority) then s.Lent(t, b) && s.KeyedIff(t) else s.Unchanged(t)
  {
    assert IdAlone(t, all);
    AloneFits(t, all, s.Queued());
    s.InheritPriority(t, b);
  }

  method ReleaseIn(s: Scheduler, ghost all: set<Task>, t: Task)
    requires s.Valid() && System(all, s.Queued()) && t in all
    modifies s.priorityTree, s.priorityTree.nodes, s.priorityTree.nil, all
    ensures s.Valid() && System(all, s.Queued()) && fresh(s.priorityTree.nodes - old(s.priorityTree.nodes))
    ensures forall u | u in all && u != t :: StandingOf(u) == old(StandingOf(u))
    ensures if old(t.inherited)
            then !t.inherited && t.priority == old(t.originalPriority) == t.originalPriority && s.KeyedIff(t)
            else s.Unchanged(t)
  {
    assert IdAlone(t, all);
    AloneFits(t, all, s.Queued());
    s.ReleaseInheritedPriority(t);
  }

  method Perform(s: Scheduler, ghost all: set<Task>, op: Op)
    requires s.Valid() && System(all, s.Queued()) && Within(op, all)
    modifies s`inversions, s.priorityTree, s.priorityTree.nodes, s.priorityTree.nil, all
    ensures s.Valid() && System(all, s.Queued()) && Follows(s, all, op)
    ensures fresh(s.priorityTree.nodes - old(s.priorityTree.nodes))
  {
    match op
    case Add(t) =>
      AddIn(s, all, t);
      s.QueueFollows(all, op);
    case Remove(t) =>
      RemoveIn(s, all, t);
      s.QueueFollows(all, op);
    case Inherit(t, b) =>
      InheritIn(s, all, t, b);
      s.InheritFollows(all, t, b);
    case Release(t) =>
      ReleaseIn(s, all, t);
      s.ReleaseFollows(all, t);
  }

  // Every run changes the priorities as the value does. Starting with the right keys, a calm run keeps them and changes
  // the queue as the value does; the first call that is not calm breaks them.
  method PerformAll(s: Scheduler, ghost all: set<Task>, ops: seq<Op>)
    requires s.Valid() && System(all, s.Queued()) && AllWithin(ops, all) && Keyed(s.priorityTree.order)
    modifies s`inversions, s.priorityTree, s.priorityTree.nodes, s.priorityTree.nil, all
    ensures s.Valid() && System(all, s.Queued()) && fresh(s.priorityTree.nodes - old(s.priorityTree.nodes))
    ensures Tracks(old(ViewOf(s, all)), ops, ViewOf(s, all), Keyed(s.priorityTree.order))
  {
    if ops != [] {
      ghost var v := ViewOf(s, all);
      var k := |ops| - 1;
      PerformAll(s, all, ops[..k]);
      ghost var w, keyed := ViewOf(s, all), Keyed(s.priorityTree.order);
      Perform(s, all, ops[k]);
      TracksStep(v, ops, w, keyed, ViewOf(s, all), Keyed(s.priorityTree.order));
    }
  }

  // ---- a run that misleads get_next_task
  // Three tasks are created.
  method CreateThree(s: Scheduler, w: Task, u: Task, t: Task)
    requires s.Valid() && Keyed(s.priorityTree.order) && s.Queued() == multiset{}
    requires w.id == 0 && u.id == 1 && t.id == 2
    modifies s.priorityTree, s.priorityTree.nodes
    ensures s.Valid() && Keyed(s.priorityTree.order) && s.Queued() == multiset{w, u, t}
    ensures fresh(s.priorityTree.nodes - old(s.priorityTree.nodes))
  {
    s.AddTask(w);
    s.AddTask(u);
    s.AddTask(t);
  }

  // t inherits the priority of w, which it blocks.
  method InheritFrom(s: Scheduler, w: Task, u: Task, t: Task)
    requires s.Valid() && Keyed(s.priorityTree.order) && s.Queued() == multiset{w, u, t}
    requires w.id == 0 && u.id == 1 && t.id == 2 && !t.inherited && t.priority < w.priority
    modifies s, s.priorityTree, s.priorityTree.nodes, s.priorityTree.nil, t, w`blockedBy
    ensures s.Valid() && Keyed(s.priorityTree.order) && s.Queued() == multiset{w, u, t}
    ensures t.priority == w.priority && t.inherited && t.originalPriority == old(t.priority) && t.blocking == w
    ensures fresh(s.priorityTree.nodes - old(s.priorityTree.nodes))
  {
    s.InheritPriority(t, w);
    OutAndIn(multiset{w, u, t}, t);
  }

  // t yields, and is the next task all the same.
  method Yield(s: Scheduler, w: Task, u: Task, t: Task) returns (next: Task?)
    requires s.Valid() && Keyed(s.priorityTree.order) && s.Queued() == multiset{w, u, t}
    requires w.id == 0 && u.id == 1 && t.id == 2 && u.priority <= t.priority && w.priority <= t.priority
    modifies s.priorityTree, s.priorityTree.nodes
    ensures s.Valid() && Keyed(s.priorityTree.order) && s.Queued() == multiset{w, u, t, t}
    ensures next == t && s.ComesFirst(t)
    ensures fresh(s.priorityTree.nodes - old(s.priorityTree.nodes))
  {
    s.AddTask(t);
    next := s.GetNextTask();
  }

  // t releases what it has inherited. In any queue: if it has a second node and came first, it still comes first,
  // although u is more urgent.
  method ReleaseInFront(s: Scheduler, t: Task, u: Task)
    requires s.Valid() && Keyed(s.priorityTree.order) && IdFits(t, s.Queued()) && s.ComesFirst(t)
    requires s.Queued()[t] > 1 && u in s.Queued() && u != t
    requires t.inherited && t.originalPriority < u.priority <= t.priority
    modifies s.priorityTree, s.priorityTree.nodes, s.priorityTree.nil, t, One(t.blocking)`blockedBy
    ensures s.Valid() && !Keyed(s.priorityTree.order) && s.Queued() == old(s.Queued())
    ensures s.ComesFirst(t) && t.priority == old(t.originalPriority)
  {
    ghost var q := s.Queued();
    s.ReleaseInheritedPriority(t);
    OutAndIn(q, t);
    QueuedSet(s.priorityTree.order);
    assert u in TaskSet(s.priorityTree.order);
  }

  method Prepare(s: Scheduler, w: Task, u: Task, t: Task)
    requires s.Valid() && Keyed(s.priorityTree.order) && s.Queued() == multiset{}
    requires w.id == 0 && u.id == 1 && t.id == 2 && !t.inherited && t.priority < u.priority <= w.priority
    modifies s, s.priorityTree, s.priorityTree.nodes, s.priorityTree.nil, t, w`blockedBy
    ensures s.Valid() && Keyed(s.priorityTree.order) && s.Queued() == multiset{w, u, t, t} && s.ComesFirst(t)
    ensures t.priority == w.priority && t.inherited && t.originalPriority == old(t.priority) && t.blocking == w
    ensures fresh(s.priorityTree.nodes - old(s.priorityTree.nodes))
  {
    CreateThree(s, w, u, t);
    InheritFrom(s, w, u, t);
    var next := Yield(s, w, u, t);
  }

  lemma TwiceQueued(w: Task, u: Task, t: Task)
    requires w.id == 0 && u.id == 1 && t.id == 2
    ensures var q: multiset<Task?> := multiset{w, u, t, t}; q[t] > 1 && u in q && IdFits(t, q)
  {
  }

  method Mislead(s: Scheduler, w: Task, u: Task, t: Task) returns (next: Task?)
    requires s.Valid() && Keyed(s.priorityTree.order) && s.Queued() == multiset{}
    requires w.id == 0 && u.id == 1 && t.id == 2 && !t.inherited && t.priority < u.priority <= w.priority
    modifies s, s.priorityTree, s.priorityTree.nodes, s.priorityTree.nil, t, w`blockedBy
    ensures s.Valid() && !Keyed(s.priorityTree.order) && s.Queued() == multiset{w, u, t, t}
    ensures next == t && t.priority == old(t.priority)
  {
    Prepare(s, w, u, t);
    TwiceQueued(w, u, t);
    ReleaseInFront(s, t, u);
    next := s.GetNextTask();
  }

  // task_yield adds the running task again although it is still in the tree. Here a task of priority 1 inherits
  // priority 3, yields and releases: a node under its inherited priority stays behind, and get_next_task prefers the
  // task to those of priority 2 and 3.
  method YieldMisleads() returns (s: Scheduler, next: Task?, urgent: Task, waiter: Task)
    ensures s.Valid() && !Keyed(s.priorityTree.order)
    ensures next != null && s.Queued() == multiset{waiter, urgent, next, next}
    ensures next.priority == 1 && urgent.priority == 2 && waiter.priority == 3
  {
    waiter := new Task(0, 3);
    urgent := new Task(1, 2);
    var t := new Task(2, 1);
    s := new Scheduler();
    next := Mislead(s, waiter, urgent, t);
  }
}
