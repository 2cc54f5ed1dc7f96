/** The doubly linked queue of mini_rtos/src/multiqueue.c, one queue of a fixed type, without its locking. */
module MultiQueue {
  import opened Machine

  datatype QueueType = Fifo | Priority | Deadline | RoundRobin | Weighted

  class Item {
    const data: seq<uint8>
    const priority: uint32
    const deadline: nat
    const weight: uint32
    var next: Item?
    var prev: Item?
    // The position in the queue.
    ghost var pos: int

    constructor (data: seq<uint8>, priority: uint32, deadline: nat, weight: uint32)
      ensures this.data == data && this.priority == priority && this.deadline == deadline && this.weight == weight
      ensures next == null && prev == null
    {
      this.data, this.priority, this.deadline, this.weight := data, priority, deadline, weight;
      next, prev := null, null;
    }
  }

  // ---- the queue as a sequence
  ghost function InsertAt(s: seq<Item>, i: nat, x: Item): seq<Item>
    requires i <= |s|
  {
    s[..i] + [x] + s[i..]
  }

  // Whether a stays in front of a newcomer b.
  predicate Stays(ty: QueueType, a: Item, b: Item) {
    match ty
    case Priority => a.priority >= b.priority
    case Deadline => a.deadline <= b.deadline
    case _ => true
  }

  ghost predicate Ordered(ty: QueueType, s: seq<Item>) {
    forall i, j | 0 <= i < j < |s| :: Stays(ty, s[i], s[j])
  }

  // i is the place for x in a stable sorted insertion: behind all that stay in front of it, before all that do not.
  ghost predicate PlaceFor(ty: QueueType, s: seq<Item>, x: Item, i: int) {
    && 0 <= i <= |s|
    && (forall k | 0 <= k < i :: Stays(ty, s[k], x))
    && (forall k | i <= k < |s| :: !Stays(ty, s[k], x))
  }

  lemma PlaceKeepsOrder(ty: QueueType, s: seq<Item>, x: Item, i: nat)
    requires Ordered(ty, s) && PlaceFor(ty, s, x, i)
    ensures Ordered(ty, InsertAt(s, i, x))
  {
  }

  // There is only one such place.
  lemma PlaceIsUnique(ty: QueueType, s: seq<Item>, x: Item, i: int, j: int)
    requires PlaceFor(ty, s, x, i) && i != j
    ensures !PlaceFor(ty, s, x, j)
  {
    if i < j {
      assert i < |s| ==> !Stays(ty, s[i], x);
    } else {
      assert j < 0 || Stays(ty, s[j], x);
    }
  }

  // The place where the walk of mqueue_enqueue stops.
  ghost function PlaceIn(ty: QueueType, s: seq<Item>, x: Item): (i: nat)
    ensures i <= |s|
  {
    if s == [] || !Stays(ty, s[0], x) then 0 else 1 + PlaceIn(ty, s[1..], x)
  }

  ghost function Inserted(ty: QueueType, s: seq<Item>, x: Item): seq<Item> {
    InsertAt(s, PlaceIn(ty, s, x), x)
  }

  lemma {:induction false} PlaceInIs(ty: QueueType, s: seq<Item>, x: Item)
    requires Ordered(ty, s)
    ensures PlaceFor(ty, s, x, PlaceIn(ty, s, x))
  {
    if s != [] && Stays(ty, s[0], x) {
      var t, k := s[1..], PlaceIn(ty, s[1..], x);
      PlaceInIs(ty, t, x);
      forall i | 0 <= i < |s| ensures Stays(ty, s[i], x) <==> i < k + 1 {
        assert i > 0 ==> s[i] == t[i - 1];
      }
    } else {
      forall i | 0 <= i < |s| ensures !Stays(ty, s[i], x) {
        assert i > 0 ==> Stays(ty, s[0], s[i]);
      }
    }
  }

  // The order in which a queue of this type hands out s: round robin first moves the head behind the tail.
  ghost function Turned(ty: QueueType, s: seq<Item>): seq<Item> {
    if ty.RoundRobin? && |s| > 1 then s[1..] + [s[0]] else s
  }

  ghost function Alive(s: seq<Item>, now: nat): seq<Item> {
    if s == [] then []
    else if s[0].deadline <= now then Alive(s[1..], now) else [s[0]] + Alive(s[1..], now)
  }

  // One round of mqueue_remove_expired at position k.
  lemma AliveStep(s: seq<Item>, k: nat, now: nat)
    requires k < |s|
    ensures var t := s[..k] + s[k + 1..];
      if s[k].deadline <= now then t[..k] + Alive(t[k..], now) == s[..k] + Alive(s[k..], now)
      else s[..k + 1] + Alive(s[k + 1..], now) == s[..k] + Alive(s[k..], now)
  {
    var t := s[..k] + s[k + 1..];
    assert s[k..][1..] == s[k + 1..] && t[k..] == s[k + 1..] && t[..k] == s[..k];
    assert s[..k + 1] == s[..k] + [s[k]];
  }

  // What is left are exactly the items that have not expired, in their old order.
  lemma {:induction false} AliveIs(s: seq<Item>, now: nat)
    ensures forall x :: x in Alive(s, now) <==> x in s && x.deadline > now
    ensures |Alive(s, now)| <= |s|
  {
    if s != [] {
      AliveIs(s[1..], now);
      assert s == [s[0]] + s[1..];
    }
  }

  lemma {:induction false} AliveWasThere(s: seq<Item>, now: nat, i: nat)
    requires i < |Alive(s, now)|
    ensures Alive(s, now)[i] in s
  {
    if s[0].deadline <= now {
      AliveWasThere(s[1..], now, i);
    } else if i > 0 {
      AliveWasThere(s[1..], now, i - 1);
    }
  }

  lemma {:induction false} AliveKeepsOrder(ty: QueueType, s: seq<Item>, now: nat)
    requires Ordered(ty, s)
    ensures Ordered(ty, Alive(s, now))
  {
    if s != [] {
      AliveKeepsOrder(ty, s[1..], now);
      var a := Alive(s[1..], now);
      forall i | 0 <= i < |a| ensures Stays(ty, s[0], a[i]) {
        AliveWasThere(s[1..], now, i);
      }
    }
  }

  class Queue {
    const ty: QueueType
    var head: Item?
    var tail: Item?
    var count: nat
    ghost var items: seq<Item>

    ghost function At(i: int): Item?
      reads `items
    {
      if 0 <= i < |items| then items[i] else null
    }

    ghost predicate LinkOk(i: int)
      reads `items, items
    {
      0 <= i < |items| && items[i].pos == i && items[i].prev == At(i - 1) && items[i].next == At(i + 1)
    }

    ghost predicate Linked()
      reads `head, `tail, `items, items
    {
      && head == At(0) && tail == At(|items| - 1)
      && (forall i {:trigger LinkOk(i)} | 0 <= i < |items| :: LinkOk(i))
    }

    ghost predicate Valid()
      reads this, items
    {
      Linked() && count == |items|
    }

    constructor (ty: QueueType)
      ensures Valid() && items == [] && this.ty == ty
    {
      this.ty := ty;
      head, tail, count, items := null, null, 0, [];
    }

    // The new item becomes the head.
    method PushFront(item: Item)
      requires Linked() && item !in items && item.next == null && item.prev == null
      modifies `head, `tail, `items, items, item
      ensures Linked() && items == InsertAt(old(items), 0, item)
    {
      if 0 < |items| { assert LinkOk(0) && LinkOk(|items| - 1); }
      item.next := head;
      if head != null {
        head.prev := item;
      }
      head := item;
      if tail == null {
        tail := item;
      }
      ghost var before := items;
      items := [item] + items;
      forall n | n in before { n.pos := n.pos + 1; }
      item.pos := 0;
      forall i | 0 <= i < |items| ensures LinkOk(i) {
        if i > 0 { assert old(LinkOk(i - 1)); }
      }
    }

    // The links when the new item goes right behind current.
    method LinkBehind(current: Item, item: Item)
      requires current in items && item !in items
      requires current.next == null || (current.next in items && current.next != current)
      modifies `tail, items`next, items`prev, item`next, item`prev
      ensures item.next == old(current.next) && item.prev == current
      ensures tail == if old(current.next) == null then item else old(tail)
      ensures forall n | n in items :: n.next == if n == current then item else old(n.next)
      ensures forall n | n in items :: n.prev == if n == old(current.next) then item else old(n.prev)
    {
      item.next := current.next;
      item.prev := current;
      if current.next != null {
        current.next.prev := item;
      }
      current.next := item;
      if item.next == null {
        tail := item;
      }
    }

    // The positions when the new item goes right behind the one at position k.
    ghost method LabelBehind(k: nat, item: Item)
      requires k < |items| && item !in items
      modifies `items, items`pos, item`pos
      ensures items == InsertAt(old(items), k + 1, item) && item.pos == k + 1
      ensures forall n | n in old(items) :: n.pos == old(if n.pos > k then n.pos + 1 else n.pos)
    {
      var before := items;
      items := InsertAt(items, k + 1, item);
      forall n | n in before { n.pos := if n.pos > k then n.pos + 1 else n.pos; }
      item.pos := k + 1;
    }

    // The new item goes right behind current, the item at position k.
    method InsertBehind(current: Item, ghost k: nat, item: Item)
      requires Linked() && item !in items && item.next == null && item.prev == null
      requires k < |items| && items[k] == current
      modifies `head, `tail, `items, items, item
      ensures Linked() && items == InsertAt(old(items), k + 1, item)
    {
      assert LinkOk(k) && LinkOk(|items| - 1);
      if k + 1 < |items| { assert LinkOk(k + 1); }
      LinkBehind(current, item);
      LabelBehind(k, item);
      forall i | 0 <= i < |items| ensures LinkOk(i) {
        if i != k + 1 {
          assert old(LinkOk(if i <= k then i else i - 1));
          InsertKeepsLink(i, k, item);
        }
      }
    }

    // The items keep their neighbours, but for the two next to the new one.
    twostate lemma InsertKeepsLink(i: int, new k: nat, new item: Item)
      requires k < |old(items)| && items == InsertAt(old(items), k + 1, item) && 0 <= i < |items| && i != k + 1
      requires old(LinkOk(if i <= k then i else i - 1))
      requires var n := items[i];
        && n.pos == old(n.pos) + (if i <= k then 0 else 1)
        && n.next == (if i == k then item else old(n.next)) && n.prev == (if i == k + 2 then item else old(n.prev))
      ensures LinkOk(i)
    {
    }

    // The new item goes to the tail.
    method Append(item: Item)
      requires Linked() && item !in items && item.next == null && item.prev == null
      modifies `head, `tail, `items, items, item
      ensures Linked() && items == old(items) + [item]
    {
      if tail == null {
        head, tail := item, item;
      } else {
        assert LinkOk(|items| - 1);
        item.prev := tail;
        tail.next := item;
        tail := item;
      }
      items := items + [item];
      item.pos := |items| - 1;
      forall i | 0 <= i < |items| ensures LinkOk(i) {
        if i < |items| - 1 { assert old(LinkOk(i)); }
      }
    }

    // The walk of mqueue_enqueue to the last item that stays in front of the new one.
    method FindPlace(item: Item) returns (current: Item, ghost k: nat)
      requires Linked() && Ordered(ty, items) && head != null && Stays(ty, head, item)
      ensures k < |items| && items[k] == current && PlaceFor(ty, items, item, k + 1)
    {
      current, k := head, 0;
      assert LinkOk(0);
      while current.next != null && Stays(ty, current.next, item)
        invariant k < |items| && items[k] == current && LinkOk(k)
        invariant forall j | 0 <= j <= k :: Stays(ty, items[j], item)
        decreases |items| - k
      {
        assert LinkOk(k + 1);
        current, k := current.next, k + 1;
      }
    }

    // The insertion by queue type.
    method Place(item: Item) returns (ghost i: nat)
      requires Linked() && Ordered(ty, items) && item !in items && item.next == null && item.prev == null
      modifies `head, `tail, `items, items, item
      ensures Linked() && PlaceFor(ty, old(items), item, i) && items == InsertAt(old(items), i, item)
    {
      if ty.Priority? || ty.Deadline? {
        if head == null || !Stays(ty, head, item) {
          i := 0;
          PushFront(item);
        } else {
          var current;
          ghost var k;
          current, k := FindPlace(item);
          i := k + 1;
          InsertBehind(current, k, item);
        }
      } else {
        i := |items|;
        Append(item);
      }
    }

    // mqueue_enqueue, once a slot is free and the item is made.
    method Enqueue(item: Item) returns (ghost i: nat)
      requires Valid() && Ordered(ty, items) && item !in items && item.next == null && item.prev == null
      modifies this, items, item
      ensures Valid() && Ordered(ty, items)
      ensures PlaceFor(ty, old(items), item, i) && items == InsertAt(old(items), i, item)
      ensures items == Inserted(ty, old(items), item)
      ensures 0 <= i <= |old(items)| && items == old(items)[..i] + [item] + old(items)[i..]
      ensures ty.Priority? ==>
                && (forall j, k | 0 <= j < k < |items| :: items[j].priority >= items[k].priority)
                && (forall k | 0 <= k < i :: old(items)[k].priority >= item.priority)
                && (forall k | i <= k < |old(items)| :: old(items)[k].priority < item.priority)
      ensures ty.Deadline? ==>
                && (forall j, k | 0 <= j < k < |items| :: items[j].deadline <= items[k].deadline)
                && (forall k | 0 <= k < i :: old(items)[k].deadline <= item.deadline)
                && (forall k | i <= k < |old(items)| :: old(items)[k].deadline > item.deadline)
      ensures ty.Fifo? || ty.RoundRobin? || ty.Weighted? ==> items == old(items) + [item]
    {
      i := Place(item);
      PlaceKeepsOrder(ty, old(items), item, i);
      PlaceInIs(ty, old(items), item);
      if i != PlaceIn(ty, old(items), item) { PlaceIsUnique(ty, old(items), item, i, PlaceIn(ty, old(items), item)); }
      count := count + 1;
    }

    // Moves the head behind the tail.
    method Rotate()
      requires Linked() && |items| > 1
      modifies `head, `tail, `items, items
      ensures Linked() && items == old(items[1..] + [items[0]])
    {
      assert LinkOk(0) && LinkOk(1) && LinkOk(|items| - 1);
      var item := head;
      head := head.next;
      head.prev := null;
      item.next := null;
      item.prev := tail;
      tail.next := item;
      tail := item;
      ghost var before := items;
      items := items[1..] + [items[0]];
      forall n | n in before { n.pos := if n.pos == 0 then |items| - 1 else n.pos - 1; }
      forall i | 0 <= i < |items| ensures LinkOk(i) {
        assert old(LinkOk(if i == |items| - 1 then 0 else i + 1));
      }
    }

    // Takes the head off.
    method PopFront() returns (item: Item)
      requires Linked() && items != []
      modifies `head, `tail, `items, items
      ensures Linked() && item == old(items[0]) && items == old(items[1..])
    {
      assert LinkOk(0);
      if |items| > 1 { assert LinkOk(1); }
      item := head;
      head := head.next;
      if head != null {
        head.prev := null;
      } else {
        tail := null;
      }
      ghost var before := items;
      items := items[1..];
      forall n | n in before { n.pos := n.pos - 1; }
      forall i | 0 <= i < |items| ensures LinkOk(i) {
        assert old(LinkOk(i + 1));
      }
    }

    // mqueue_dequeue, after the wait for an item.
    method Dequeue() returns (ok: bool, data: seq<uint8>)
      requires Valid() && Ordered(ty, items)
      modifies this, items
      ensures Valid() && Ordered(ty, items) && ok == (old(items) != [])
      ensures if ok then data == Turned(ty, old(items))[0].data && items == Turned(ty, old(items))[1..]
              else items == old(items)
      ensures ok && ty.RoundRobin? && |old(items)| > 1 ==>
                data == old(items)[1].data && items == old(items)[2..] + [old(items)[0]]
      ensures ok && !(ty.RoundRobin? && |old(items)| > 1) ==> data == old(items)[0].data && items == old(items)[1..]
    {
      if head == null { return false, []; }
      assert LinkOk(0) && LinkOk(|items| - 1);
      if ty.RoundRobin? && head != tail {
        Rotate();
      }
      var item := PopFront();
      count := count - 1;
      return true, item.data;
    }

    // mqueue_peek
    method Peek() returns (ok: bool, data: seq<uint8>)
      requires Valid()
      ensures ok == (items != []) && (ok ==> data == items[0].data)
    {
      if head == null { return false, []; }
      return true, head.data;
    }

    // The links when an item leaves.
    method LinkOut(item: Item)
      requires item in items && item.next != item && item.prev != item
      requires (item.next == null || item.next in items) && (item.prev == null || item.prev in items)
      requires item.next == null || item.next != item.prev
      modifies `head, `tail, items`next, items`prev
      ensures head == (if old(item.prev) == null then old(item.next) else old(head))
      ensures tail == (if old(item.next) == null then old(item.prev) else old(tail))
      ensures forall n | n in items :: n.next == if n == old(item.prev) then old(item.next) else old(n.next)
      ensures forall n | n in items :: n.prev == if n == old(item.next) then old(item.prev) else old(n.prev)
    {
      if item.prev != null {
        item.prev.next := item.next;
      } else {
        head := item.next;
      }
      if item.next != null {
        item.next.prev := item.prev;
      } else {
        tail := item.prev;
      }
    }

    // The positions when the item at position k leaves.
    ghost method LabelOut(k: nat)
      requires k < |items|
      modifies `items, items`pos
      ensures items == old(items[..k] + items[k + 1..])
      ensures forall n | n in old(items) :: n.pos == old(if n.pos > k then n.pos - 1 else n.pos)
    {
      var before := items;
      items := items[..k] + items[k + 1..];
      forall n | n in before { n.pos := if n.pos > k then n.pos - 1 else n.pos; }
    }

    // Unlinks the item at position k.
    method Unlink(item: Item, ghost k: nat)
      requires Linked() && k < |items| && items[k] == item
      modifies `head, `tail, `items, items
      ensures Linked() && items == old(items[..k] + items[k + 1..])
      ensures item.next == old(item.next)
    {
      assert LinkOk(k);
      if k > 0 { assert LinkOk(k - 1); }
      if k + 1 < |items| { assert LinkOk(k + 1); }
      LinkOut(item);
      LabelOut(k);
      forall i | 0 <= i < |items| ensures LinkOk(i) {
        assert old(LinkOk(if i < k then i else i + 1));
        UnlinkKeepsLink(i, k);
      }
    }

    // The items keep their neighbours, but for the two next to the one that left.
    twostate lemma UnlinkKeepsLink(i: int, new k: nat)
      requires k < |old(items)| && items == old(items[..k] + items[k + 1..]) && 0 <= i < |items|
      requires old(LinkOk(k)) && old(LinkOk(if i < k then i else i + 1))
      requires var n, item := items[i], old(items[k]);
        && n.pos == old(n.pos) - (if i < k then 0 else 1)
        && n.next == (if i == k - 1 then old(item.next) else old(n.next))
        && n.prev == (if i == k then old(item.prev) else old(n.prev))
      ensures LinkOk(i)
    {
    }

    // mqueue_remove_expired
    method RemoveExpired(now: nat) returns (removed: nat)
      requires Valid()
      modifies this, items
      ensures Valid() && items == Alive(old(items), now) && (Ordered(ty, old(items)) ==> Ordered(ty, items))
      ensures removed == |old(items)| - |items|
    {
      removed := 0;
      var current := head;
      ghost var all, k := items, 0;
      ghost var left := |items|;
      while current != null
        invariant Valid() && 0 <= k <= |items| && current == At(k) && left == |items| - k
        invariant removed + |items| == |all| && forall i | 0 <= i < |items| :: items[i] in old(items)
        invariant items[..k] + Alive(items[k..], now) == Alive(all, now)
        decreases left
      {
        assert LinkOk(k);
        AliveStep(items, k, now);
        if current.deadline <= now {
          var expired := current;
          current := current.next;
          Unlink(expired, k);
          removed := removed + 1;
          count := count - 1;
        } else {
          current := current.next;
          k := k + 1;
        }
        left := left - 1;
      }
      assert items[..k] == items;
      if Ordered(ty, all) { AliveKeepsOrder(ty, all, now); }
    }
  }
}
