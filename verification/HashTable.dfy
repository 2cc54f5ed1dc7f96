/**
 The open-addressing hash table of mini_rtos/src/hashtable.c: linear probing, tombstones, prime sizes.

 Keys and values are byte strings, the hash function is arbitrary, allocation succeeds, load factors are exact.
 */
module HashTable {
  import opened Machine
  import opened Options
  import opened Primes

  type Bytes = seq<uint8>

  datatype Entry = Empty | Deleted | Occupied(key: Bytes, value: Bytes)

  const DEFAULT_HASH_SIZE: nat := 256

  type Hash = Bytes -> nat

  function Home(hash: Hash, k: Bytes, n: nat): (h: nat)
    requires n > 0
    ensures h < n
  {
    hash(k) % n
  }

  // Slot j is probed before slot i when the search starts at h.
  predicate Before(h: int, i: int, j: int) {
    if h <= i then h <= j < i else j >= h || j < i
  }

  // No empty slot separates key k from slot i.
  ghost predicate Reaches(es: seq<Entry>, hash: Hash, k: Bytes, i: int) {
    && 0 <= i < |es|
    && forall j | 0 <= j < |es| && Before(Home(hash, k, |es|), i, j) :: !es[j].Empty?
  }

  ghost predicate SlotOk(es: seq<Entry>, hash: Hash, m: map<Bytes, Bytes>, at: map<Bytes, int>, i: int) {
    && 0 <= i < |es|
    && (es[i].Occupied? ==>
          && es[i].key in m && m[es[i].key] == es[i].value && es[i].key in at && at[es[i].key] == i
          && Reaches(es, hash, es[i].key, i))
  }

  ghost predicate KeyOk(es: seq<Entry>, m: map<Bytes, Bytes>, at: map<Bytes, int>, k: Bytes) {
    k in m && k in at && 0 <= at[k] < |es| && es[at[k]] == Occupied(k, m[k])
  }

  // The slots hold exactly the map m: every key once, at the slot at[k], where probing finds it.
  ghost predicate Holds(es: seq<Entry>, hash: Hash, m: map<Bytes, Bytes>, at: map<Bytes, int>) {
    && at.Keys == m.Keys
    && (forall i {:trigger SlotOk(es, hash, m, at, i)} | 0 <= i < |es| :: SlotOk(es, hash, m, at, i))
    && (forall k {:trigger KeyOk(es, m, at, k)} | k in m :: KeyOk(es, m, at, k))
  }

  // ---- what one slot change does
  lemma PutNew(es: seq<Entry>, hash: Hash, m: map<Bytes, Bytes>, at: map<Bytes, int>, i: int, k: Bytes, v: Bytes)
    requires Holds(es, hash, m, at) && k !in m && Reaches(es, hash, k, i) && !es[i].Occupied?
    ensures Holds(es[i := Occupied(k, v)], hash, m[k := v], at[k := i])
  {
    var es', m', at' := es[i := Occupied(k, v)], m[k := v], at[k := i];
    forall j | 0 <= j < |es'| ensures SlotOk(es', hash, m', at', j) { assert SlotOk(es, hash, m, at, j); }
    forall q | q in m' ensures KeyOk(es', m', at', q) { if q != k { assert KeyOk(es, m, at, q); } }
  }

  lemma PutOld(es: seq<Entry>, hash: Hash, m: map<Bytes, Bytes>, at: map<Bytes, int>, i: int, v: Bytes)
    requires Holds(es, hash, m, at) && 0 <= i < |es| && es[i].Occupied?
    ensures Holds(es[i := Occupied(es[i].key, v)], hash, m[es[i].key := v], at)
  {
    var k := es[i].key;
    var es', m' := es[i := Occupied(k, v)], m[k := v];
    assert SlotOk(es, hash, m, at, i);
    forall j | 0 <= j < |es'| ensures SlotOk(es', hash, m', at, j) { assert SlotOk(es, hash, m, at, j); }
    forall q | q in m' ensures KeyOk(es', m', at, q) { assert KeyOk(es, m, at, q); }
  }

  // A tombstone keeps every other key reachable.
  lemma Bury(es: seq<Entry>, hash: Hash, m: map<Bytes, Bytes>, at: map<Bytes, int>, i: int)
    requires Holds(es, hash, m, at) && 0 <= i < |es| && es[i].Occupied?
    ensures Holds(es[i := Deleted], hash, m - {es[i].key}, at - {es[i].key})
  {
    var k := es[i].key;
    var es', m', at' := es[i := Deleted], m - {k}, at - {k};
    assert SlotOk(es, hash, m, at, i);
    forall j | 0 <= j < |es'| ensures SlotOk(es', hash, m', at', j) { assert SlotOk(es, hash, m, at, j); }
    forall q | q in m' ensures KeyOk(es', m', at', q) { assert KeyOk(es, m, at, q); }
  }

  // ---- a table that is not full has a free slot
  ghost function KeysUpTo(es: seq<Entry>, n: nat): set<Bytes>
    requires n <= |es|
  {
    set i | 0 <= i < n && es[i].Occupied? :: es[i].key
  }

  lemma {:induction false} FullMeans(es: seq<Entry>, hash: Hash, m: map<Bytes, Bytes>, at: map<Bytes, int>, n: nat)
    requires Holds(es, hash, m, at) && n <= |es| && forall i | 0 <= i < n :: es[i].Occupied?
    ensures |KeysUpTo(es, n)| == n && KeysUpTo(es, n) <= m.Keys
  {
    forall k | k in KeysUpTo(es, n) ensures k in m {
      var i :| 0 <= i < n && es[i].Occupied? && es[i].key == k;
      assert SlotOk(es, hash, m, at, i);
    }
    if n > 0 {
      FullMeans(es, hash, m, at, n - 1);
      var k := es[n - 1].key;
      assert KeysUpTo(es, n) == KeysUpTo(es, n - 1) + {k};
      forall i | 0 <= i < n - 1 ensures es[i].key != k {
        assert SlotOk(es, hash, m, at, i) && SlotOk(es, hash, m, at, n - 1);
      }
    }
  }

  lemma NotFull(es: seq<Entry>, hash: Hash, m: map<Bytes, Bytes>, at: map<Bytes, int>)
    requires Holds(es, hash, m, at) && |m| < |es|
    ensures exists i | 0 <= i < |es| :: !es[i].Occupied?
  {
    if forall i | 0 <= i < |es| :: es[i].Occupied? {
      FullMeans(es, hash, m, at, |es|);
      SubsetSize(KeysUpTo(es, |es|), m.Keys);
    }
  }

  // Slot i is the first from h on that holds no key.
  ghost predicate FirstFree(es: seq<Entry>, h: int, i: int) {
    0 <= i < |es| && !es[i].Occupied? && forall j | 0 <= j < |es| && Before(h, i, j) :: es[j].Occupied?
  }

  // ---- one pass of find_slot: the slots from h up to (not including) i have been looked at
  ghost predicate Scanned(es: seq<Entry>, key: Bytes, h: int, i: int, deleted: int) {
    && 0 <= h < |es| && 0 <= i < |es| && 0 <= deleted <= |es|
    && (forall j | 0 <= j < |es| && Before(h, i, j) :: !es[j].Empty? && !(es[j].Occupied? && es[j].key == key))
    && (if deleted < |es| then es[deleted].Deleted? && Before(h, i, deleted) && FirstFree(es, h, deleted)
        else forall j | 0 <= j < |es| && Before(h, i, j) :: es[j].Occupied?)
  }

  lemma RoundOnce(i: int, n: int)
    requires 0 <= i < n
    ensures (i + 1) % n == if i + 1 == n then 0 else i + 1
  {
  }

  lemma ScanStep(es: seq<Entry>, key: Bytes, h: int, i: int, deleted: int)
    requires Scanned(es, key, h, i, deleted) && !es[i].Empty? && !(es[i].Occupied? && es[i].key == key)
    requires (i + 1) % |es| != h
    ensures (i + 1) % |es| == (if i + 1 == |es| then 0 else i + 1)
    ensures Scanned(es, key, h, (i + 1) % |es|, if deleted == |es| && es[i].Deleted? then i else deleted)
  {
    RoundOnce(i, |es|);
  }

  lemma HeldKey(es: seq<Entry>, hash: Hash, m: map<Bytes, Bytes>, at: map<Bytes, int>, key: Bytes)
    requires Holds(es, hash, m, at) && key in m
    ensures KeyOk(es, m, at, key) && Reaches(es, hash, key, at[key])
  {
    assert KeyOk(es, m, at, key) && SlotOk(es, hash, m, at, at[key]);
  }

  // The scan met an empty slot: the key is not in the table, and the slot handed out keeps it reachable.
  lemma ScanEmpty(es: seq<Entry>, hash: Hash, m: map<Bytes, Bytes>, at: map<Bytes, int>, key: Bytes, i: int,
    deleted: int)
    requires Holds(es, hash, m, at) && |es| > 0 && Scanned(es, key, Home(hash, key, |es|), i, deleted) && es[i].Empty?
    ensures key !in m && Reaches(es, hash, key, if deleted < |es| then deleted else i)
    ensures FirstFree(es, Home(hash, key, |es|), if deleted < |es| then deleted else i)
  {
    if key in m {
      HeldKey(es, hash, m, at, key);
    }
  }

  // The scan came back to where it started.
  lemma ScanAll(es: seq<Entry>, hash: Hash, m: map<Bytes, Bytes>, at: map<Bytes, int>, key: Bytes, i: int, deleted: int)
    requires Holds(es, hash, m, at) && |m| < |es| && Scanned(es, key, Home(hash, key, |es|), i, deleted)
    requires !es[i].Empty? && !(es[i].Occupied? && es[i].key == key) && (i + 1) % |es| == Home(hash, key, |es|)
    ensures key !in m
    ensures var d := if deleted == |es| && es[i].Deleted? then i else deleted;
      d < |es| && es[d].Deleted? && Reaches(es, hash, key, d) && FirstFree(es, Home(hash, key, |es|), d)
  {
    var h := Home(hash, key, |es|);
    assert h == if i + 1 == |es| then 0 else i + 1 by {
      RoundOnce(i, |es|);
    }
    assert forall j | 0 <= j < |es| && j != i :: Before(h, i, j);
    if key in m {
      HeldKey(es, hash, m, at, key);
    }
    NotFull(es, hash, m, at);
  }

  // ---- ht_resize: the entries from the first i old slots have been moved
  ghost predicate Moved(c: map<Bytes, Bytes>, m: map<Bytes, Bytes>, at: map<Bytes, int>, i: int) {
    && at.Keys == m.Keys
    && (forall k | k in m :: k in c <==> at[k] < i)
    && (forall k | k in c :: k in m && c[k] == m[k])
  }

  lemma MovedNone(es: seq<Entry>, hash: Hash, m: map<Bytes, Bytes>, at: map<Bytes, int>)
    requires Holds(es, hash, m, at)
    ensures Moved(map[], m, at, 0)
  {
    forall k | k in m ensures at[k] >= 0 {
      assert KeyOk(es, m, at, k);
    }
  }

  lemma MovedMore(c: map<Bytes, Bytes>, m: map<Bytes, Bytes>, at: map<Bytes, int>, i: int, k: Bytes)
    requires Moved(c, m, at, i) && k in m && at[k] == i
    ensures |c| < |m|
  {
    assert c.Keys <= m.Keys - {k};
    SubsetSize(c.Keys, m.Keys - {k});
  }

  lemma MovedNext(es: seq<Entry>, hash: Hash, m: map<Bytes, Bytes>, at: map<Bytes, int>, i: int, b: map<Bytes, Bytes>)
    requires Holds(es, hash, m, at) && 0 <= i < |es| && Moved(b, m, at, i)
    ensures Moved(if es[i].Occupied? then b[es[i].key := es[i].value] else b, m, at, i + 1)
  {
    var c := if es[i].Occupied? then b[es[i].key := es[i].value] else b;
    assert SlotOk(es, hash, m, at, i);
    forall k | k in m ensures k in c <==> at[k] < i + 1 {
      assert KeyOk(es, m, at, k);
    }
  }

  lemma MovedAll(es: seq<Entry>, hash: Hash, m: map<Bytes, Bytes>, at: map<Bytes, int>, c: map<Bytes, Bytes>)
    requires Holds(es, hash, m, at) && Moved(c, m, at, |es|)
    ensures c == m
  {
    forall k | k in m ensures k in c && c[k] == m[k] {
      assert KeyOk(es, m, at, k);
    }
  }

  class Table {
    var entries: array<Entry>
    var size: nat
    var count: nat
    const hash: Hash

    // What the table is meant to hold, and the slot of every key.
    ghost var contents: map<Bytes, Bytes>
    ghost var at: map<Bytes, int>

    // At most three quarters of the slots are occupied.
    ghost predicate Valid()
      reads this, entries
    {
      && size == entries.Length && Prime(size)
      && Holds(entries[..], hash, contents, at)
      && count == |contents| && 4 * count <= 3 * size
    }

    constructor (initialSize: nat, hash: Hash)
      ensures Valid() && contents == map[] && fresh(entries) && this.hash == hash
      ensures var wanted := if initialSize != 0 then initialSize else 256; size > wanted && NoPrimeBetween(wanted, size)
    {
      var n := NextPrime(if initialSize != 0 then initialSize else DEFAULT_HASH_SIZE);
      var es := new Entry[n](_ => Empty);
      this.hash := hash;
      entries, size, count := es, n, 0;
      contents, at := map[], map[];
      new;
      forall i | 0 <= i < |entries[..]| ensures SlotOk(entries[..], hash, contents, at, i) {}
    }

    // find_slot. The answer is the key's slot, or the first slot on its way that holds no key, a tombstone included.
    method FindSlot(key: Bytes) returns (index: nat, found: bool)
      requires Valid()
      ensures index < size && found == (key in contents)
      ensures if found then at[key] == index && entries[index] == Occupied(key, contents[key])
              else !entries[index].Occupied? && Reaches(entries[..], hash, key, index) &&
                   FirstFree(entries[..], Home(hash, key, size), index)
    {
      ghost var es := entries[..];
      index := Home(hash, key, size);
      var original: nat := index;
      var deleted: nat := size;
      ghost var left := size;
      while true
        invariant Scanned(es, key, original, index, deleted)
        invariant left == (if index < original then original - index else size - (index - original))
        decreases left
      {
        assert SlotOk(es, hash, contents, at, index);
        if entries[index].Empty? {
          ScanEmpty(es, hash, contents, at, key, index, deleted);
          return if deleted != size then deleted else index, false;
        }
        if entries[index].Occupied? && entries[index].key == key {
          return index, true;
        }
        ghost var i, d := index, deleted;
        if entries[index].Deleted? && deleted == size {
          deleted := index;
        }
        index := (index + 1) % size;
        if index == original {
          ScanAll(es, hash, contents, at, key, i, d);
          break;
        }
        ScanStep(es, key, original, i, d);
        left := left - 1;
      }
      if deleted != size {
        index := deleted;
      }
      found := false;
    }

    // ht_get
    method Get(key: Bytes) returns (value: Option<Bytes>)
      requires Valid()
      ensures value == if key in contents then Some(contents[key]) else None
    {
      var index, found := FindSlot(key);
      if !found { return None; }
      return Some(entries[index].value);
    }

    // Whether inserting one more key makes the table grow.
    predicate Crowded()
      reads this
    {
      4 * (count + 1) > 3 * size
    }

    // Whether the entries fit into newSize slots without growing again.
    predicate Roomy(newSize: nat)
      reads this
    {
      4 * count <= 3 * (newSize + 1)
    }

    method PutAt(index: nat, found: bool, key: Bytes, value: Bytes)
      requires Valid() && index < size && found == (key in contents)
      requires if found then at[key] == index && entries[index] == Occupied(key, contents[key])
               else !entries[index].Occupied? && Reaches(entries[..], hash, key, index) && !Crowded()
      modifies `count, `contents, `at, entries
      ensures Valid() && contents == old(contents)[key := value]
    {
      ghost var es := entries[..];
      entries[index] := Occupied(key, value);
      assert entries[..] == es[index := Occupied(key, value)];
      if found {
        PutOld(es, hash, contents, at, index, value);
      } else {
        PutNew(es, hash, contents, at, index, key, value);
        at := at[key := index];
        count := count + 1;
      }
      contents := contents[key := value];
    }

    // ht_insert
    method Insert(key: Bytes, value: Bytes)
      requires Valid()
      modifies this, entries
      ensures Valid() && contents == old(contents)[key := value]
      ensures entries == old(entries) || fresh(entries)
      ensures !old(Crowded()) ==> size == old(size) && entries == old(entries)
      ensures old(Crowded()) ==> size > 2 * old(size) && NoPrimeBetween(2 * old(size), size)
      decreases if Crowded() then 2 else 0, 0
    {
      if 4 * (count + 1) > 3 * size {
        var _ := Resize(size * 2);
      }
      var index, found := FindSlot(key);
      PutAt(index, found, key, value);
    }

    // A fresh, empty array of n slots.
    method StartOver(n: nat)
      requires Prime(n)
      modifies this
      ensures Valid() && contents == map[] && size == n && fresh(entries)
    {
      entries := new Entry[n](_ => Empty);
      size := n;
      count := 0;
      contents, at := map[], map[];
      forall i | 0 <= i < |entries[..]| ensures SlotOk(entries[..], hash, contents, at, i) {}
    }

    // ht_resize. Its loop is MoveAll.
    method Resize(newSize: nat) returns (r: int)
      requires Valid()
      modifies this, entries
      ensures Valid() && contents == old(contents) && count == old(count)
      ensures r == if newSize < 1 then -1 else 0
      ensures newSize >= 1 ==> fresh(entries) && size > newSize
      ensures newSize < 1 ==> entries == old(entries) && size == old(size)
      ensures newSize >= 1 && old(Roomy(newSize)) ==> NoPrimeBetween(newSize, size)
      decreases if Roomy(newSize) then 1 else 3, 1
    {
      if newSize < 1 { return -1; }
      var n := NextPrime(newSize);
      var oldEntries := entries;
      ghost var m, spot, roomy := contents, at, Roomy(newSize);
      StartOver(n);
      MoveAll(oldEntries, m, spot, roomy);
      return 0;
    }

    // Puts the entries of an old table, which held m, into this one.
    method MoveAll(oldEntries: array<Entry>, ghost m: map<Bytes, Bytes>, ghost spot: map<Bytes, int>, ghost roomy: bool)
      requires Valid() && contents == map[] && oldEntries != entries && Holds(oldEntries[..], hash, m, spot)
      requires roomy ==> 4 * |m| <= 3 * size
      modifies this, entries
      ensures Valid() && contents == m && size >= old(size) && (entries == old(entries) || fresh(entries))
      ensures roomy ==> size == old(size)
      decreases if roomy then 1 else 3, 0
    {
      ghost var es := oldEntries[..];
      MovedNone(es, hash, m, spot);
      for i := 0 to oldEntries.Length
        invariant Valid() && (entries == old(entries) || fresh(entries)) && oldEntries[..] == es && size >= old(size)
        invariant roomy ==> size == old(size)
        invariant Moved(contents, m, spot, i)
      {
        assert SlotOk(es, hash, m, spot, i);
        MovedNext(es, hash, m, spot, i, contents);
        if oldEntries[i].Occupied? {
          MovedMore(contents, m, spot, i, oldEntries[i].key);
          Insert(oldEntries[i].key, oldEntries[i].value);
        }
      }
      MovedAll(es, hash, m, spot, contents);
    }

    method BuryAt(index: nat)
      requires Valid() && index < size && entries[index].Occupied?
      modifies `count, `contents, `at, entries
      ensures Valid() && contents == old(contents) - {old(entries[index].key)} && count == old(count) - 1
    {
      ghost var es, k := entries[..], entries[index].key;
      assert SlotOk(es, hash, contents, at, index);
      entries[index] := Deleted;
      assert entries[..] == es[index := Deleted];
      Bury(es, hash, contents, at, index);
      contents, at := contents - {k}, at - {k};
      assert old(contents).Keys == contents.Keys + {k};
      count := count - 1;
    }

    // ht_remove
    method Remove(key: Bytes) returns (r: int)
      requires Valid()
      modifies this, entries
      ensures Valid() && contents == old(contents) - {key}
      ensures r == if key in old(contents) then 0 else -1
      ensures entries == old(entries) || fresh(entries)
      ensures key in old(contents) && 4 * (old(count) - 1) < old(size) && old(size) > DEFAULT_HASH_SIZE ==>
                size > old(size) / 2 && NoPrimeBetween(old(size) / 2, size)
      ensures !(key in old(contents) && 4 * (old(count) - 1) < old(size) && old(size) > DEFAULT_HASH_SIZE) ==>
                size == old(size) && entries == old(entries)
    {
      var index, found := FindSlot(key);
      if !found { return -1; }
      BuryAt(index);
      if 4 * count < size && size > DEFAULT_HASH_SIZE {
        var _ := Resize(size / 2);
      }
      return 0;
    }

    // ht_clear
    method Clear()
      requires Valid()
      modifies this, entries
      ensures Valid() && contents == map[] && entries == old(entries)
      ensures forall i | 0 <= i < size :: entries[i] == if old(entries[i]).Deleted? then Deleted else Empty
    {
      for i := 0 to size
        modifies entries
        invariant size == entries.Length
        invariant forall j | 0 <= j < i :: entries[j] == if old(entries[j]).Deleted? then Deleted else Empty
        invariant forall j | i <= j < size :: entries[j] == old(entries[j])
      {
        if entries[i].Occupied? {
          entries[i] := Empty;
        }
      }
      count := 0;
      contents, at := map[], map[];
      forall i | 0 <= i < |entries[..]| ensures SlotOk(entries[..], hash, contents, at, i) {}
    }
  }

  // ---- whole runs against a mathematical map
  datatype Op = Put(key: Bytes, value: Bytes) | Drop(key: Bytes) | Look(key: Bytes) | Rebuild(size: nat) | Wipe
  datatype Answer = Code(r: int) | Value(value: Option<Bytes>)

  function MapNext(m: map<Bytes, Bytes>, op: Op): map<Bytes, Bytes> {
    match op
    case Put(k, v) => m[k := v]
    case Drop(k) => m - {k}
    case Wipe => map[]
    case _ => m
  }

  function MapAnswer(m: map<Bytes, Bytes>, op: Op): Answer {
    match op
    case Drop(k) => Code(if k in m then 0 else -1)
    case Look(k) => Value(if k in m then Some(m[k]) else None)
    case Rebuild(n) => Code(if n < 1 then -1 else 0)
    case _ => Code(0)
  }

  function MapAfter(m: map<Bytes, Bytes>, ops: seq<Op>): map<Bytes, Bytes> {
    if ops == [] then m else MapNext(MapAfter(m, ops[..|ops| - 1]), ops[|ops| - 1])
  }

  function MapAnswers(m: map<Bytes, Bytes>, ops: seq<Op>): seq<Answer> {
    if ops == [] then []
    else MapAnswers(m, ops[..|ops| - 1]) + [MapAnswer(MapAfter(m, ops[..|ops| - 1]), ops[|ops| - 1])]
  }

  lemma MapStep(m: map<Bytes, Bytes>, ops: seq<Op>, k: nat)
    requires k < |ops|
    ensures MapAfter(m, ops[..k + 1]) == MapNext(MapAfter(m, ops[..k]), ops[k])
    ensures MapAnswers(m, ops[..k + 1]) == MapAnswers(m, ops[..k]) + [MapAnswer(MapAfter(m, ops[..k]), ops[k])]
  {
    assert ops[..k + 1][..k] == ops[..k];
  }

  method Perform(t: Table, op: Op) returns (a: Answer)
    requires t.Valid()
    modifies t, t.entries
    ensures t.Valid() && t.contents == MapNext(old(t.contents), op) && a == MapAnswer(old(t.contents), op)
    ensures t.entries == old(t.entries) || fresh(t.entries)
  {
    a := Code(0);
    match op {
      case Put(k, v) => t.Insert(k, v);
      case Drop(k) => var r := t.Remove(k); a := Code(r);
      case Look(k) => var v := t.Get(k); a := Value(v);
      case Rebuild(n) => var r := t.Resize(n); a := Code(r);
      case Wipe => t.Clear();
    }
  }

  // Whatever is done with the table, it answers as the map does, and in the end it holds what the map holds.
  method PerformAll(t: Table, ops: seq<Op>) returns (answers: seq<Answer>)
    requires t.Valid()
    modifies t, t.entries
    ensures t.Valid() && t.contents == MapAfter(old(t.contents), ops) && answers == MapAnswers(old(t.contents), ops)
  {
    answers := [];
    ghost var m := t.contents;
    for k := 0 to |ops|
      invariant t.Valid() && (t.entries == old(t.entries) || fresh(t.entries))
      invariant t.contents == MapAfter(m, ops[..k]) && answers == MapAnswers(m, ops[..k])
    {
      MapStep(m, ops, k);
      var a := Perform(t, ops[k]);
      answers := answers + [a];
    }
    assert ops[..|ops|] == ops;
  }
}
