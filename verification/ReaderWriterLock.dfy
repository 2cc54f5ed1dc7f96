/**
 The writer-preferring reader-writer lock of spinlock.c (rwspin_*) on top of its test-and-set lock, as a transition
 system: one step is one access of one thread to one field of the lock.
 */
module ReaderWriterLock {
  import opened Machine

  // The critical sections under the internal lock: rwspin_read_lock and its try form, rwspin_read_unlock, the two
  // halves of rwspin_write_lock, rwspin_write_unlock, rwspin_try_write_lock.
  datatype Job = ReadLock(try: bool) | ReadUnlock | Announce | WriteLock | WriteUnlock | TryWrite

  // Spin waits for the internal lock; In is inside it, about to do access number line; Leave is about to release it.
  datatype Thread =
    | Idle
    | Reading
    | Writing
    | Spin(job: Job)
    | In(job: Job, line: nat, tmp: uint32)
    | Leave(job: Job, ok: bool)

  datatype Lock = Lock(lock: bool, readers: uint32, writers: uint32, writing: bool)

  datatype State = State(mem: Lock, threads: map<nat, Thread>)

  function Init(ids: set<nat>): State {
    State(Lock(false, 0, 0, false), map t | t in ids :: Idle)
  }

  // One access inside the critical section.
  function Access(m: Lock, job: Job, line: nat, tmp: uint32): (Lock, Thread) {
    match job
    case ReadLock(_) =>
      if line == 0 then (m, if m.writing then Leave(job, false) else In(job, 1, 0))
      else if line == 1 then (m, if m.writers != 0 then Leave(job, false) else In(job, 2, 0))
      else if line == 2 then (m, In(job, 3, m.readers))
      else (m.(readers := Wrap(tmp + 1)), Leave(job, true))
    case ReadUnlock =>
      if line == 0 then (m, In(job, 1, m.readers))
      else (m.(readers := Wrap(tmp - 1)), Leave(job, true))
    case Announce =>
      if line == 0 then (m, In(job, 1, m.writers))
      else (m.(writers := Wrap(tmp + 1)), Leave(job, true))
    case WriteLock =>
      if line == 0 then (m, if m.writing then Leave(job, false) else In(job, 1, 0))
      else if line == 1 then (m, if m.readers != 0 then Leave(job, false) else In(job, 2, 0))
      else (m.(writing := true), Leave(job, true))
    case WriteUnlock =>
      if line == 0 then (m.(writing := false), In(job, 1, 0))
      else if line == 1 then (m, In(job, 2, m.writers))
      else (m.(writers := Wrap(tmp - 1)), Leave(job, true))
    case TryWrite =>
      if line == 0 then (m, if m.writing then Leave(job, false) else In(job, 1, 0))
      else if line == 1 then (m, if m.readers != 0 then Leave(job, false) else In(job, 2, 0))
      else if line == 2 then (m.(writing := true), In(job, 3, 0))
      else if line == 3 then (m, In(job, 4, m.writers))
      else (m.(writers := Wrap(tmp + 1)), Leave(job, true))
  }

  // Where a thread is after it released the internal lock.
  function Released(job: Job, ok: bool): Thread {
    match job
    case ReadLock(try) => if ok then Reading else if try then Idle else Spin(job)
    case ReadUnlock => Idle
    case Announce => Spin(WriteLock)
    case WriteLock => if ok then Writing else Spin(job)
    case WriteUnlock => Idle
    case TryWrite => if ok then Writing else Idle
  }

  // The operations an idle thread may call.
  predicate Callable(job: Job) {
    job.ReadLock? || job.Announce? || job.TryWrite?
  }

  // One step of a thread; call is the operation it calls if it is idle.
  function Next(m: Lock, th: Thread, call: Job): (Lock, Thread)
    requires Callable(call)
  {
    match th
    case Idle => (m, Spin(call))
    case Reading => (m, Spin(ReadUnlock))
    case Writing => (m, Spin(WriteUnlock))
    case Spin(job) => if m.lock then (m, th) else (m.(lock := true), In(job, 0, 0))
    case In(job, line, tmp) => Access(m, job, line, tmp)
    case Leave(job, ok) => (m.(lock := false), Released(job, ok))
  }

  function Step(s: State, t: nat, call: Job): State
    requires t in s.threads && Callable(call)
  {
    var (m, th) := Next(s.mem, s.threads[t], call);
    State(m, s.threads[t := th])
  }

  // ---- who holds what
  // From the store that counts a reader to the store that discounts it.
  predicate IsReader(th: Thread) {
    match th
    case Reading => true
    case Spin(job) => job.ReadUnlock?
    case In(job, _, _) => job.ReadUnlock?
    case Leave(job, ok) => job.ReadLock? && ok
    case _ => false
  }

  // From the store that sets writing to the store that clears it.
  predicate IsWriter(th: Thread) {
    match th
    case Writing => true
    case Spin(job) => job.WriteUnlock?
    case In(job, line, _) => (job.WriteUnlock? && line == 0) || (job.TryWrite? && line >= 3)
    case Leave(job, ok) => (job.WriteLock? || job.TryWrite?) && ok
    case _ => false
  }

  // From the store that counts a writer to the store that discounts it: waiting or active.
  predicate IsAnnounced(th: Thread) {
    match th
    case Writing => true
    case Spin(job) => job.WriteLock? || job.WriteUnlock?
    case In(job, _, _) => job.WriteLock? || job.WriteUnlock?
    case Leave(job, ok) => job.Announce? || job.WriteLock? || (job.TryWrite? && ok)
    case _ => false
  }

  predicate IsInside(th: Thread) {
    th.In? || th.Leave?
  }

  function Readers(s: State): set<nat> { set t | t in s.threads && IsReader(s.threads[t]) }
  function Writers(s: State): set<nat> { set t | t in s.threads && IsWriter(s.threads[t]) }
  function Announced(s: State): set<nat> { set t | t in s.threads && IsAnnounced(s.threads[t]) }
  function Inside(s: State): set<nat> { set t | t in s.threads && IsInside(s.threads[t]) }

  // ---- the invariant
  // What a thread inside the critical section has already found out.
  ghost predicate LineOk(m: Lock, th: Thread) {
    match th
    case In(job, line, tmp) =>
      (match job
       case ReadLock(_) =>
         line <= 3 && (line >= 1 ==> !m.writing) && (line >= 2 ==> m.writers == 0) && (line == 3 ==> tmp == m.readers)
       case ReadUnlock => line <= 1 && (line == 1 ==> tmp == m.readers)
       case Announce => line <= 1 && (line == 1 ==> tmp == m.writers)
       case WriteLock => line <= 2 && (line >= 1 ==> !m.writing) && (line == 2 ==> m.readers == 0)
       case WriteUnlock => line <= 2 && (line == 2 ==> tmp == m.writers)
       case TryWrite =>
         line <= 4 && (1 <= line <= 2 ==> !m.writing) && (line == 2 ==> m.readers == 0) &&
           (line == 4 ==> tmp == m.writers))
    case _ => true
  }

  // The fields against the number of readers, active writers, announced writers and threads inside.
  ghost predicate Tally(m: Lock, r: int, w: int, a: int, i: int) {
    && m.readers == r && m.writers == a
    && 0 <= w <= 1 && (m.writing <==> w == 1) && (m.writing ==> r == 0)
    && 0 <= i <= 1 && (m.lock <==> i == 1)
  }

  ghost predicate Inv(s: State) {
    && |s.threads| < TWO32
    && Tally(s.mem, |Readers(s)|, |Writers(s)|, |Announced(s)|, |Inside(s)|)
    && (forall t {:trigger LineOk(s.mem, s.threads[t])} | t in s.threads :: LineOk(s.mem, s.threads[t]))
  }

  // One step keeps the tally, given that the thread is counted where it belongs and no count reaches 2^32.
  lemma AccessKeepsTally(m: Lock, th: Thread, call: Job, r: nat, w: nat, a: nat, i: nat)
    requires th.In? && Callable(call) && Tally(m, r, w, a, i) && LineOk(m, th)
    requires Bit(IsReader(th)) <= r && Bit(IsWriter(th)) <= w && Bit(IsAnnounced(th)) <= a && Bit(IsInside(th)) <= i
    requires var th' := Next(m, th, call).1;
      r + Bit(IsReader(th')) - Bit(IsReader(th)) < TWO32 && a + Bit(IsAnnounced(th')) - Bit(IsAnnounced(th)) < TWO32
    ensures var (m', th') := Next(m, th, call);
      && Tally(m', r + Bit(IsReader(th')) - Bit(IsReader(th)), w + Bit(IsWriter(th')) - Bit(IsWriter(th)),
               a + Bit(IsAnnounced(th')) - Bit(IsAnnounced(th)), i + Bit(IsInside(th')) - Bit(IsInside(th)))
      && LineOk(m', th')
  {
  }

  lemma NextKeepsTally(m: Lock, th: Thread, call: Job, r: nat, w: nat, a: nat, i: nat)
    requires Callable(call) && Tally(m, r, w, a, i) && LineOk(m, th)
    requires Bit(IsReader(th)) <= r && Bit(IsWriter(th)) <= w && Bit(IsAnnounced(th)) <= a && Bit(IsInside(th)) <= i
    requires var th' := Next(m, th, call).1;
      r + Bit(IsReader(th')) - Bit(IsReader(th)) < TWO32 && a + Bit(IsAnnounced(th')) - Bit(IsAnnounced(th)) < TWO32
    ensures var (m', th') := Next(m, th, call);
      && Tally(m', r + Bit(IsReader(th')) - Bit(IsReader(th)), w + Bit(IsWriter(th')) - Bit(IsWriter(th)),
               a + Bit(IsAnnounced(th')) - Bit(IsAnnounced(th)), i + Bit(IsInside(th')) - Bit(IsInside(th)))
      && LineOk(m', th')
  {
    if th.In? { AccessKeepsTally(m, th, call, r, w, a, i); }
  }

  lemma Counts(s: State, s': State, t: nat)
    requires t in s.threads && t in s'.threads && s'.threads == s.threads[t := s'.threads[t]]
    ensures var x, y := s.threads[t], s'.threads[t];
      && |Readers(s')| == |Readers(s)| + Bit(IsReader(y)) - Bit(IsReader(x))
      && |Writers(s')| == |Writers(s)| + Bit(IsWriter(y)) - Bit(IsWriter(x))
      && |Announced(s')| == |Announced(s)| + Bit(IsAnnounced(y)) - Bit(IsAnnounced(x))
      && |Inside(s')| == |Inside(s)| + Bit(IsInside(y)) - Bit(IsInside(x))
      && |s'.threads| == |s.threads|
  {
    CardDiffer(Readers(s), Readers(s'), t);
    CardDiffer(Writers(s), Writers(s'), t);
    CardDiffer(Announced(s), Announced(s'), t);
    CardDiffer(Inside(s), Inside(s'), t);
    assert s'.threads.Keys == s.threads.Keys;
  }

  lemma Counted(s: State, t: nat)
    requires t in s.threads
    ensures var th := s.threads[t];
      && Bit(IsReader(th)) <= |Readers(s)| <= |s.threads| && Bit(IsWriter(th)) <= |Writers(s)|
      && Bit(IsAnnounced(th)) <= |Announced(s)| <= |s.threads| && Bit(IsInside(th)) <= |Inside(s)|
  {
    SubsetSize(Readers(s), s.threads.Keys);
    SubsetSize(Announced(s), s.threads.Keys);
    if t in Readers(s) { SubsetSize({t}, Readers(s)); }
    if t in Writers(s) { SubsetSize({t}, Writers(s)); }
    if t in Announced(s) { SubsetSize({t}, Announced(s)); }
    if t in Inside(s) { SubsetSize({t}, Inside(s)); }
  }

  // A thread inside the critical section is the only one, so the others know nothing that could become wrong.
  lemma OthersKeep(s: State, t: nat, call: Job, u: nat)
    requires Inv(s) && t in s.threads && u in s.threads && u != t && Callable(call)
    ensures LineOk(Step(s, t, call).mem, s.threads[u])
  {
    assert LineOk(s.mem, s.threads[u]);
    if IsInside(s.threads[t]) && IsInside(s.threads[u]) {
      SubsetSize({t, u}, Inside(s));
    }
  }

  lemma StepKeepsInv(s: State, t: nat, call: Job)
    requires Inv(s) && t in s.threads && Callable(call)
    ensures Inv(Step(s, t, call))
  {
    var s' := Step(s, t, call);
    Counts(s, s', t);
    Counted(s, t);
    Counted(s', t);
    assert LineOk(s.mem, s.threads[t]);
    NextKeepsTally(s.mem, s.threads[t], call, |Readers(s)|, |Writers(s)|, |Announced(s)|, |Inside(s)|);
    forall u | u in s'.threads ensures LineOk(s'.mem, s'.threads[u]) {
      if u != t { OthersKeep(s, t, call, u); }
    }
  }

  // ---- whole runs
  function After(s: State, w: seq<(nat, Job)>): State {
    if w == [] then s
    else
      var before := After(s, w[..|w| - 1]);
      var (t, call) := w[|w| - 1];
      if t in before.threads && Callable(call) then Step(before, t, call) else before
  }

  lemma {:induction false} RunInv(ids: set<nat>, w: seq<(nat, Job)>)
    requires |ids| < TWO32
    ensures Inv(After(Init(ids), w))
  {
    if w == [] {
      var s := Init(ids);
      assert s.threads.Keys == ids;
      assert Readers(s) == {} && Writers(s) == {} && Announced(s) == {} && Inside(s) == {};
    } else {
      var k := |w| - 1;
      RunInv(ids, w[..k]);
      var before := After(Init(ids), w[..k]);
      if w[k].0 in before.threads && Callable(w[k].1) {
        StepKeepsInv(before, w[k].0, w[k].1);
      }
    }
  }

  // readers counts the read holders, writers the announced and active writers; writing is set exactly while one thread
  // has write access, and then nobody has read access; at most one thread is inside the internal lock.
  lemma EveryRunIsExclusive(ids: set<nat>, w: seq<(nat, Job)>)
    requires |ids| < TWO32
    ensures var s := After(Init(ids), w);
      && s.mem.readers == |Readers(s)| && s.mem.writers == |Announced(s)|
      && (s.mem.writing <==> Writers(s) != {}) && |Writers(s)| <= 1
      && (Writers(s) != {} ==> Readers(s) == {})
      && |Inside(s)| <= 1
  {
    RunInv(ids, w);
    var s := After(Init(ids), w);
    if Writers(s) != {} {
      var t :| t in Writers(s);
      SubsetSize({t}, Writers(s));
    }
  }

  // From a writer's announcement until its unlock no new reader is admitted.
  lemma WritersGoFirst(ids: set<nat>, w: seq<(nat, Job)>, t: nat, call: Job)
    requires |ids| < TWO32
    requires var s := After(Init(ids), w); t in s.threads && Callable(call) && Announced(s) != {}
    ensures var s := After(Init(ids), w); Readers(Step(s, t, call)) <= Readers(s)
  {
    RunInv(ids, w);
    var s := After(Init(ids), w);
    var u :| u in Announced(s);
    SubsetSize({u}, Announced(s));
    assert LineOk(s.mem, s.threads[t]);
  }

  // ---- progress
  // n steps of thread t alone.
  function Alone(s: State, t: nat, n: nat): (r: State)
    requires t in s.threads
    ensures t in r.threads
  {
    if n == 0 then s else Step(Alone(s, t, n - 1), t, TryWrite)
  }

  // The same for the lock and the thread only.
  function Iterate(m: Lock, th: Thread, n: nat): (Lock, Thread) {
    if n == 0 then (m, th)
    else
      var (m', th') := Iterate(m, th, n - 1);
      Next(m', th', TryWrite)
  }

  lemma {:induction false} AloneIs(s: State, t: nat, n: nat)
    requires t in s.threads
    ensures var (m, th) := Iterate(s.mem, s.threads[t], n); Alone(s, t, n) == State(m, s.threads[t := th])
  {
    if n == 0 {
      assert s.threads[t := s.threads[t]] == s.threads;
    } else {
      AloneIs(s, t, n - 1);
    }
  }

  // s' is s but for thread t, which is at th, and nobody is inside.
  ghost predicate Ends(s: State, s': State, t: nat, th: Thread, readers: set<nat>, writers: set<nat>,
                       announced: set<nat>) {
    && t in s.threads && s'.threads == s.threads[t := th] && Inside(s') == {}
    && Readers(s') == readers && Writers(s') == writers && Announced(s') == announced
  }

  function Joined(threads: set<nat>, t: nat, was: bool, now: bool): set<nat> {
    if was == now then threads else if now then threads + {t} else threads - {t}
  }

  lemma Moves(s: State, s': State, t: nat, th: Thread)
    requires t in s.threads && Inside(s) == {} && s'.threads == s.threads[t := th] && !IsInside(th)
    ensures var was := s.threads[t];
      Ends(s, s', t, th, Joined(Readers(s), t, IsReader(was), IsReader(th)),
           Joined(Writers(s), t, IsWriter(was), IsWriter(th)),
           Joined(Announced(s), t, IsAnnounced(was), IsAnnounced(th)))
  {
    assert forall u | u in s.threads :: u in Inside(s) <==> IsInside(s.threads[u]);
  }

  lemma IterateStep(m: Lock, th: Thread, n: nat)
    ensures var (m', th') := Iterate(m, th, n); Iterate(m, th, n + 1) == Next(m', th', TryWrite)
  {
  }

  lemma Steps(m: Lock, th: Thread)
    ensures Iterate(m, th, 1) == Next(m, th, TryWrite)
    ensures Iterate(m, th, 2) == Next(Iterate(m, th, 1).0, Iterate(m, th, 1).1, TryWrite)
    ensures Iterate(m, th, 3) == Next(Iterate(m, th, 2).0, Iterate(m, th, 2).1, TryWrite)
    ensures Iterate(m, th, 4) == Next(Iterate(m, th, 3).0, Iterate(m, th, 3).1, TryWrite)
    ensures Iterate(m, th, 5) == Next(Iterate(m, th, 4).0, Iterate(m, th, 4).1, TryWrite)
    ensures Iterate(m, th, 6) == Next(Iterate(m, th, 5).0, Iterate(m, th, 5).1, TryWrite)
    ensures Iterate(m, th, 7) == Next(Iterate(m, th, 6).0, Iterate(m, th, 6).1, TryWrite)
  {
    IterateStep(m, th, 0);
    IterateStep(m, th, 1);
    IterateStep(m, th, 2);
    IterateStep(m, th, 3);
    IterateStep(m, th, 4);
    IterateStep(m, th, 5);
    IterateStep(m, th, 6);
  }

  // The fields, for a state in which nobody is inside.
  lemma FieldsAre(s: State)
    requires Inv(s) && Inside(s) == {}
    ensures !s.mem.lock && (s.mem.writing <==> Writers(s) != {})
    ensures (s.mem.readers == 0 <==> Readers(s) == {}) && (s.mem.writers == 0 <==> Announced(s) == {})
  {
    if Writers(s) != {} {
      var t :| t in Writers(s);
      SubsetSize({t}, Writers(s));
    }
    if Readers(s) != {} {
      var t :| t in Readers(s);
      SubsetSize({t}, Readers(s));
    }
    if Announced(s) != {} {
      var t :| t in Announced(s);
      SubsetSize({t}, Announced(s));
    }
  }

  // A thread that wants to read and runs alone gets in if and only if no writer is announced or active; otherwise the
  // try fails, and the waiting form starts over, with nothing changed.
  lemma ReadAlone(s: State, t: nat, try: bool) returns (n: nat)
    requires Inv(s) && Inside(s) == {} && t in s.threads && s.threads[t] == Spin(ReadLock(try))
    ensures 0 < n <= 6
    ensures if Announced(s) == {} && Writers(s) == {}
            then Ends(s, Alone(s, t, n), t, Reading, Readers(s) + {t}, Writers(s), Announced(s))
            else Ends(s, Alone(s, t, n), t, if try then Idle else Spin(ReadLock(try)), Readers(s), Writers(s),
                      Announced(s))
  {
    FieldsAre(s);
    var m := s.mem;
    n := if m.writing then 3 else if m.writers != 0 then 4 else 6;
    ReadIterates(m, try);
    AloneIs(s, t, n);
    Moves(s, Alone(s, t, n), t, Iterate(m, s.threads[t], n).1);
  }

  lemma ReadIterates(m: Lock, try: bool)
    requires !m.lock
    ensures var again := if try then Idle else Spin(ReadLock(try)); var th := Spin(ReadLock(try));
      if m.writing then Iterate(m, th, 3).1 == again
      else if m.writers != 0 then Iterate(m, th, 4).1 == again
      else Iterate(m, th, 6).1 == Reading
  {
    Steps(m, Spin(ReadLock(try)));
  }

  // A thread that waits or tries to write and runs alone gets in if and only if nobody reads or writes; otherwise the
  // try fails, and the waiting form starts over, with nothing changed.
  lemma WriteAlone(s: State, t: nat) returns (n: nat)
    requires Inv(s) && Inside(s) == {} && t in s.threads && s.threads[t] == Spin(WriteLock)
    ensures 0 < n <= 5
    ensures if Readers(s) == {} && Writers(s) == {}
            then Ends(s, Alone(s, t, n), t, Writing, Readers(s), Writers(s) + {t}, Announced(s))
            else Ends(s, Alone(s, t, n), t, Spin(WriteLock), Readers(s), Writers(s), Announced(s))
  {
    FieldsAre(s);
    var m := s.mem;
    n := if m.writing then 3 else if m.readers != 0 then 4 else 5;
    WriteIterates(m);
    AloneIs(s, t, n);
    Moves(s, Alone(s, t, n), t, Iterate(m, s.threads[t], n).1);
  }

  lemma WriteIterates(m: Lock)
    requires !m.lock
    ensures var th := Spin(WriteLock);
      if m.writing then Iterate(m, th, 3).1 == th
      else if m.readers != 0 then Iterate(m, th, 4).1 == th
      else Iterate(m, th, 5).1 == Writing
  {
    Steps(m, Spin(WriteLock));
  }

  lemma TryWriteAlone(s: State, t: nat) returns (n: nat)
    requires Inv(s) && Inside(s) == {} && t in s.threads && s.threads[t] == Spin(TryWrite)
    ensures 0 < n <= 7
    ensures if Readers(s) == {} && Writers(s) == {}
            then Ends(s, Alone(s, t, n), t, Writing, Readers(s), Writers(s) + {t}, Announced(s) + {t})
            else Ends(s, Alone(s, t, n), t, Idle, Readers(s), Writers(s), Announced(s))
  {
    FieldsAre(s);
    var m := s.mem;
    n := if m.writing then 3 else if m.readers != 0 then 4 else 7;
    TryWriteIterates(m);
    AloneIs(s, t, n);
    Moves(s, Alone(s, t, n), t, Iterate(m, s.threads[t], n).1);
  }

  lemma TryWriteIterates(m: Lock)
    requires !m.lock
    ensures var th := Spin(TryWrite);
      if m.writing then Iterate(m, th, 3).1 == Idle
      else if m.readers != 0 then Iterate(m, th, 4).1 == Idle
      else Iterate(m, th, 7).1 == Writing
  {
    Steps(m, Spin(TryWrite));
  }

  // A writer that runs alone is announced; readers and writers that unlock alone are gone.
  lemma OthersAlone(s: State, t: nat, job: Job)
    requires Inv(s) && Inside(s) == {} && t in s.threads && s.threads[t] == Spin(job)
    ensures job.Announce? ==>
              Ends(s, Alone(s, t, 4), t, Spin(WriteLock), Readers(s), Writers(s), Announced(s) + {t})
    ensures job.ReadUnlock? ==> Ends(s, Alone(s, t, 4), t, Idle, Readers(s) - {t}, Writers(s), Announced(s))
    ensures job.WriteUnlock? ==> Ends(s, Alone(s, t, 5), t, Idle, Readers(s), Writers(s) - {t}, Announced(s) - {t})
  {
    FieldsAre(s);
    OthersIterate(s.mem, job);
    AloneIs(s, t, 4);
    AloneIs(s, t, 5);
    if job.Announce? { Moves(s, Alone(s, t, 4), t, Spin(WriteLock)); }
    if job.ReadUnlock? { Moves(s, Alone(s, t, 4), t, Idle); }
    if job.WriteUnlock? { Moves(s, Alone(s, t, 5), t, Idle); }
  }

  lemma OthersIterate(m: Lock, job: Job)
    requires !m.lock
    ensures job.Announce? ==> Iterate(m, Spin(job), 4).1 == Spin(WriteLock)
    ensures job.ReadUnlock? ==> Iterate(m, Spin(job), 4).1 == Idle
    ensures job.WriteUnlock? ==> Iterate(m, Spin(job), 5).1 == Idle
  {
    Steps(m, Spin(job));
  }

  // What an idle thread calls, and that holders unlock.
  lemma CallStarts(s: State, t: nat, call: Job)
    requires t in s.threads && Callable(call)
    ensures s.threads[t].Idle? ==> Step(s, t, call).threads[t] == Spin(call)
    ensures s.threads[t].Reading? ==> Step(s, t, call).threads[t] == Spin(ReadUnlock)
    ensures s.threads[t].Writing? ==> Step(s, t, call).threads[t] == Spin(WriteUnlock)
  {
  }
}
