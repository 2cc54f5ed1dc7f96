/** The traffic shaper of mini_rtos/src/traffic_control.c: a token bucket in 32-bit arithmetic. */
module TokenBucket {
  import opened Arithmetic
  import opened Machine

  datatype Bucket = Bucket(rate: uint32, size: uint32, tokens: uint32, last: uint32)

  // (elapsed * token_rate) / 1000, with the product cut to 32 bits.
  function Refill(elapsed: uint32, rate: uint32): uint32 {
    Wrap(elapsed * rate) / 1000
  }

  // update_shaper
  function Update(b: Bucket, now: uint32): Bucket {
    var sum := Wrap(b.tokens + Refill(Wrap(now - b.last), b.rate));
    b.(tokens := if b.size < sum then b.size else sum, last := now)
  }

  // consume_tokens
  function Consume(b: Bucket, now: uint32, n: uint32): (Bucket, bool) {
    var u := Update(b, now);
    if u.tokens >= n then (u.(tokens := u.tokens - n), true) else (u, false)
  }

  // A call of tc_check_rate at a time in milliseconds, of which the code sees the low 32 bits.
  datatype Call = Call(time: nat, n: uint32)

  function Admit(b: Bucket, c: Call): (Bucket, nat) {
    var (b', ok) := Consume(b, Wrap(c.time), c.n);
    (b', if ok then c.n else 0)
  }

  function After(b: Bucket, calls: seq<Call>): Bucket {
    if calls == [] then b else Admit(After(b, calls[..|calls| - 1]), calls[|calls| - 1]).0
  }

  // The tokens admitted by a sequence of calls.
  function Admitted(b: Bucket, calls: seq<Call>): nat {
    if calls == [] then 0
    else Admitted(b, calls[..|calls| - 1]) + Admit(After(b, calls[..|calls| - 1]), calls[|calls| - 1]).1
  }

  function LastTime(start: nat, calls: seq<Call>): nat {
    if calls == [] then start else calls[|calls| - 1].time
  }

  ghost predicate NotAfter(calls: seq<Call>, i: int, j: int) {
    0 <= i <= j < |calls| && calls[i].time <= calls[j].time
  }

  ghost predicate InOrder(calls: seq<Call>) {
    forall i, j {:trigger NotAfter(calls, i, j)} | 0 <= i <= j < |calls| :: NotAfter(calls, i, j)
  }

  lemma SliceInOrder(calls: seq<Call>, i: nat, j: nat)
    requires InOrder(calls) && i <= j <= |calls|
    ensures InOrder(calls[i..j])
  {
    forall k, l | 0 <= k <= l < j - i ensures NotAfter(calls[i..j], k, l) {
      assert NotAfter(calls, i + k, i + l);
    }
  }

  // The times of the calls do not decrease, from start on.
  ghost predicate Ordered(start: nat, calls: seq<Call>) {
    InOrder(calls) && (calls != [] ==> start <= calls[0].time)
  }

  lemma OrderedPrefix(start: nat, calls: seq<Call>)
    requires Ordered(start, calls) && calls != []
    ensures Ordered(start, calls[..|calls| - 1]) && start <= LastTime(start, calls[..|calls| - 1])
    ensures LastGap(start, calls) >= 0
  {
    var k := |calls| - 1;
    SliceInOrder(calls, 0, k);
    assert calls[0..k] == calls[..k];
    assert NotAfter(calls, if k > 0 then k - 1 else 0, k) && NotAfter(calls, 0, if k > 0 then k - 1 else 0);
  }

  // The time since the call before, or since start.
  function LastGap(start: nat, calls: seq<Call>): int
    requires calls != []
  {
    calls[|calls| - 1].time - LastTime(start, calls[..|calls| - 1])
  }

  // The clock, the product and the sum may all wrap around: that only ever loses tokens.
  lemma UpdateBound(b: Bucket, before: nat, now: nat)
    requires before <= now && b.last == Wrap(before)
    ensures 1000 * Update(b, Wrap(now)).tokens <= 1000 * b.tokens + b.rate * (now - before)
  {
    UpdateIs(b, before, now);
    LossIs(b.rate, now - before);
    CutNumbers(b.size, b.tokens + Refill(Wrap(now - before), b.rate));
  }

  lemma {:induction false} RateBound(b: Bucket, calls: seq<Call>)
    requires calls != [] && InOrder(calls)
    ensures 1000 * (Admitted(b, calls) + After(b, calls).tokens) <=
            1000 * b.size + b.rate * (calls[|calls| - 1].time - calls[0].time)
    ensures var a := After(b, calls); a.last == Wrap(calls[|calls| - 1].time) && a.rate == b.rate && a.size == b.size
  {
    var k := |calls| - 1;
    var c := calls[k];
    if k == 0 {
      assert calls[..0] == [];
      assert b.rate * (calls[0].time - calls[0].time) == 0;
    } else {
      SliceInOrder(calls, 0, k);
      assert calls[0..k] == calls[..k] && NotAfter(calls, k - 1, k);
      RateBound(b, calls[..k]);
      AdmitKeeps(After(b, calls[..k]), c);
      UpdateBound(After(b, calls[..k]), calls[k - 1].time, c.time);
      MulAdds(b.rate, calls[k - 1].time - calls[0].time, c.time - calls[k - 1].time);
    }
  }

  // Whatever the history, the calls i .. j of a run, all within a window of so many milliseconds, admit at most
  // size + rate * window / 1000 tokens.
  lemma WindowBound(b: Bucket, calls: seq<Call>, i: nat, j: nat, window: nat)
    requires InOrder(calls) && i < j <= |calls| && calls[j - 1].time <= calls[i].time + window
    ensures Admitted(b, calls[..j]) - Admitted(b, calls[..i]) <= b.size + b.rate * window / 1000
  {
    var w := SliceOf(calls, i, j);
    LaterBound(b, calls[..i], w, calls[..j], window);
  }

  lemma SliceOf(calls: seq<Call>, i: nat, j: nat) returns (w: seq<Call>)
    requires InOrder(calls) && i < j <= |calls|
    ensures w != [] && InOrder(w) && w[0] == calls[i] && w[|w| - 1] == calls[j - 1] && calls[..i] + w == calls[..j]
  {
    w := calls[i..j];
    SliceInOrder(calls, i, j);
  }

  lemma LaterBound(b: Bucket, v: seq<Call>, w: seq<Call>, whole: seq<Call>, window: nat)
    requires v + w == whole && w != [] && InOrder(w) && w[|w| - 1].time <= w[0].time + window
    ensures Admitted(b, whole) - Admitted(b, v) <= b.size + b.rate * window / 1000
  {
    AfterConcat(b, v, w);
    AfterConfig(b, v);
    WholeTokens(After(b, v), w, Admitted(After(b, v), w), window);
  }

  lemma WholeTokens(b: Bucket, calls: seq<Call>, n: nat, window: nat)
    requires calls != [] && InOrder(calls) && calls[|calls| - 1].time <= calls[0].time + window
    requires n == Admitted(b, calls)
    ensures n <= b.size + b.rate * window / 1000
  {
    RateBound(b, calls);
    var left := After(b, calls).tokens;
    Longer(n, left, b.size, b.rate, calls[|calls| - 1].time - calls[0].time, window);
  }

  lemma Longer(n: nat, left: nat, size: nat, rate: nat, d: int, window: int)
    requires 1000 * (n + left) <= 1000 * size + rate * d && d <= window
    ensures n <= size + rate * window / 1000
  {
    MulMono(rate, d, window);
    RoundDown(n, size, rate * window);
  }

  lemma RoundDown(n: int, size: int, x: int)
    requires 1000 * n <= 1000 * size + x
    ensures n <= size + x / 1000
  {
  }

  lemma {:induction false} AfterConcat(b: Bucket, v: seq<Call>, w: seq<Call>)
    ensures After(b, v + w) == After(After(b, v), w)
    ensures Admitted(b, v + w) == Admitted(b, v) + Admitted(After(b, v), w)
  {
    if w == [] {
      assert v + w == v;
    } else {
      var k := |w| - 1;
      AfterConcat(b, v, w[..k]);
      assert (v + w)[..|v + w| - 1] == v + w[..k];
    }
  }

  lemma {:induction false} AfterConfig(b: Bucket, calls: seq<Call>)
    ensures After(b, calls).rate == b.rate && After(b, calls).size == b.size
  {
    if calls != [] { AfterConfig(b, calls[..|calls| - 1]); }
  }

  // The refill is the intended one exactly as long as the product fits into 32 bits.
  lemma RefillExactIff(e: uint32, rate: uint32)
    ensures Refill(e, rate) == e * rate / 1000 <==> e * rate < TWO32
  {
    MulMono(e, 0, rate);
    var p := e * rate;
    if p >= TWO32 {
      assert p - Wrap(p) >= TWO32;
    }
  }

  // ---- the bucket without any overflow
  function Ideal(b: Bucket, elapsed: nat): int {
    var sum := b.tokens + b.rate * elapsed / 1000;
    if b.size < sum then b.size else sum
  }

  // Whatever wraps around, the code never has more tokens than it should.
  lemma NeverAboveIdeal(b: Bucket, before: nat, now: nat)
    requires before <= now && b.last == Wrap(before)
    ensures Update(b, Wrap(now)).tokens <= Ideal(b, now - before)
  {
    UpdateBound(b, before, now);
    RoundDown(Update(b, Wrap(now)).tokens, b.tokens, b.rate * (now - before));
  }

  // It has exactly as many if and only if the bucket is full anyway, or neither the product nor the sum overflows.
  lemma IdealIff(b: Bucket, before: nat, now: nat)
    requires before <= now && b.last == Wrap(before)
    ensures var gap := now - before; Update(b, Wrap(now)).tokens == Ideal(b, gap) <==>
      || b.size <= Wrap(b.tokens + Refill(Wrap(gap), b.rate))
      || (b.rate * gap < TWO32 && b.tokens + b.rate * gap / 1000 < TWO32)
  {
    UpdateIs(b, before, now);
    LossIs(b.rate, now - before);
    MulMono(b.rate, 0, now - before);
    IdealNumbers(b.size, b.tokens, Refill(Wrap(now - before), b.rate), b.rate * (now - before));
  }

  lemma IdealNumbers(size: uint32, tokens: uint32, refill: uint32, x: nat)
    requires (x < TWO32 ==> refill == x / 1000) && (x >= TWO32 ==> x - 1000 * refill >= TWO32)
    ensures var sum, ideal := Wrap(tokens + refill), tokens + x / 1000;
      (if size < sum then size else sum) == (if size < ideal then size else ideal) <==>
      size <= sum || (x < TWO32 && ideal < TWO32)
  {
  }

  // The sum overflows, too: one more token empties a full bucket of the largest size.
  lemma FullBucketEmpties()
    ensures var b := Bucket(1000, 0xffff_ffff, 0xffff_ffff, 0);
      Update(b, 1).tokens == 0 && Ideal(b, 1) == 0xffff_ffff
  {
  }

  // ---- the promised rate
  // Every call rounds its refill down, and the next one starts from there. What splitting an interval loses:
  lemma SplitLosesNothingIff(e: nat, f: nat, rate: nat)
    ensures e * rate / 1000 + f * rate / 1000 == (e + f) * rate / 1000 <==>
            (e * rate) % 1000 + (f * rate) % 1000 < 1000
  {
    assert (e + f) * rate == e * rate + f * rate;
    SumRounds(e * rate, f * rate);
  }

  lemma SumRounds(p: int, q: int)
    ensures (p + q) / 1000 == p / 1000 + q / 1000 + (p % 1000 + q % 1000) / 1000
  {
  }

  // What a refill after gap milliseconds falls short of rate * gap, in thousandths of a token.
  function Loss(rate: uint32, gap: int): int {
    rate * gap - 1000 * Refill(Wrap(gap), rate)
  }

  // The remainder of the division, or at least 2^32 as soon as the product does not fit.
  lemma LossIs(rate: uint32, gap: nat)
    ensures 0 <= rate * gap < TWO32 ==> Loss(rate, gap) == (rate * gap) % 1000
    ensures rate * gap >= TWO32 ==> Loss(rate, gap) >= TWO32
    ensures Loss(rate, gap) >= 0
  {
    var g, q := Wrap(gap), gap / TWO32;
    var p := g * rate;
    assert rate * gap == p + TWO32 * (q * rate) by {
      assert gap == TWO32 * q + g;
      assert rate * gap == rate * (TWO32 * q) + rate * g;
    }
    MulMono(rate, 0, g);
    MulMono(rate, 0, q);
    WholeCycles(p, q * rate);
  }

  lemma WholeCycles(p: int, m: int)
    requires p >= 0 && m >= 0
    ensures var x := p + TWO32 * m; var loss := x - 1000 * (Wrap(p) / 1000);
      loss >= 0 && (x < TWO32 ==> loss == x % 1000) && (x >= TWO32 ==> loss >= TWO32)
  {
    assert p == TWO32 * (p / TWO32) + Wrap(p);
  }

  // All that the refills of a run fall short of.
  function TotalLoss(rate: uint32, start: nat, calls: seq<Call>): int {
    if calls == [] then 0
    else TotalLoss(rate, start, calls[..|calls| - 1]) + Loss(rate, LastGap(start, calls))
  }

  // No refill of the run is cut off by the size of the bucket.
  ghost predicate NeverFull(b: Bucket, start: nat, calls: seq<Call>) {
    calls != [] ==>
      var before := calls[..|calls| - 1];
      NeverFull(b, start, before) && After(b, before).tokens + Refill(Wrap(LastGap(start, calls)), b.rate) <= b.size
  }

  lemma {:induction false} LastTimes(b: Bucket, start: nat, calls: seq<Call>)
    requires Ordered(start, calls) && b.last == Wrap(start)
    ensures After(b, calls).last == Wrap(LastTime(start, calls)) && LastTime(start, calls) >= start
  {
    if calls != [] {
      OrderedPrefix(start, calls);
      LastTimes(b, start, calls[..|calls| - 1]);
    }
  }

  // The tokens that the refills of a run lose because the bucket is full, or because the sum overflows.
  function TotalCut(b: Bucket, start: nat, calls: seq<Call>): int {
    if calls == [] then 0
    else
      var before := After(b, calls[..|calls| - 1]);
      TotalCut(b, start, calls[..|calls| - 1]) +
      before.tokens + Refill(Wrap(LastGap(start, calls)), b.rate) -
      Update(before, Wrap(calls[|calls| - 1].time)).tokens
  }

  lemma {:induction false} CutIs(b: Bucket, start: nat, calls: seq<Call>)
    requires Ordered(start, calls) && b.last == Wrap(start)
    ensures TotalCut(b, start, calls) >= 0 && (TotalCut(b, start, calls) == 0 <==> NeverFull(b, start, calls))
  {
    if calls != [] {
      OrderedPrefix(start, calls);

      var before := calls[..|calls| - 1];
      CutIs(b, start, before);
      LastTimes(b, start, before);
      AfterConfig(b, before);
      CallCuts(After(b, before), LastTime(start, before), calls[|calls| - 1].time);
    }
  }

  lemma CallCuts(b: Bucket, before: nat, now: nat)
    requires before <= now && b.last == Wrap(before)
    ensures var sum := b.tokens + Refill(Wrap(now - before), b.rate);
      sum - Update(b, Wrap(now)).tokens >= 0 && (sum - Update(b, Wrap(now)).tokens == 0 <==> sum <= b.size)
  {
    UpdateIs(b, before, now);
    CutNumbers(b.size, b.tokens + Refill(Wrap(now - before), b.rate));
  }

  lemma CutNumbers(size: uint32, sum: nat)
    ensures var got := if size < Wrap(sum) then size else Wrap(sum); sum - got >= 0 && (sum - got == 0 <==> sum <= size)
  {
  }

  // Exactly what a run is given: rate * time, less the losses and the cuts.
  lemma {:induction false} RunLoses(b: Bucket, start: nat, calls: seq<Call>)
    requires Ordered(start, calls) && b.last == Wrap(start)
    ensures 1000 * (Admitted(b, calls) + After(b, calls).tokens) ==
            1000 * b.tokens + b.rate * (LastTime(start, calls) - start) - TotalLoss(b.rate, start, calls) -
            1000 * TotalCut(b, start, calls)
  {
    if calls == [] {
      assert b.rate * (start - start) == 0;
    } else {
      OrderedPrefix(start, calls);
      var before := calls[..|calls| - 1];
      RunLoses(b, start, before);
      LastTimes(b, start, before);
      AfterConfig(b, before);
      var t, gap := LastTime(start, before), LastGap(start, calls);
      AdmitKeeps(After(b, before), calls[|calls| - 1]);
      MulAdds(b.rate, t - start, gap);
    }
  }

  lemma MulAdds(c: int, x: int, y: int)
    ensures c * (x + y) == c * x + c * y
  {
  }

  lemma AdmitKeeps(b: Bucket, c: Call)
    ensures Admit(b, c).1 + Admit(b, c).0.tokens == Update(b, Wrap(c.time)).tokens
  {
  }

  lemma UpdateIs(b: Bucket, before: nat, now: nat)
    requires before <= now && b.last == Wrap(before)
    ensures var sum := Wrap(b.tokens + Refill(Wrap(now - before), b.rate));
      Update(b, Wrap(now)).tokens == if b.size < sum then b.size else sum
  {
    SameGap(before, now);
  }

  lemma SameGap(before: nat, now: nat)
    ensures Wrap(Wrap(now) - Wrap(before)) == Wrap(now - before)
  {
  }

  // A run is given all that its time is worth if and only if no refill is cut off and the losses stay below one token.
  lemma PromisedRateIff(b: Bucket, start: nat, calls: seq<Call>)
    requires Ordered(start, calls) && b.last == Wrap(start)
    ensures (Admitted(b, calls) + After(b, calls).tokens ==
             b.tokens + b.rate * (LastTime(start, calls) - start) / 1000) <==>
            NeverFull(b, start, calls) && TotalLoss(b.rate, start, calls) < 1000
  {
    RunLoses(b, start, calls);
    LossNonNegative(b.rate, start, calls);
    CutIs(b, start, calls);
    ShortBy(Admitted(b, calls) + After(b, calls).tokens, b.tokens, b.rate * (LastTime(start, calls) - start),
            TotalLoss(b.rate, start, calls), TotalCut(b, start, calls));
  }

  lemma ShortBy(n: int, m: int, x: int, loss: int, cut: int)
    requires 1000 * n == 1000 * m + x - loss - 1000 * cut && loss >= 0 && cut >= 0
    ensures n == m + x / 1000 <==> cut == 0 && loss < 1000
  {
  }

  lemma {:induction false} LossNonNegative(rate: uint32, start: nat, calls: seq<Call>)
    requires Ordered(start, calls)
    ensures TotalLoss(rate, start, calls) >= 0
  {
    if calls != [] {
      OrderedPrefix(start, calls);

      LossNonNegative(rate, start, calls[..|calls| - 1]);
      LossIs(rate, LastGap(start, calls));
    }
  }

  // The sum of the remainders that the refills of a run drop.
  function Dropped(rate: uint32, start: nat, calls: seq<Call>): int {
    if calls == [] then 0
    else Dropped(rate, start, calls[..|calls| - 1]) + (rate * LastGap(start, calls)) % 1000
  }

  ghost predicate NoOverflow(rate: uint32, start: nat, calls: seq<Call>) {
    calls != [] ==> NoOverflow(rate, start, calls[..|calls| - 1]) && rate * LastGap(start, calls) < TWO32
  }

  // In terms of the calls: no product overflows, and the dropped remainders add up to less than one token.
  lemma {:induction false} LossBelowOneIff(rate: uint32, start: nat, calls: seq<Call>)
    requires Ordered(start, calls)
    ensures TotalLoss(rate, start, calls) < 1000 <==>
            NoOverflow(rate, start, calls) && Dropped(rate, start, calls) < 1000
    ensures NoOverflow(rate, start, calls) ==> TotalLoss(rate, start, calls) == Dropped(rate, start, calls)
    ensures Dropped(rate, start, calls) >= 0
  {
    if calls != [] {
      OrderedPrefix(start, calls);

      LossBelowOneIff(rate, start, calls[..|calls| - 1]);
      LossNonNegative(rate, start, calls[..|calls| - 1]);
      LossIs(rate, LastGap(start, calls));
      MulMono(rate, 0, LastGap(start, calls));
    }
  }

  // Every gap is too short for one token, as for a rate below 1000 and calls every millisecond.
  ghost predicate TooOften(rate: uint32, start: nat, calls: seq<Call>) {
    calls != [] ==> TooOften(rate, start, calls[..|calls| - 1]) && rate * LastGap(start, calls) < 1000
  }

  // Then the bucket is never refilled: the run gets what was in it at the start and no more, however long it is.
  lemma {:induction false} Starves(b: Bucket, start: nat, calls: seq<Call>)
    requires Ordered(start, calls) && b.last == Wrap(start) && TooOften(b.rate, start, calls)
    ensures Admitted(b, calls) + After(b, calls).tokens <= b.tokens
    ensures b.tokens <= b.size ==> Admitted(b, calls) + After(b, calls).tokens == b.tokens
    ensures After(b, calls).tokens <= b.tokens
  {
    if calls != [] {
      OrderedPrefix(start, calls);

      var before := calls[..|calls| - 1];
      Starves(b, start, before);
      LastTimes(b, start, before);
      AfterConfig(b, before);
      NoRefill(b.rate, LastGap(start, calls));
      CallStarves(After(b, before), LastTime(start, before), calls[|calls| - 1]);
    }
  }

  lemma NoRefill(rate: uint32, gap: nat)
    requires rate * gap < 1000
    ensures Refill(Wrap(gap), rate) == 0
  {
    MulMono(rate, 0, gap);
    LossIs(rate, gap);
  }

  lemma CallStarves(b: Bucket, before: nat, c: Call)
    requires before <= c.time && b.last == Wrap(before) && Refill(Wrap(c.time - before), b.rate) == 0
    ensures Admit(b, c).1 + Admit(b, c).0.tokens == if b.size < b.tokens then b.size else b.tokens
  {
    AdmitKeeps(b, c);
    UpdateIs(b, before, c.time);
  }

  // ---- the exact bucket, in thousandths of a token
  // What a bucket without rounding and overflow that held level holds after the call c has been granted what the code,
  // with the bucket b, grants it.
  function ExactAfter(b: Bucket, before: int, c: Call, level: int): int {
    var sum := level + b.rate * (c.time - before);
    (if 1000 * b.size < sum then 1000 * b.size else sum) - 1000 * Admit(b, c).1
  }

  // The refill fills the bucket.
  predicate Fills(b: Bucket, before: int, c: Call) {
    b.size <= Wrap(b.tokens + Refill(Wrap(c.time - before), b.rate))
  }

  // The refill fills the bucket, or neither its product nor its sum overflows and the remainders dropped since the
  // bucket was last full make no whole token.
  predicate Harmless(b: Bucket, before: int, c: Call, carry: int) {
    var x := b.rate * (c.time - before);
    Fills(b, before, c) || (x < TWO32 && b.tokens + x / 1000 < TWO32 && carry + x % 1000 < 1000)
  }

  function CarryAfter(b: Bucket, before: int, c: Call, carry: int): int {
    if Fills(b, before, c) then 0 else carry + (b.rate * (c.time - before)) % 1000
  }

  lemma CallFollows(b: Bucket, before: nat, c: Call, carry: nat)
    requires before <= c.time && b.last == Wrap(before) && carry < 1000
    ensures var got, level := Admit(b, c).0.tokens, ExactAfter(b, before, c, 1000 * b.tokens + carry);
      && (got == level / 1000 <==> Harmless(b, before, c, carry))
      && (got == level / 1000 ==> level - 1000 * got == CarryAfter(b, before, c, carry))
  {
    var gap := c.time - before;
    AdmitKeeps(b, c);
    UpdateIs(b, before, c.time);
    LossIs(b.rate, gap);
    MulMono(b.rate, 0, gap);
    FollowNumbers(b.size, b.tokens, Refill(Wrap(gap), b.rate), b.rate * gap, carry, Admit(b, c).1);
  }

  // The same over a run.
  function Level(b: Bucket, start: nat, calls: seq<Call>): int {
    if calls == [] then 1000 * b.tokens
    else
      var k := |calls| - 1;
      ExactAfter(After(b, calls[..k]), LastTime(start, calls[..k]), calls[k], Level(b, start, calls[..k]))
  }

  function Carry(b: Bucket, start: nat, calls: seq<Call>): int {
    if calls == [] then 0
    else
      var k := |calls| - 1;
      CarryAfter(After(b, calls[..k]), LastTime(start, calls[..k]), calls[k], Carry(b, start, calls[..k]))
  }

  ghost predicate AllHarmless(b: Bucket, start: nat, calls: seq<Call>) {
    calls != [] ==>
      var k := |calls| - 1;
      && AllHarmless(b, start, calls[..k])
      && Harmless(After(b, calls[..k]), LastTime(start, calls[..k]), calls[k], Carry(b, start, calls[..k]))
  }

  // After every call of the run the code has the whole tokens of the exact bucket.
  ghost predicate Follows(b: Bucket, start: nat, calls: seq<Call>) {
    && After(b, calls).tokens == Level(b, start, calls) / 1000
    && (calls != [] ==> Follows(b, start, calls[..|calls| - 1]))
  }

  // The exact condition for a run, with buckets that fill up and without.
  lemma {:induction false} FollowsIff(b: Bucket, start: nat, calls: seq<Call>)
    requires Ordered(start, calls) && b.last == Wrap(start)
    ensures Follows(b, start, calls) <==> AllHarmless(b, start, calls)
    ensures Follows(b, start, calls) ==>
              Level(b, start, calls) == 1000 * After(b, calls).tokens + Carry(b, start, calls)
  {
    if calls != [] {
      var k := |calls| - 1;
      OrderedPrefix(start, calls);
      FollowsIff(b, start, calls[..k]);
      LastTimes(b, start, calls[..k]);
      if Follows(b, start, calls[..k]) {
        CallFollows(After(b, calls[..k]), LastTime(start, calls[..k]), calls[k], Carry(b, start, calls[..k]));
      }
    }
  }

  lemma FollowNumbers(size: uint32, tokens: uint32, refill: uint32, x: nat, carry: nat, n: nat)
    requires (x < TWO32 ==> x - 1000 * refill == x % 1000) && (x >= TWO32 ==> x - 1000 * refill >= TWO32)
    requires carry < 1000
    ensures var sum, exact := Wrap(tokens + refill), 1000 * tokens + carry + x;
      var got, level := (if size < sum then size else sum), (if 1000 * size < exact then 1000 * size else exact);
      && (got - n == (level - 1000 * n) / 1000 <==>
          size <= sum || (x < TWO32 && tokens + x / 1000 < TWO32 && carry + x % 1000 < 1000))
      && (got - n == (level - 1000 * n) / 1000 ==>
          (level - 1000 * n) - 1000 * (got - n) == if size <= sum then 0 else carry + x % 1000)
  {
  }

  // ---- which sizes are safe from an overflow of the sum
  ghost predicate SumsFit(b: Bucket, start: nat, calls: seq<Call>) {
    calls != [] ==>
      var before := calls[..|calls| - 1];
      && SumsFit(b, start, before)
      && After(b, before).tokens + Refill(Wrap(LastGap(start, calls)), b.rate) < TWO32
  }

  ghost predicate SafeSize(size: uint32) {
    forall b: Bucket, start: nat, calls: seq<Call> |
      b.size == size && b.tokens <= size && b.last == Wrap(start) && Ordered(start, calls) :: SumsFit(b, start, calls)
  }

  // In no run of a bucket of this size does a sum overflow, if and only if the largest possible refill fits on top.
  lemma SafeSizeIff(size: uint32)
    ensures SafeSize(size) <==> size + 4294967 < TWO32
  {
    if size + 4294967 < TWO32 {
      forall b: Bucket, start: nat, calls: seq<Call> |
        b.size == size && b.tokens <= size && b.last == Wrap(start) && Ordered(start, calls)
        ensures SumsFit(b, start, calls)
      {
        SmallSumsFit(b, start, calls);
      }
    } else {
      var b, calls := Bucket(1, size, size, 0), [Call(0xffff_ffff, 0)];
      assert calls[..0] == [];
      assert Refill(0xffff_ffff, 1) == 4294967;
      assert !SumsFit(b, 0, calls);
    }
  }

  // For such a size only the product and the remainders are left to go wrong.
  lemma HarmlessWhenSafe(b: Bucket, before: nat, c: Call, carry: int)
    requires SafeSize(b.size) && b.tokens <= b.size && before <= c.time
    ensures Harmless(b, before, c, carry) <==>
            var x := b.rate * (c.time - before); Fills(b, before, c) || (x < TWO32 && carry + x % 1000 < 1000)
  {
    SafeSizeIff(b.size);
  }

  lemma {:induction false} SmallSumsFit(b: Bucket, start: nat, calls: seq<Call>)
    requires b.size + 4294967 < TWO32 && b.tokens <= b.size
    ensures SumsFit(b, start, calls) && After(b, calls).tokens <= b.size
  {
    if calls != [] {
      SmallSumsFit(b, start, calls[..|calls| - 1]);
      AfterConfig(b, calls[..|calls| - 1]);
    }
  }

  // ---- the code
  // What the calls i .. j were given, by the answers to them.
  function Granted(calls: seq<Call>, answers: seq<bool>, i: nat, j: nat): nat
    requires i <= j <= |calls| == |answers|
  {
    if i == j then 0 else Granted(calls, answers, i, j - 1) + if answers[j - 1] then calls[j - 1].n else 0
  }

  // The answers that the bucket b gives.
  ghost predicate AnsweredAt(b: Bucket, calls: seq<Call>, answers: seq<bool>, k: int) {
    && 0 <= k < |calls| && k < |answers|
    && answers[k] == Consume(After(b, calls[..k]), Wrap(calls[k].time), calls[k].n).1
  }

  lemma {:induction false} GrantedIs(b: Bucket, calls: seq<Call>, answers: seq<bool>, i: nat, j: nat)
    requires i <= j <= |calls| == |answers|
    requires forall k {:trigger AnsweredAt(b, calls, answers, k)} | 0 <= k < |calls| :: AnsweredAt(b, calls, answers, k)
    ensures Granted(calls, answers, i, j) == Admitted(b, calls[..j]) - Admitted(b, calls[..i])
    decreases j
  {
    if i < j {
      GrantedIs(b, calls, answers, i, j - 1);
      assert AnsweredAt(b, calls, answers, j - 1) && calls[..j][..j - 1] == calls[..j - 1];
    }
  }

  // The most that so many milliseconds may be granted.
  function Worth(rate: nat, size: nat, window: nat): int {
    size + rate * window / 1000
  }

  lemma AnswersBounded(b: Bucket, calls: seq<Call>, answers: seq<bool>)
    requires InOrder(calls) && |calls| == |answers|
    requires forall k {:trigger AnsweredAt(b, calls, answers, k)} | 0 <= k < |calls| :: AnsweredAt(b, calls, answers, k)
    ensures forall i, j, window {:trigger Granted(calls, answers, i, j), Worth(b.rate, b.size, window)} |
              0 <= i < j <= |calls| && 0 <= window && calls[j - 1].time <= calls[i].time + window ::
              Granted(calls, answers, i, j) <= Worth(b.rate, b.size, window)
  {
    forall i: nat, j: nat, window: nat | i < j <= |calls| && calls[j - 1].time <= calls[i].time + window
      ensures Granted(calls, answers, i, j) <= Worth(b.rate, b.size, window)
    {
      GrantedIs(b, calls, answers, i, j);
      WindowBound(b, calls, i, j, window);
    }
  }

  // What was there and what the time since start is worth is granted, left, lost or cut off.
  ghost predicate Balanced(b: Bucket, start: nat, calls: seq<Call>, granted: int, left: int) {
    1000 * (granted + left) ==
    1000 * b.tokens + b.rate * (LastTime(start, calls) - start) - TotalLoss(b.rate, start, calls) -
    1000 * TotalCut(b, start, calls)
  }

  lemma AnswersBalanced(b: Bucket, start: nat, calls: seq<Call>, answers: seq<bool>)
    requires Ordered(start, calls) && b.last == Wrap(start) && |calls| == |answers|
    requires forall k {:trigger AnsweredAt(b, calls, answers, k)} | 0 <= k < |calls| :: AnsweredAt(b, calls, answers, k)
    ensures Balanced(b, start, calls, Granted(calls, answers, 0, |calls|), After(b, calls).tokens)
  {
    GrantedIs(b, calls, answers, 0, |calls|);
    assert calls[..|calls|] == calls && calls[..0] == [];
    RunLoses(b, start, calls);
  }

  class Shaper {
    var tokenRate: uint32
    var bucketSize: uint32
    var currentTokens: uint32
    var lastUpdate: uint32
    // The time of the last update, of which lastUpdate has the low 32 bits.
    ghost var clock: nat

    function Value(): Bucket
      reads this
    {
      Bucket(tokenRate, bucketSize, currentTokens, lastUpdate)
    }

    ghost predicate Valid()
      reads this
    {
      lastUpdate == Wrap(clock)
    }

    // The shaper's part of tc_create_class.
    constructor (maxRate: uint32, burstSize: uint32, time: nat)
      ensures Valid() && clock == time && tokenRate == maxRate && bucketSize == currentTokens == burstSize
    {
      tokenRate, bucketSize, currentTokens := maxRate, burstSize, burstSize;
      lastUpdate, clock := Wrap(time), time;
    }

    // update_shaper: never more than the bucket holds, nor than the elapsed time is worth.
    method UpdateShaper(time: nat)
      modifies this`currentTokens, this`lastUpdate, this`clock
      ensures Valid() && clock == time && Value() == Update(old(Value()), Wrap(time))
      ensures currentTokens <= bucketSize
      ensures old(Valid()) && old(clock) <= time ==>
                1000 * currentTokens <= 1000 * old(currentTokens) + tokenRate * (time - old(clock))
    {
      var now := Wrap(time);
      var elapsed := Wrap(now - lastUpdate);
      var newTokens := Wrap(elapsed * tokenRate) / 1000;
      var sum := Wrap(currentTokens + newTokens);
      currentTokens := if bucketSize < sum then bucketSize else sum;
      lastUpdate := now;
      clock := time;
      if old(Valid()) && old(clock) <= time { UpdateBound(old(Value()), old(clock), time); }
    }

    // consume_tokens: what is granted and what is left were there or have been earned since.
    method ConsumeTokens(time: nat, tokens: uint32) returns (ok: bool)
      modifies this`currentTokens, this`lastUpdate, this`clock
      ensures Valid() && clock == time && (Value(), ok) == Consume(old(Value()), Wrap(time), tokens)
      ensures currentTokens <= bucketSize && (!ok ==> currentTokens < tokens)
      ensures old(Valid()) && old(clock) <= time ==>
                1000 * (currentTokens + if ok then tokens else 0) <=
                1000 * old(currentTokens) + tokenRate * (time - old(clock))
    {
      UpdateShaper(time);
      if currentTokens >= tokens {
        currentTokens := currentTokens - tokens;
        return true;
      }
      return false;
    }

    // Any sequence of calls of tc_check_rate for this class: within every window of it the calls get at most
    // bucket_size + token_rate * T / 1000 tokens.
    method CheckRates(calls: seq<Call>) returns (answers: seq<bool>)
      requires InOrder(calls)
      modifies this`currentTokens, this`lastUpdate, this`clock
      ensures |answers| == |calls|
      ensures forall i, j, window {:trigger Granted(calls, answers, i, j), Worth(tokenRate, bucketSize, window)} |
                0 <= i < j <= |calls| && 0 <= window && calls[j - 1].time <= calls[i].time + window ::
                Granted(calls, answers, i, j) <= Worth(tokenRate, bucketSize, window)
      ensures forall k {:trigger answers[k]} | 0 <= k < |calls| ::
                answers[k] <==> calls[k].n <= Update(After(old(Value()), calls[..k]), Wrap(calls[k].time)).tokens
      ensures old(Valid()) && Ordered(old(clock), calls) ==>
                Balanced(old(Value()), old(clock), calls, Granted(calls, answers, 0, |calls|), currentTokens)
    {
      ghost var b := Value();
      answers := [];
      assert calls[..0] == [];
      for m := 0 to |calls|
        invariant |answers| == m && Value() == After(b, calls[..m])
        invariant forall k {:trigger AnsweredAt(b, calls, answers, k)} | 0 <= k < m :: AnsweredAt(b, calls, answers, k)
      {
        assert calls[..m + 1][..m] == calls[..m];
        var ok := ConsumeTokens(calls[m].time, calls[m].n);
        ghost var before := answers;
        answers := answers + [ok];
        forall k | 0 <= k < m + 1 ensures AnsweredAt(b, calls, answers, k) {
          assert k < m ==> AnsweredAt(b, calls, before, k);
        }
      }
      assert calls[..|calls|] == calls;
      AnswersBounded(b, calls, answers);
      AfterConfig(b, calls);
      forall k | 0 <= k < |calls|
        ensures answers[k] <==> calls[k].n <= Update(After(b, calls[..k]), Wrap(calls[k].time)).tokens
      {
        assert AnsweredAt(b, calls, answers, k);
      }
      if old(Valid()) && Ordered(old(clock), calls) { AnswersBalanced(b, old(clock), calls, answers); }
    }
  }
}
