/** Powers of two, and remainders as positions on a ring. */
module Arithmetic {
  function Pow2(k: nat): (p: nat)
    ensures p >= 1
  {
    if k == 0 then 1 else 2 * Pow2(k - 1)
  }

  lemma MulMono(c: nat, a: int, b: int)
    requires a <= b
    ensures c * a <= c * b
  {
    assert c * b == c * a + c * (b - a);
  }

  lemma {:induction false} Pow2Mono(j: nat, k: nat)
    requires j <= k
    ensures Pow2(j) <= Pow2(k)
  {
    if j < k {
      Pow2Mono(j, k - 1);
    }
  }

  lemma {:induction false} Pow2Adds(m: nat, n: nat)
    ensures Pow2(m + n) == Pow2(m) * Pow2(n)
  {
    if m != 0 {
      Pow2Adds(m - 1, n);
    }
  }

  lemma Pow2Of32()
    ensures Pow2(32) == 0x1_0000_0000
  {
    Pow2Adds(16, 16);
    Pow2Adds(8, 8);
    assert Pow2(4) == 16;
    Pow2Adds(4, 4);
  }

  // x modulo n, by going around the ring.
  function Slot(x: nat, n: nat): (p: nat)
    requires n > 0
    ensures p < n
    decreases x
  {
    if x < n then x else Slot(x - n, n)
  }

  lemma {:induction false} SlotIsMod(x: nat, n: nat)
    requires n > 0
    ensures Slot(x, n) == x % n
  {
    if x >= n {
      SlotIsMod(x - n, n);
      assert x % n == (x - n) % n by {
        var q, r := (x - n) / n, (x - n) % n;
        assert x == n * (q + 1) + r;
        ModUnique(x, n, q + 1, r);
      }
    }
  }

  lemma ModUnique(x: int, n: nat, q: int, r: int)
    requires n > 0 && x == n * q + r && 0 <= r < n
    ensures x % n == r && x / n == q
  {
    var q', r' := x / n, x % n;
    assert n * (q - q') == r' - r by {
      assert x == n * q' + r';
      assert n * (q - q') == n * q - n * q';
    }
    if q - q' >= 1 {
      MulMono(n, 1, q - q');
    } else if q - q' <= -1 {
      MulMono(n, q - q', -1);
    }
  }

  lemma {:induction false} SlotStep(a: nat, j: nat, n: nat)
    requires n > 0 && j <= n
    ensures Slot(a + j, n) == if Slot(a, n) + j < n then Slot(a, n) + j else Slot(a, n) + j - n
    decreases a
  {
    if a >= n {
      SlotStep(a - n, j, n);
    }
  }

  lemma SlotSame(a: nat, b: nat, i: nat, n: nat)
    requires n > 0 && Slot(a, n) == Slot(b, n) && i <= n
    ensures Slot(a + i, n) == Slot(b + i, n)
  {
    SlotStep(a, i, n);
    SlotStep(b, i, n);
  }

  lemma {:induction false} SlotAround(a: nat, n: nat, k: nat)
    requires n > 0
    ensures n * k >= 0 && Slot(a + n * k, n) == Slot(a, n)
    decreases k
  {
    MulMono(n, 0, k);
    if k > 0 {
      SlotAround(a, n, k - 1);
      assert n * k == n * (k - 1) + n;
      assert a + n * k >= n;
    }
  }

  lemma {:induction false} SlotHalf(x: nat, p: nat)
    requires p >= 1
    ensures Slot(x, 2 * p) == 2 * Slot(x / 2, p) + x % 2
    decreases x
  {
    if x >= 2 * p {
      SlotHalf(x - 2 * p, p);
      assert (x - 2 * p) / 2 == x / 2 - p;
    }
  }
}
