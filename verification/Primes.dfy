/** Prime sizing of the hash table: trial division over 6k-1 and 6k+1, and the search for the next prime. */
module Primes {
  import opened Arithmetic

  predicate Div(d: nat, n: nat) {
    d > 0 && n % d == 0
  }

  ghost predicate Prime(n: nat) {
    n >= 2 && forall d {:trigger Div(d, n)} | 2 <= d < n :: !Div(d, n)
  }

  // ---- divisibility
  lemma DivIntro(d: nat, k: nat, n: nat)
    requires d > 0 && d * k == n
    ensures Div(d, n)
  {
    var q, r := n / d, n % d;
    assert d * (k - q) == r by {
      assert n == d * q + r;
      assert d * (k - q) == d * k - d * q;
    }
    if k - q >= 1 {
      MulMono(d, 1, k - q);
    } else if k - q <= -1 {
      MulMono(d, k - q, -1);
    }
  }

  lemma DivElim(d: nat, n: nat) returns (k: nat)
    requires Div(d, n)
    ensures d * k == n
  {
    k := n / d;
    assert n == d * (n / d) + n % d;
  }

  lemma DivTrans(a: nat, b: nat, c: nat)
    requires Div(a, b) && Div(b, c)
    ensures Div(a, c)
  {
    var k := DivElim(a, b);
    var l := DivElim(b, c);
    assert a * (k * l) == c by {
      assert a * (k * l) == (a * k) * l;
    }
    DivIntro(a, k * l, c);
  }

  lemma DivDifference(d: nat, a: nat, b: nat)
    requires Div(d, a) && Div(d, b) && a <= b
    ensures Div(d, b - a)
  {
    var k := DivElim(d, a);
    var l := DivElim(d, b);
    assert l >= k by {
      if l < k { MulMono(d, l + 1, k); }
    }
    assert d * (l - k) == b - a;
    DivIntro(d, l - k, b - a);
  }

  // A divisor and its cofactor cannot both reach i when i * i > n.
  lemma SmallDivisor(d: nat, n: nat, i: nat) returns (e: nat)
    requires 2 <= d < n && Div(d, n) && i * i > n && i >= 1
    ensures 2 <= e < i && Div(e, n)
  {
    if d < i {
      e := d;
    } else {
      e := DivElim(d, n);
      CofactorBounds(d, e, n, i);
      DivIntro(e, d, n);
    }
  }

  lemma CofactorBounds(d: nat, e: nat, n: nat, i: nat)
    requires d * e == n && d < n < i * i && i <= d
    ensures 2 <= e < i
  {
    if e <= 1 {
      MulMono(d, e, 1);
    } else if e >= i {
      MulMono(d, i, e);
      MulMono(i, i, d);
    }
  }

  ghost predicate NoneBelow(n: nat, i: nat) {
    forall d {:trigger Div(d, n)} | 2 <= d < i :: !Div(d, n)
  }

  lemma NoSmallDivisor(n: nat, i: nat)
    requires n >= 2 && i * i > n && i >= 1 && NoneBelow(n, i)
    ensures Prime(n)
  {
    forall d | 2 <= d < n ensures !Div(d, n) {
      if Div(d, n) {
        var e := SmallDivisor(d, n, i);
      }
    }
  }

  // ---- is_prime
  // With i = 6k + 5, only i and i + 2 among i .. i + 5 are prime to 6.
  lemma Wheel(n: nat, i: nat, k: nat)
    requires i == 6 * k + 5 && !Div(2, n) && !Div(3, n) && !Div(i, n) && !Div(i + 2, n) && NoneBelow(n, i)
    ensures NoneBelow(n, i + 6)
  {
    forall d | i <= d < i + 6 ensures !Div(d, n) {
      if Div(d, n) && d != i && d != i + 2 {
        if d == i + 4 {
          DivIntro(3, 2 * k + 3, d);
          DivTrans(3, d, n);
        } else {
          DivIntro(2, if d == i + 1 then 3 * k + 3 else if d == i + 3 then 3 * k + 4 else 3 * k + 5, d);
          DivTrans(2, d, n);
        }
      }
    }
  }

  lemma FirstWheel(n: nat)
    requires !Div(2, n) && !Div(3, n)
    ensures NoneBelow(n, 5)
  {
    forall d | 2 <= d < 5 ensures !Div(d, n) {
      if d == 4 && Div(4, n) { DivTrans(2, 4, n); }
    }
  }

  lemma SmallPrimes()
    ensures Prime(2) && Prime(3)
  {
    assert !Div(2, 3);
  }

  method IsPrime(n: nat) returns (b: bool)
    ensures b == Prime(n)
  {
    if n <= 1 { return false; }
    if n <= 3 {
      SmallPrimes();
      return true;
    }
    if Div(2, n) || Div(3, n) { return false; }
    FirstWheel(n);
    var i := 5;
    ghost var k := 0;
    while i * i <= n
      invariant i == 6 * k + 5 && NoneBelow(n, i)
      decreases n - i
    {
      MulMono(i, 5, i);
      if Div(i, n) || Div(i + 2, n) { return false; }
      Wheel(n, i, k);
      i, k := i + 6, k + 1;
    }
    NoSmallDivisor(n, i);
    return true;
  }

  // ---- Euclid: there is always a larger prime
  ghost function Factorial(n: nat): nat {
    if n == 0 then 1 else n * Factorial(n - 1)
  }

  lemma {:induction false} FactorialPositive(n: nat)
    ensures Factorial(n) >= 1
  {
    if n > 0 {
      FactorialPositive(n - 1);
      MulMono(Factorial(n - 1), 1, n);
    }
  }

  lemma {:induction false} DividesFactorial(d: nat, n: nat)
    requires 1 <= d <= n
    ensures Div(d, Factorial(n))
  {
    if d == n {
      DivIntro(n, Factorial(n - 1), Factorial(n));
    } else {
      DividesFactorial(d, n - 1);
      FactorialPositive(n - 1);
      DivIntro(Factorial(n - 1), n, Factorial(n));
      DivTrans(d, Factorial(n - 1), Factorial(n));
    }
  }

  lemma {:induction false} PrimeDivisor(n: nat) returns (p: nat)
    requires n >= 2
    ensures Prime(p) && Div(p, n)
    decreases n
  {
    if Prime(n) {
      p := n;
    } else {
      var d :| 2 <= d < n && Div(d, n);
      p := PrimeDivisor(d);
      DivTrans(p, d, n);
    }
  }

  lemma PrimeAbove(n: nat) returns (p: nat)
    ensures Prime(p) && p > n
  {
    var f := Factorial(n);
    FactorialPositive(n);
    p := PrimeDivisor(f + 1);
    if p <= n {
      DividesFactorial(p, n);
      DivDifference(p, f, f + 1);
    }
  }

  // ---- next_prime
  ghost predicate NoPrimeBetween(n: nat, p: nat) {
    forall q | n < q < p :: !Prime(q)
  }

  method NextPrime(n: nat) returns (p: nat)
    ensures Prime(p) && p > n
    ensures NoPrimeBetween(n, p)
  {
    if n <= 1 {
      assert Prime(2);
      return 2;
    }
    ghost var bound := PrimeAbove(n);
    p := n;
    var found := false;
    while !found
      invariant n <= p <= bound
      invariant forall q | n < q < p :: !Prime(q)
      invariant if found then Prime(p) && p > n else p == n || !Prime(p)
      decreases bound - p, !found
    {
      p := p + 1;
      var b := IsPrime(p);
      if b {
        found := true;
      }
    }
  }
}
