/** Fixed-width unsigned integers. Every wrap-around of the C code is written out as `Wrap`. */
module Machine {
  const TWO32: int := 0x1_0000_0000

  type uint32 = x: int | 0 <= x < 0x1_0000_0000
  type uint8 = x: int | 0 <= x < 0x100

  // The value of x truncated to 32 bits.
  function Wrap(x: int): uint32 {
    x % 0x1_0000_0000
  }

  function Bit(b: bool): int {
    if b then 1 else 0
  }

  lemma WrapAdd(x: int, y: int)
    ensures Wrap(Wrap(x) + y) == Wrap(x + y)
  {
  }

  // Two sets that differ at most in x.
  lemma CardDiffer<T>(a: set<T>, b: set<T>, x: T)
    requires a - {x} == b - {x}
    ensures |b| == |a| + (if x in b then 1 else 0) - (if x in a then 1 else 0)
  {
    assert x in a ==> a == (a - {x}) + {x};
    assert x in b ==> b == (b - {x}) + {x};
    assert x !in a ==> a == a - {x};
    assert x !in b ==> b == b - {x};
  }

  lemma SubsetSize<T>(a: set<T>, b: set<T>)
    requires a <= b
    ensures |a| <= |b|
  {
    assert b == a + (b - a);
  }

  // Some number is larger than all that are used.
  lemma {:induction false} Unused(used: set<nat>) returns (n: nat)
    ensures n > 0 && forall m | m in used :: m < n
    decreases |used|
  {
    if used == {} {
      n := 1;
    } else {
      var m :| m in used;
      var k := Unused(used - {m});
      n := if m < k then k else m + 1;
      forall l | l in used ensures l < n { assert l != m ==> l in used - {m}; }
    }
  }
}
