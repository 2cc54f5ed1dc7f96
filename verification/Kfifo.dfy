/** The byte ring of kernel_buffers.h: free-running 32-bit indices, masking, copies in two parts. */
module Kfifo {
  import opened Arithmetic
  import opened Machine

  // ---- the bitwise and, and masking with size - 1
  function And(x: nat, y: nat): (z: nat)
    ensures z <= y
    decreases y
  {
    if x == 0 || y == 0 then 0
    else 2 * And(x / 2, y / 2) + if x % 2 == 1 && y % 2 == 1 then 1 else 0
  }

  ghost predicate PowerOfTwo(n: nat) {
    exists k: nat :: n == Pow2(k)
  }

  lemma {:induction false} MaskIsSlot(x: nat, k: nat)
    ensures And(x, Pow2(k) - 1) == Slot(x, Pow2(k))
  {
    if k == 0 {
      SlotIsMod(x, 1);
    } else {
      var p := Pow2(k - 1);
      MaskIsSlot(x / 2, k - 1);
      SlotHalf(x, p);
      assert (2 * p - 1) / 2 == p - 1 && (2 * p - 1) % 2 == 1;
    }
  }

  // 2^32 is a multiple of every size.
  lemma {:induction false} Pow2Divides(j: nat, k: nat) returns (m: nat)
    requires j <= k
    ensures Pow2(k) == Pow2(j) * m
  {
    if j == k {
      m := 1;
    } else {
      m := Pow2Divides(j, k - 1);
      assert Pow2(k) == 2 * (Pow2(j) * m) == Pow2(j) * (2 * m);
      m := 2 * m;
    }
  }

  // ---- the ring
  type Byte = uint8

  // buffer holds size bytes; in_ and out run freely through the 32-bit range.
  datatype Ring = Ring(buffer: seq<Byte>, in_: uint32, out: uint32)

  predicate Sized(r: Ring) {
    0 < |r.buffer| < TWO32
  }

  function Min(a: nat, b: nat): nat {
    if a < b then a else b
  }

  // memcpy(dst + at, src, |src|)
  function Overwrite(dst: seq<Byte>, at: nat, src: seq<Byte>): (d: seq<Byte>)
    requires at + |src| <= |dst|
    ensures |d| == |dst|
  {
    dst[..at] + src + dst[at + |src|..]
  }

  // kfifo_init
  function Init(size: nat): Ring {
    Ring(seq(size, _ => 0), 0, 0)
  }

  function Used(r: Ring): nat {
    Wrap(r.in_ - r.out)
  }

  // The two copies of kfifo_in: up to the end of the buffer, then from its start.
  function CopyIn(b: seq<Byte>, off: nat, data: seq<Byte>): (d: seq<Byte>)
    requires off < |b| && |data| <= |b|
    ensures |d| == |b|
  {
    var l := Min(|data|, |b| - off);
    Overwrite(Overwrite(b, off, data[..l]), 0, data[l..])
  }

  lemma CopyInAt(b: seq<Byte>, off: nat, data: seq<Byte>, p: nat)
    requires off < |b| && |data| <= |b| && p < |b|
    ensures CopyIn(b, off, data)[p] ==
            if off <= p < off + |data| then data[p - off]
            else if p + |b| < off + |data| then data[p + |b| - off]
            else b[p]
  {
  }

  // The two copies of kfifo_out.
  function CopyOut(b: seq<Byte>, off: nat, len: nat): (d: seq<Byte>)
    requires off < |b| && len <= |b|
    ensures |d| == len
  {
    var l := Min(len, |b| - off);
    b[off..off + l] + b[..len - l]
  }

  lemma CopyOutAt(b: seq<Byte>, off: nat, len: nat, i: nat)
    requires off < |b| && i < len <= |b|
    ensures CopyOut(b, off, len)[i] == b[if off + i < |b| then off + i else off + i - |b|]
  {
  }

  // kfifo_in: the new ring and the number of bytes taken.
  function In(r: Ring, buf: seq<Byte>): (res: (Ring, nat))
    requires Sized(r) && Used(r) <= |r.buffer|
  {
    var len := Min(|buf|, |r.buffer| - Used(r));
    (Ring(CopyIn(r.buffer, And(r.in_, |r.buffer| - 1), buf[..len]), Wrap(r.in_ + len), r.out), len)
  }

  // kfifo_out: the new ring and the bytes handed out.
  function Out(r: Ring, max: nat): (res: (Ring, seq<Byte>))
    requires Sized(r) && Used(r) <= |r.buffer|
  {
    var len := Min(max, Used(r));
    (r.(out := Wrap(r.out + len)), CopyOut(r.buffer, And(r.out, |r.buffer| - 1), len))
  }

  // ---- refinement of a bounded queue of bytes, for every power-of-two size
  ghost predicate Valid(r: Ring) {
    Sized(r) && PowerOfTwo(|r.buffer|) && Used(r) <= |r.buffer|
  }

  // The bytes of the used part, from out on around the ring.
  function View(b: seq<Byte>, out: nat, used: nat): (s: seq<Byte>)
    requires |b| > 0
    ensures |s| == used
  {
    seq(used, i requires 0 <= i < used => b[Slot(out + i, |b|)])
  }

  function Contents(r: Ring): seq<Byte>
    requires Sized(r)
  {
    View(r.buffer, r.out, Used(r))
  }

  lemma MaskOf(r: Ring, x: uint32)
    requires Valid(r)
    ensures And(x, |r.buffer| - 1) == Slot(x, |r.buffer|)
  {
    var k: nat :| |r.buffer| == Pow2(k);
    MaskIsSlot(x, k);
  }

  lemma SizeDivides(r: Ring) returns (m: nat)
    requires Valid(r)
    ensures |r.buffer| * m == 0x1_0000_0000
  {
    var k: nat :| |r.buffer| == Pow2(k);
    Pow2Of32();
    if k > 32 { Pow2Mono(32, k); }
    m := Pow2Divides(k, 32);
  }

  // Wrapping an index at 2^32 does not move it on the ring.
  lemma WrapOnRing(r: Ring, x: nat)
    requires Valid(r)
    ensures Slot(Wrap(x), |r.buffer|) == Slot(x, |r.buffer|)
  {
    var m := SizeDivides(r);
    var n, q := |r.buffer|, x / 0x1_0000_0000;
    assert x == Wrap(x) + n * (m * q) by {
      assert x == (n * m) * q + Wrap(x);
      assert (n * m) * q == n * (m * q);
    }
    MulMono(m, 0, q);
    SlotAround(Wrap(x), n, m * q);
  }

  // in_ is out plus the number of bytes in use, up to a wrap-around.
  lemma InIsEnd(r: Ring)
    requires Valid(r)
    ensures Slot(r.in_, |r.buffer|) == Slot(r.out + Used(r), |r.buffer|)
  {
    UsedIs(r);
    if r.in_ < r.out {
      var m := SizeDivides(r);
      SlotAround(r.in_, |r.buffer|, m);
    }
  }

  lemma UsedIs(r: Ring)
    ensures r.out + Used(r) == if r.in_ < r.out then r.in_ + 0x1_0000_0000 else r.in_
  {
  }

  // Copying data to the end of the used part keeps that part and puts data behind it.
  lemma CopyAppends(b: seq<Byte>, out: nat, used: nat, data: seq<Byte>, i: nat)
    requires |b| > 0 && used + |data| <= |b| && i < used + |data|
    ensures CopyIn(b, Slot(out + used, |b|), data)[Slot(out + i, |b|)] ==
            if i < used then b[Slot(out + i, |b|)] else data[i - used]
  {
    var n, off, p := |b|, Slot(out + used, |b|), Slot(out + i, |b|);
    CopyInAt(b, off, data, p);
    if i < used {
      var j := if p >= off then p - off else p + n - off;
      SlotStep(out + i, used - i, n);
      assert n - j == used - i;
    } else {
      SlotStep(out + used, i - used, n);
    }
  }

  lemma ViewAppend(b: seq<Byte>, out: nat, used: nat, data: seq<Byte>)
    requires |b| > 0 && used + |data| <= |b|
    ensures View(CopyIn(b, Slot(out + used, |b|), data), out, used + |data|) == View(b, out, used) + data
  {
    var c := CopyIn(b, Slot(out + used, |b|), data);
    forall i | 0 <= i < used + |data| ensures View(c, out, used + |data|)[i] == (View(b, out, used) + data)[i] {
      CopyAppends(b, out, used, data, i);
    }
  }

  lemma ViewTake(b: seq<Byte>, out: nat, used: nat, len: nat)
    requires |b| > 0 && len <= used <= |b|
    ensures CopyOut(b, Slot(out, |b|), len) == View(b, out, used)[..len]
  {
    var d, v := CopyOut(b, Slot(out, |b|), len), View(b, out, used);
    forall i | 0 <= i < len ensures d[i] == v[i] {
      OutAt(b, out, len, i);
      assert v[i] == b[Slot(out + i, |b|)];
    }
    SamePrefix(d, v);
  }

  lemma OutAt(b: seq<Byte>, out: nat, len: nat, i: nat)
    requires |b| > 0 && i < len <= |b|
    ensures CopyOut(b, Slot(out, |b|), len)[i] == b[Slot(out + i, |b|)]
  {
    SlotStep(out, i, |b|);
    CopyOutAt(b, Slot(out, |b|), len, i);
  }

  lemma SamePrefix(s: seq<Byte>, t: seq<Byte>)
    requires |s| <= |t| && forall i | 0 <= i < |s| :: s[i] == t[i]
    ensures s == t[..|s|]
  {
  }

  lemma ViewDrop(b: seq<Byte>, out: nat, out': nat, used: nat, len: nat)
    requires |b| > 0 && len <= used <= |b| && Slot(out', |b|) == Slot(out + len, |b|)
    ensures View(b, out', used - len) == View(b, out, used)[len..]
  {
    forall i | 0 <= i < used - len ensures View(b, out', used - len)[i] == View(b, out, used)[len..][i] {
      SlotSame(out', out + len, i, |b|);
    }
  }

  lemma UsedAfterIn(r: Ring, len: nat)
    requires Used(r) + len < TWO32
    ensures Wrap(Wrap(r.in_ + len) - r.out) == Used(r) + len
  {
  }

  lemma InShape(r: Ring, buf: seq<Byte>)
    requires Valid(r)
    ensures var (r', len) := In(r, buf);
      && len <= |buf| && Used(r) + len <= |r.buffer| && Used(r') == Used(r) + len && r'.out == r.out
      && r'.buffer == CopyIn(r.buffer, Slot(r.out + Used(r), |r.buffer|), buf[..len])
  {
    MaskOf(r, r.in_);
    InIsEnd(r);
    UsedAfterIn(r, In(r, buf).1);
  }

  // kfifo_in appends as many bytes as fit, also across the end of the buffer and of the index range.
  lemma InAppends(r: Ring, buf: seq<Byte>)
    requires Valid(r)
    ensures var (r', len) := In(r, buf);
      && Valid(r') && |r'.buffer| == |r.buffer| && len == Min(|buf|, |r.buffer| - |Contents(r)|)
      && Contents(r') == Contents(r) + buf[..len]
  {
    InShape(r, buf);
    ContentsAppend(r, In(r, buf).0, buf[..In(r, buf).1]);
  }

  lemma ContentsAppend(r: Ring, r': Ring, data: seq<Byte>)
    requires Sized(r) && Sized(r') && Used(r) + |data| <= |r.buffer| && Used(r') == Used(r) + |data| && r'.out == r.out
    requires r'.buffer == CopyIn(r.buffer, Slot(r.out + Used(r), |r.buffer|), data)
    ensures Contents(r') == Contents(r) + data
  {
    ViewAppend(r.buffer, r.out, Used(r), data);
  }

  lemma UsedAfterOut(r: Ring, len: nat)
    requires len <= Used(r)
    ensures Wrap(r.in_ - Wrap(r.out + len)) == Used(r) - len
  {
  }

  // kfifo_out takes as many bytes as there are off the front.
  lemma OutTakes(r: Ring, max: nat)
    requires Valid(r)
    ensures var (r', data) := Out(r, max);
      && Valid(r') && |r'.buffer| == |r.buffer| && |data| == Min(max, |Contents(r)|)
      && data == Contents(r)[..|data|] && Contents(r') == Contents(r)[|data|..]
  {
    OutShape(r, max);
    ContentsTake(r, Out(r, max).0, Min(max, Used(r)));
  }

  lemma OutShape(r: Ring, max: nat)
    requires Valid(r)
    ensures var (r', data) := Out(r, max); var len := Min(max, Used(r));
      && r'.buffer == r.buffer && Used(r') == Used(r) - len
      && Slot(r'.out, |r.buffer|) == Slot(r.out + len, |r.buffer|)
      && data == CopyOut(r.buffer, Slot(r.out, |r.buffer|), len)
  {
    MaskOf(r, r.out);
    OutMoves(r, Min(max, Used(r)));
  }

  lemma OutMoves(r: Ring, len: nat)
    requires Valid(r) && len <= Used(r)
    ensures var r' := r.(out := Wrap(r.out + len));
      Used(r') == Used(r) - len && Slot(r'.out, |r.buffer|) == Slot(r.out + len, |r.buffer|)
  {
    UsedAfterOut(r, len);
    WrapOnRing(r, r.out + len);
  }

  lemma ContentsTake(r: Ring, r': Ring, len: nat)
    requires Sized(r) && len <= Used(r) <= |r.buffer| && r'.buffer == r.buffer && Used(r') == Used(r) - len
    requires Slot(r'.out, |r.buffer|) == Slot(r.out + len, |r.buffer|)
    ensures CopyOut(r.buffer, Slot(r.out, |r.buffer|), len) == Contents(r)[..len] && Contents(r') == Contents(r)[len..]
  {
    ViewTake(r.buffer, r.out, Used(r), len);
    ViewDrop(r.buffer, r.out, r'.out, Used(r), len);
  }

  // ---- the size has to be a power of two
  // Either all bits of m are set, or some bit below its top bit is clear.
  lemma {:induction false} ClearBit(m: nat) returns (b: nat)
    ensures PowerOfTwo(m + 1) || (Pow2(b) <= m && And(Pow2(b), m) == 0)
    decreases m
  {
    b := 0;
    if m == 0 {
      assert Pow2(0) == m + 1;
    } else if m % 2 == 0 {
      assert And(1, m) == 2 * And(0, m / 2);
    } else {
      b := ClearBit(m / 2);
      if PowerOfTwo(m / 2 + 1) {
        var k: nat :| m / 2 + 1 == Pow2(k);
        assert m + 1 == Pow2(k + 1);
      }
      assert Pow2(b + 1) / 2 == Pow2(b) && Pow2(b + 1) % 2 == 0;
      b := b + 1;
    }
  }

  // Bytes put in one call each.
  function PutEach(r: Ring, data: seq<Byte>): Ring
    requires Sized(r) && Used(r) <= |r.buffer|
    ensures var r' := PutEach(r, data); |r'.buffer| == |r.buffer| && Used(r') <= |r'.buffer|
  {
    if data == [] then r
    else
      var p := PutEach(r, data[..|data| - 1]);
      UsedAfterIn(p, In(p, [data[|data| - 1]]).1);
      In(p, [data[|data| - 1]]).0
  }

  // Whatever is put in byte by byte, the first byte out is the first byte put in.
  ghost predicate FirstOut(size: nat, data: seq<Byte>) {
    0 < |data| <= size < TWO32 ==> Out(PutEach(Init(size), data), 1).1 == [data[0]]
  }

  lemma {:induction false} PutEachAppends(r: Ring, data: seq<Byte>)
    requires Valid(r) && Used(r) + |data| <= |r.buffer|
    ensures Valid(PutEach(r, data)) && Contents(PutEach(r, data)) == Contents(r) + data
  {
    if data != [] {
      var k := |data| - 1;
      PutEachAppends(r, data[..k]);
      InAppends(PutEach(r, data[..k]), [data[k]]);
      assert data == data[..k] + [data[k]];
    }
  }

  lemma InOne(r: Ring, v: Byte)
    requires Sized(r) && r.out == 0 && r.in_ < |r.buffer|
    ensures Used(r) == r.in_ && In(r, [v]).0.in_ == r.in_ + 1 && In(r, [v]).0.out == 0
  {
  }

  lemma {:induction false} PutEachCounts(size: nat, data: seq<Byte>)
    requires |data| <= size < TWO32 && 0 < size
    ensures var r := PutEach(Init(size), data); r.in_ == |data| && r.out == 0 && |r.buffer| == size
  {
    if data != [] {
      var k := |data| - 1;
      PutEachCounts(size, data[..k]);
      InOne(PutEach(Init(size), data[..k]), data[k]);
    }
  }

  // The ring is first-in first-out if and only if its size is a power of two.
  lemma FifoIffPowerOfTwo(size: nat)
    requires 0 < size < TWO32
    ensures (forall data: seq<Byte> :: FirstOut(size, data)) <==> PowerOfTwo(size)
  {
    if PowerOfTwo(size) {
      forall data: seq<Byte> ensures FirstOut(size, data) {
        if 0 < |data| <= size {
          PutEachAppends(Init(size), data);
          OutTakes(PutEach(Init(size), data), 1);
        }
      }
    } else {
      var data := LosingInput(size);
      assert !FirstOut(size, data);
    }
  }

  lemma OverwritesFirst(r: Ring, v: Byte)
    requires Sized(r) && Used(r) < |r.buffer| && And(r.in_, |r.buffer| - 1) == 0
    ensures In(r, [v]).0.buffer[0] == v
  {
    assert [v][..1] == [v];
    CopyInAt(r.buffer, 0, [v], 0);
  }

  lemma FirstOfOut(r: Ring)
    requires Sized(r) && 0 < Used(r) <= |r.buffer| && r.out == 0
    ensures Out(r, 1).1 == [r.buffer[0]]
  {
  }

  // A byte that is masked to slot 0 while the ring still holds the first byte there replaces it.
  lemma Loses(size: nat, data: seq<Byte>)
    requires 2 <= |data| <= size < TWO32 && And(|data| - 1, size - 1) == 0 && data[0] != data[|data| - 1]
    ensures !FirstOut(size, data)
  {
    var k := |data| - 1;
    PutEachCounts(size, data[..k]);
    PutEachCounts(size, data);
    OverwritesFirst(PutEach(Init(size), data[..k]), data[k]);
    FirstOfOut(PutEach(Init(size), data));
  }

  // With a clear bit b in size - 1, byte 2^b is written over byte 0.
  lemma LosingInput(size: nat) returns (data: seq<Byte>)
    requires 0 < size < TWO32 && !PowerOfTwo(size)
    ensures !FirstOut(size, data)
  {
    var b := ClearBit(size - 1);
    data := [1] + seq(Pow2(b), _ => 0);
    Loses(size, data);
  }

  // ---- the code: an array written in place
  lemma OverwriteNext(dst: seq<Byte>, at: nat, src: seq<Byte>, i: nat)
    requires i < |src| && at + |src| <= |dst|
    ensures Overwrite(dst, at, src[..i + 1]) == Overwrite(dst, at, src[..i])[at + i := src[i]]
  {
  }

  // Copying nothing touches nothing, wherever it would go.
  method Memcpy(dst: array<Byte>, at: nat, src: seq<Byte>)
    requires src != [] ==> at + |src| <= dst.Length
    modifies dst
    ensures dst[..] == if src == [] then old(dst[..]) else Overwrite(old(dst[..]), at, src)
  {
    assert src != [] ==> Overwrite(old(dst[..]), at, src[..0]) == old(dst[..]);
    for i := 0 to |src|
      invariant dst[..] == if src == [] then old(dst[..]) else Overwrite(old(dst[..]), at, src[..i])
    {
      OverwriteNext(old(dst[..]), at, src, i);
      dst[at + i] := src[i];
    }
    assert src[..|src|] == src;
  }

  // The same out of the buffer.
  method MemcpyOut(src: array<Byte>, at: nat, n: nat) returns (dst: seq<Byte>)
    requires n > 0 ==> at + n <= src.Length
    ensures dst == if n == 0 then [] else src[at..at + n]
  {
    dst := [];
    for i := 0 to n
      invariant dst == if i == 0 then [] else src[at..at + i]
    {
      dst := dst + [src[at + i]];
    }
  }

  lemma CopyInNothing(b: seq<Byte>, off: nat)
    requires off < |b|
    ensures CopyIn(b, off, []) == b
  {
  }

  // First the data from off to the end of the buffer, then the rest at its beginning.
  method CopyAround(dst: array<Byte>, off: nat, data: seq<Byte>)
    requires dst.Length < TWO32 && (data != [] ==> off < dst.Length && |data| <= dst.Length)
    modifies dst
    ensures dst[..] == if data == [] then old(dst[..]) else CopyIn(old(dst[..]), off, data)
  {
    var l := Min(|data|, Wrap(dst.Length - off));
    CopyInParts(dst[..], off, data, l);
    Memcpy(dst, off, data[..l]);
    Memcpy(dst, 0, data[l..]);
  }

  lemma CopyInParts(b: seq<Byte>, off: nat, data: seq<Byte>, l: nat)
    requires |b| < TWO32 && (data != [] ==> off < |b| && |data| <= |b|) && l == Min(|data|, Wrap(|b| - off))
    ensures data != [] ==> 0 < l <= |b| - off
    ensures data != [] ==>
              var first := Overwrite(b, off, data[..l]);
              CopyIn(b, off, data) == if l == |data| then first else Overwrite(first, 0, data[l..])
  {
    assert data != [] ==> Wrap(|b| - off) == |b| - off;
  }

  lemma InIs(r: Ring, r': Ring, buf: seq<Byte>, len: nat, off: nat)
    requires Sized(r) && Used(r) <= |r.buffer| && len == Min(|buf|, |r.buffer| - Used(r))
    requires len == 0 ==> r'.buffer == r.buffer
    requires off == And(r.in_, |r.buffer| - 1) && off < |r.buffer|
    requires len > 0 ==> r'.buffer == CopyIn(r.buffer, off, buf[..len])
    requires r'.in_ == Wrap(r.in_ + len) && r'.out == r.out
    ensures (r', len) == In(r, buf)
  {
    if len == 0 { CopyInNothing(r.buffer, And(r.in_, |r.buffer| - 1)); }
  }

  lemma OutIs(r: Ring, r': Ring, data: seq<Byte>, max: nat, off: nat)
    requires Sized(r) && Used(r) <= |r.buffer| && off == And(r.out, |r.buffer| - 1) && off < |r.buffer|
    requires var len := Min(max, Used(r));
      && data == (if len == 0 then [] else CopyOut(r.buffer, off, len))
      && r' == r.(out := Wrap(r.out + len))
    ensures (r', data) == Out(r, max)
  {
  }

  lemma CopyOutParts(b: seq<Byte>, off: nat, len: nat, l: nat)
    requires |b| < TWO32 && (len > 0 ==> off < |b| && len <= |b|) && l == Min(len, Wrap(|b| - off))
    ensures len > 0 ==> 0 < l <= |b| - off
    ensures len > 0 ==> CopyOut(b, off, len) == b[off..off + l] + b[..len - l]
  {
    assert len > 0 ==> Wrap(|b| - off) == |b| - off;
  }

  // The two copies of kfifo_out.
  method CopyFrom(src: array<Byte>, off: nat, len: nat) returns (data: seq<Byte>)
    requires src.Length < TWO32 && (len > 0 ==> off < src.Length && len <= src.Length)
    ensures data == if len == 0 then [] else CopyOut(src[..], off, len)
  {
    var l := Min(len, Wrap(src.Length - off));
    CopyOutParts(src[..], off, len, l);
    data := MemcpyOut(src, off, l);
    var rest := MemcpyOut(src, 0, len - l);
    data := data + rest;
  }

  // x & (size - 1), with size - 1 in 32 bits.
  function Offset(x: uint32, size: nat): (off: nat)
    requires size < TWO32
    ensures size > 0 ==> off == And(x, size - 1) < size
  {
    MaskValue(size);
    And(x, Wrap(size - 1))
  }

  lemma MaskValue(size: nat)
    requires size < TWO32
    ensures size > 0 ==> Wrap(size - 1) == size - 1
  {
  }

  class Fifo {
    var buffer: array<Byte>
    var in_: uint32
    var out: uint32

    function Value(): Ring
      reads this, buffer
    {
      Ring(buffer[..], in_, out)
    }

    constructor (size: nat)
      requires size < TWO32
      ensures fresh(buffer) && Value() == Init(size)
    {
      buffer := new Byte[size](_ => 0);
      in_, out := 0, 0;
      new;
      assert buffer[..] == Init(size).buffer;
    }

    // kfifo_in, given the offset of in_ in the array.
    method PutAt(off: nat, buf: seq<Byte>) returns (len: nat)
      requires Used(Value()) <= buffer.Length < TWO32 && (buffer.Length > 0 ==> off < buffer.Length)
      modifies this`in_, buffer
      ensures len == Min(|buf|, buffer.Length - old(Used(Value()))) && in_ == Wrap(old(in_) + len)
      ensures buffer[..] == if len == 0 then old(buffer[..]) else CopyIn(old(buffer[..]), off, buf[..len])
    {
      len := Min(|buf|, buffer.Length - Wrap(in_ - out));
      CopyAround(buffer, off, buf[..len]);
      in_ := Wrap(in_ + len);
    }

    // kfifo_in
    method PutRaw(buf: seq<Byte>) returns (len: nat, ghost off: nat)
      requires Used(Value()) <= buffer.Length < TWO32
      modifies this`in_, buffer
      ensures len == Min(|buf|, buffer.Length - old(Used(Value()))) && in_ == Wrap(old(in_) + len)
      ensures buffer.Length > 0 ==> off == And(old(in_), buffer.Length - 1) && off < buffer.Length
      ensures buffer[..] == if len == 0 then old(buffer[..]) else CopyIn(old(buffer[..]), off, buf[..len])
    {
      off := Offset(in_, buffer.Length);
      len := PutAt(Offset(in_, buffer.Length), buf);
    }

    // A ring of size 0 takes nothing; the contents of a ring whose size is a power of two gain what fits.
    method Put(buf: seq<Byte>) returns (len: nat)
      requires Used(Value()) <= buffer.Length < TWO32
      modifies this`in_, buffer
      ensures if buffer.Length == 0 then len == 0 && Value() == old(Value())
              else (Value(), len) == In(old(Value()), buf)
      ensures old(Valid(Value())) ==>
                && Valid(Value()) && len == Min(|buf|, buffer.Length - |old(Contents(Value()))|)
                && Contents(Value()) == old(Contents(Value())) + buf[..len]
    {
      ghost var r := Value();
      ghost var off;
      len, off := PutRaw(buf);
      if buffer.Length > 0 { InIs(r, Value(), buf, len, off); }
      if Valid(r) { InAppends(r, buf); }
    }

    // kfifo_out, given the offset of out in the array.
    method GetAt(off: nat, max: nat) returns (data: seq<Byte>)
      requires Used(Value()) <= buffer.Length < TWO32 && (buffer.Length > 0 ==> off < buffer.Length)
      modifies this`out
      ensures out == Wrap(old(out) + Min(max, old(Used(Value()))))
      ensures var len := Min(max, old(Used(Value()))); data == if len == 0 then [] else CopyOut(buffer[..], off, len)
    {
      var len := Min(max, Wrap(in_ - out));
      data := CopyFrom(buffer, off, len);
      out := Wrap(out + len);
    }

    // kfifo_out
    method GetRaw(max: nat) returns (data: seq<Byte>, ghost off: nat)
      requires Used(Value()) <= buffer.Length < TWO32
      modifies this`out
      ensures out == Wrap(old(out) + Min(max, old(Used(Value()))))
      ensures buffer.Length > 0 ==> off == And(old(out), buffer.Length - 1) && off < buffer.Length
      ensures var len := Min(max, old(Used(Value()))); data == if len == 0 then [] else CopyOut(buffer[..], off, len)
    {
      off := Offset(out, buffer.Length);
      data := GetAt(Offset(out, buffer.Length), max);
    }

    method GetOut(max: nat) returns (data: seq<Byte>)
      requires Used(Value()) <= buffer.Length < TWO32
      modifies this`out
      ensures if buffer.Length == 0 then data == [] && Value() == old(Value())
              else (Value(), data) == Out(old(Value()), max)
    {
      ghost var r := Value();
      ghost var off;
      data, off := GetRaw(max);
      if buffer.Length > 0 { OutIs(r, Value(), data, max, off); }
    }

    // A ring of size 0 hands out nothing; the contents of a ring whose size is a power of two are what is handed out
    // and what is left.
    method Get(max: nat) returns (data: seq<Byte>)
      requires Used(Value()) <= buffer.Length < TWO32
      modifies this`out
      ensures if buffer.Length == 0 then data == [] && Value() == old(Value())
              else (Value(), data) == Out(old(Value()), max)
      ensures old(Valid(Value())) ==>
                && Valid(Value()) && |data| == Min(max, |old(Contents(Value()))|)
                && old(Contents(Value())) == data + Contents(Value())
    {
      ghost var r := Value();
      data := GetOut(max);
      if Valid(r) { OutTakes(r, max); }
    }
  }
}
