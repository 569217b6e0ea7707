/** Bytes in memory: little-endian words, bits and overwritten ranges. */
module Bytes {

  type byte = x: int | 0 <= x < 256

  function Pow256(w: nat): nat {
    if w == 0 then 1 else 256 * Pow256(w - 1)
  }

  function Zeros(n: nat): (z: seq<byte>)
    ensures |z| == n && forall i | 0 <= i < n :: z[i] == 0
  {
    seq(n, i => 0)
  }

  /** The w-byte little-endian number at offset off. */
  function GetLe(b: seq<byte>, off: nat, w: nat): nat
    requires off + w <= |b|
    decreases w, |b|
  {
    if w == 0 then 0 else b[off] + 256 * GetLe(b, off + 1, w - 1)
  }

  /** b with the w bytes at off replaced by the little-endian form of v. */
  function PutLe(b: seq<byte>, off: nat, w: nat, v: nat): (r: seq<byte>)
    requires off + w <= |b|
    ensures |r| == |b|
    ensures forall i | 0 <= i < |b| && !(off <= i < off + w) :: r[i] == b[i]
    decreases w, |b|
  {
    if w == 0 then b else PutLe(b[off := v % 256], off + 1, w - 1, v / 256)
  }

  lemma {:induction false} GetSame(a: seq<byte>, b: seq<byte>, off: nat, w: nat)
    requires off + w <= |a| && off + w <= |b|
    requires forall i | off <= i < off + w :: a[i] == b[i]
    ensures GetLe(a, off, w) == GetLe(b, off, w)
    decreases w
  {
    if w > 0 { GetSame(a, b, off + 1, w - 1); }
  }

  /** Reading back what was written. */
  lemma {:induction false} GetPut(b: seq<byte>, off: nat, w: nat, v: nat)
    requires off + w <= |b| && v < Pow256(w)
    ensures GetLe(PutLe(b, off, w, v), off, w) == v
    decreases w
  {
    if w > 0 {
      var c := b[off := v % 256];
      assert v / 256 < Pow256(w - 1);
      GetPut(c, off + 1, w - 1, v / 256);
    }
  }

  lemma {:induction false} GetZero(b: seq<byte>, off: nat, w: nat)
    requires off + w <= |b| && forall i | off <= i < off + w :: b[i] == 0
    ensures GetLe(b, off, w) == 0
    decreases w
  {
    if w > 0 { GetZero(b, off + 1, w - 1); }
  }

  /** Bit k of x: x & (1 << k). */
  predicate Bit(x: nat, k: nat) {
    if k == 0 then x % 2 == 1 else Bit(x / 2, k - 1)
  }

  /** Bit k of x made v: x | (1 << k) or x & ~(1 << k). */
  function WithBit(x: nat, k: nat, v: bool): nat {
    if k == 0 then x - x % 2 + (if v then 1 else 0) else 2 * WithBit(x / 2, k - 1, v) + x % 2
  }

  function Pow2(n: nat): nat {
    if n == 0 then 1 else 2 * Pow2(n - 1)
  }

  lemma {:induction false} BitOfWith(x: nat, k: nat, v: bool, j: nat)
    ensures Bit(WithBit(x, k, v), j) == if j == k then v else Bit(x, j)
  {
    if k > 0 && j > 0 { BitOfWith(x / 2, k - 1, v, j - 1); }
  }

  lemma {:induction false} WithBitBound(x: nat, k: nat, v: bool, n: nat)
    requires x < Pow2(n) && k < n
    ensures WithBit(x, k, v) < Pow2(n)
  {
    var half, rest := x / 2, x % 2;
    assert x == 2 * half + rest && rest <= 1 && half < Pow2(n - 1);
    if k > 0 {
      WithBitBound(half, k - 1, v, n - 1);
      assert WithBit(x, k, v) == 2 * WithBit(half, k - 1, v) + rest;
    }
  }

  /** Bit n of a block of bytes, as a bitmap numbers them. */
  predicate BitIn(b: seq<byte>, n: nat)
    requires n / 8 < |b|
  {
    Bit(b[n / 8], n % 8)
  }

  function PutBit(b: seq<byte>, n: nat, v: bool): (r: seq<byte>)
    requires n / 8 < |b|
    ensures |r| == |b|
    ensures forall m: nat | m / 8 < |b| :: BitIn(r, m) == if m == n then v else BitIn(b, m)
  {
    WithBitBound(b[n / 8], n % 8, v, 8);
    assert Pow2(8) == 256 by { assert Pow2(4) == 16; }
    var y := WithBit(b[n / 8], n % 8, v);
    assert forall j: nat :: Bit(y, j) == if j == n % 8 then v else Bit(b[n / 8], j) by {
      forall j: nat
        ensures Bit(y, j) == if j == n % 8 then v else Bit(b[n / 8], j)
      {
        BitOfWith(b[n / 8], n % 8, v, j);
      }
    }
    b[n / 8 := y]
  }

  lemma SliceJoin<T>(s: seq<T>, a: nat, b: nat, c: nat)
    requires a <= b <= c <= |s|
    ensures s[a..b] + s[b..c] == s[a..c]
  {
  }

  /** b with the bytes from off on replaced by d. */
  function Patch(b: seq<byte>, off: nat, d: seq<byte>): (r: seq<byte>)
    requires off + |d| <= |b|
    ensures |r| == |b|
    ensures forall i | 0 <= i < |b| :: r[i] == if off <= i < off + |d| then d[i - off] else b[i]
  {
    b[..off] + d + b[off + |d|..]
  }
}
