/**
 The bits of a byte, least significant first: the test, the or and the and-not with `1 << k` that the
 free bitmap uses.
 */
module Bits {
  import opened Blocks

  function Pow2(n: nat): nat {
    if n == 0 then 1 else 2 * Pow2(n - 1)
  }

  /** `b & (1 << k)` is not zero. */
  predicate Bit(b: nat, k: nat) {
    if k == 0 then b % 2 == 1 else Bit(b / 2, k - 1)
  }

  /** `b | (1 << k)`, on `width` bits: bit `k` is set, the others are as before. */
  function SetBit(b: nat, k: nat, width: nat): (r: nat)
    requires k < width && b < Pow2(width)
    ensures r < Pow2(width)
    ensures forall j: nat :: Bit(r, j) <==> j == k || Bit(b, j)
    decreases k
  {
    if k == 0 then (if b % 2 == 1 then b else b + 1)
    else 2 * SetBit(b / 2, k - 1, width - 1) + b % 2
  }

  /** `b & ~(1 << k)`: bit `k` is clear, the others are as before. */
  function ClearBit(b: nat, k: nat): (r: nat)
    ensures r <= b
    ensures forall j: nat :: Bit(r, j) <==> j != k && Bit(b, j)
    decreases k
  {
    if k == 0 then (if b % 2 == 1 then b - 1 else b)
    else 2 * ClearBit(b / 2, k - 1) + b % 2
  }

  /** Bit `k` counts 2^k in the value. */
  lemma {:induction false} BitIs(b: nat, k: nat)
    ensures Pow2(k) > 0 && (Bit(b, k) <==> b / Pow2(k) % 2 == 1)
  {
    if k > 0 {
      BitIs(b / 2, k - 1);
      HalfThen(b, Pow2(k - 1));
    }
  }

  lemma {:induction false} HalfThen(b: nat, n: nat)
    requires n > 0
    ensures b / 2 / n == b / (2 * n)
  {
    var q, r := b / 2 / n, b / 2 % n;
    assert b == 2 * n * q + (2 * r + b % 2) by {
      assert b / 2 == n * q + r;
    }
    QuotientIs(b, 2 * n, q, 2 * r + b % 2);
  }

  lemma {:induction false} QuotientIs(b: nat, m: nat, q: nat, r: nat)
    requires b == m * q + r && r < m
    ensures b / m == q
  {
    var e := b / m - q;
    assert m * e == r - b % m;
    Multiple(m, e);
  }

  lemma {:induction false} Multiple(m: nat, e: int)
    ensures (e >= 1 ==> m * e >= m) && (e <= -1 ==> m * e <= 0 - m)
  {
  }

  lemma {:induction false} NoBits(k: nat)
    ensures !Bit(0, k)
  {
    if k > 0 {
      NoBits(k - 1);
    }
  }

  lemma {:induction false} ByteBits()
    ensures Pow2(8) == 256
  {
    assert Pow2(2) == 4 && Pow2(4) == 16 && Pow2(6) == 64;
  }

  /** A byte with bit `k` set or cleared. */
  function ByteWith(x: Byte, k: nat, mark: bool): (r: Byte)
    requires k < 8
    ensures forall j: nat :: Bit(r, j) <==> if j == k then mark else Bit(x, j)
  {
    ByteBits();
    if mark then SetBit(x, k, 8) else ClearBit(x, k)
  }
}
