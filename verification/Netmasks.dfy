/**
  Netmasks as numbers: conversion between a mask and its length bit by bit, and what masking means.
 */
module Netmasks {

  // ---------------------------------------------------------------- bits

  function Pow2(k: nat): (p: nat)
    ensures p > 0
  {
    if k == 0 then 1 else 2 * Pow2(k - 1)
  }

  /** All but the low `k` bits. */
  function Upper(x: nat, k: nat): nat {
    Quotient(x, Pow2(k))
  }

  function Quotient(x: nat, d: nat): nat
    requires d > 0
  {
    x / d
  }

  function Shifted(x: nat, k: nat): nat {
    x * Pow2(k)
  }

  function Bit(x: nat, i: nat): (b: nat)
    ensures b <= 1
    decreases i
  {
    if i == 0 then x % 2 else Bit(x / 2, i - 1)
  }

  function And(x: nat, y: nat): nat
    decreases x
  {
    if x == 0 then 0 else 2 * And(x / 2, y / 2) + (x % 2) * (y % 2)
  }

  function Or(x: nat, y: nat): nat
    decreases x + y
  {
    if x == 0 && y == 0 then 0 else 2 * Or(x / 2, y / 2) + if x % 2 == 1 || y % 2 == 1 then 1 else 0
  }

  /** The top `n` of `width` bits. */
  function Mask(width: nat, n: nat): (m: nat)
    requires n <= width
  {
    if width == 0 then 0 else 2 * Mask(width - 1, if n == width then n - 1 else n) + if n == width then 1 else 0
  }

  /** Ones followed by zeros. */
  ghost predicate IsMask(width: nat, x: nat) {
    exists n :: 0 <= n <= width && x == Mask(width, n)
  }

  lemma {:induction false} Pow2Adds(a: nat, b: nat)
    ensures Pow2(a + b) == Pow2(a) * Pow2(b)
  {
    if a > 0 {
      Pow2Adds(a - 1, b);
      assert Pow2(a + b) == 2 * (Pow2(a - 1) * Pow2(b));
    }
  }

  lemma {:induction false} MaskValue(width: nat, n: nat)
    requires n <= width
    ensures Mask(width, n) == (Pow2(n) - 1) * Pow2(width - n) < Pow2(width)
  {
    if width > 0 {
      if n == width {
        MaskValue(width - 1, n - 1);
        assert Pow2(0) == 1;
      } else {
        MaskValue(width - 1, n);
        Doubled(Pow2(n) - 1, Pow2(width - n - 1));
      }
    }
  }

  lemma Doubled(a: nat, b: nat)
    ensures a * (2 * b) == 2 * (a * b)
  {
  }

  lemma {:induction false} MaskBits(width: nat, n: nat, i: nat)
    requires n <= width && i < width
    ensures Bit(Mask(width, n), i) == if i >= width - n then 1 else 0
  {
    var m := if n == width then n - 1 else n;
    assert Mask(width, n) / 2 == Mask(width - 1, m);
    if i > 0 {
      MaskBits(width - 1, m, i - 1);
    }
  }

  lemma {:induction false} MaskNext(width: nat, n: nat)
    requires n < width
    ensures Mask(width, n + 1) == Mask(width, n) + Pow2(width - n - 1)
  {
    if n + 1 < width {
      MaskNext(width - 1, n);
    }
  }

  lemma {:induction false} MaskNone(width: nat)
    ensures Mask(width, 0) == 0
  {
    if width > 0 {
      MaskNone(width - 1);
    }
  }

  /** Numbers of a width that agree in all bits are equal. */
  lemma {:induction false} SameBits(x: nat, y: nat, width: nat)
    requires x < Pow2(width) && y < Pow2(width)
    requires forall i | 0 <= i < width :: Bit(x, i) == Bit(y, i)
    ensures x == y
  {
    if width > 0 {
      forall i | 0 <= i < width - 1 ensures Bit(x / 2, i) == Bit(y / 2, i) {
        assert Bit(x, i + 1) == Bit(y, i + 1);
      }
      SameBits(x / 2, y / 2, width - 1);
      assert Bit(x, 0) == Bit(y, 0);
    }
  }

  lemma {:induction false} MaskInjective(width: nat, n: nat, m: nat)
    requires n <= width && m <= width && Mask(width, n) == Mask(width, m)
    ensures n == m
  {
    if n < m {
      MaskBits(width, n, width - m);
      MaskBits(width, m, width - m);
    } else if m < n {
      MaskBits(width, n, width - n);
      MaskBits(width, m, width - n);
    }
  }

  lemma {:induction false} BitOfPow2(x: nat, i: nat)
    ensures (And(x, Pow2(i)) == 0) <==> Bit(x, i) == 0
  {
    if x == 0 {
      BitOfZero(i);
    } else if i > 0 {
      BitOfPow2(x / 2, i - 1);
    } else {
      AndZero(x / 2);
    }
  }

  lemma {:induction false} BitOfZero(i: nat)
    ensures Bit(0, i) == 0
  {
    if i > 0 {
      BitOfZero(i - 1);
    }
  }

  lemma {:induction false} AndZero(x: nat)
    ensures And(x, 0) == 0
  {
    if x > 0 {
      AndZero(x / 2);
    }
  }

  lemma {:induction false} OrNext(x: nat, i: nat)
    requires x < Pow2(i)
    ensures Or(x, Pow2(i)) == x + Pow2(i)
  {
    if i > 0 {
      OrNext(x / 2, i - 1);
    } else {
      assert Or(0, 0) == 0;
    }
  }

  // ---------------------------------------------------------------- masking

  /** Masking keeps the bits that division keeps. */
  lemma {:induction false} AndMask(x: nat, width: nat, n: nat)
    requires n <= width && x < Pow2(width)
    ensures And(x, Mask(width, n)) == Shifted(Upper(x, width - n), width - n)
    decreases width
  {
    hide Upper, Shifted, And, Mask;
    if x == 0 {
      AndMaskZero(width, n);
    } else if n == width {
      AndMask(x / 2, width - 1, n - 1);
      AndMaskOdd(x, width);
    } else {
      AndMask(x / 2, width - 1, n);
      AndMaskEven(x, width, n);
    }
  }

  lemma AndMaskZero(width: nat, n: nat)
    requires n <= width
    ensures And(0, Mask(width, n)) == 0 == Shifted(Upper(0, width - n), width - n)
  {
    QuotientIs(0, Pow2(width - n), 0, 0);
  }

  lemma AndMaskOdd(x: nat, width: nat)
    requires width > 0 && And(x / 2, Mask(width - 1, width - 1)) == Shifted(Upper(x / 2, 0), 0)
    ensures And(x, Mask(width, width)) == Shifted(Upper(x, 0), 0)
  {
    assert Mask(width, width) / 2 == Mask(width - 1, width - 1) && Mask(width, width) % 2 == 1;
    assert Pow2(0) == 1;
  }

  lemma AndMaskEven(x: nat, width: nat, n: nat)
    requires n < width && And(x / 2, Mask(width - 1, n)) == Shifted(Upper(x / 2, width - n - 1), width - n - 1)
    ensures And(x, Mask(width, n)) == Shifted(Upper(x, width - n), width - n)
  {
    assert Mask(width, n) / 2 == Mask(width - 1, n) && Mask(width, n) % 2 == 0;
    assert And(x, Mask(width, n)) == 2 * And(x / 2, Mask(width - 1, n));
    AndMaskStep(x, Pow2(width - n - 1));
  }

  lemma AndMaskStep(x: nat, p: nat)
    requires p > 0
    ensures 2 * (x / 2 / p * p) == x / (2 * p) * (2 * p)
  {
    DivTwice(x, p);
    Doubled(x / 2 / p, p);
  }

  lemma DivTwice(x: nat, p: nat)
    requires p > 0
    ensures x / 2 / p == x / (2 * p)
  {
    var q, r := x / 2 / p, x / 2 % p;
    assert x == 2 * (q * p + r) + x % 2;
    assert 2 * (q * p) == 2 * p * q;
    QuotientIs(x, 2 * p, q, 2 * r + x % 2);
  }

  lemma {:induction false} MulAtLeast(d: nat, p: nat)
    requires d >= 1
    ensures d * p >= p
  {
    if d > 1 {
      MulAtLeast(d - 1, p);
      assert d * p == (d - 1) * p + p;
    }
  }

  lemma Apart(a: nat, b: nat, p: nat)
    requires a < b
    ensures a * p + p <= b * p
  {
    MulAtLeast(b - a, p);
    assert b * p == a * p + (b - a) * p;
  }

  lemma QuotientIs(x: nat, d: nat, q: nat, r: nat)
    requires x == d * q + r && r < d
    ensures x / d == q && x % d == r
  {
    var k := x / d;
    assert x == k * d + x % d;
    assert x == q * d + r;
    if k < q {
      Apart(k, q, d);
    } else if k > q {
      Apart(q, k, d);
    }
  }

  /** Two addresses agree under a mask exactly if they agree after division. */
  lemma MaskedEqual(x: nat, y: nat, width: nat, n: nat)
    requires n <= width && x < Pow2(width) && y < Pow2(width)
    ensures And(x, Mask(width, n)) == And(y, Mask(width, n)) <==> Upper(x, width - n) == Upper(y, width - n)
  {
    hide Upper, Pow2, Mask, And, Shifted;
    AndMask(x, width, n);
    AndMask(y, width, n);
    ShiftedEqual(Upper(x, width - n), Upper(y, width - n), width - n);
  }

  lemma ShiftedEqual(a: nat, b: nat, k: nat)
    ensures Shifted(a, k) == Shifted(b, k) <==> a == b
  {
    if a < b {
      Apart(a, b, Pow2(k));
    } else if b < a {
      Apart(b, a, Pow2(k));
    }
  }

  // ---------------------------------------------------------------- conversions

  /** convertCompactNetmaskToSimple: accepts exactly the masks of ones followed by zeros, and gives
      their length, but 31 for the mask of 32 ones. */
  method CompactToSimple(exNetmask: nat) returns (ok: bool, simpleForm: int)
    requires exNetmask < Pow2(32)
    ensures ok <==> IsMask(32, exNetmask)
    ensures ok ==> forall n | 0 <= n <= 32 && exNetmask == Mask(32, n) :: simpleForm == if n == 32 then 31 else n
  {
    hide Mask, Bit, And, Pow2;
    var threshold := 0;
    var i := 31;
    while i >= 0
      invariant -1 <= i <= 31 && threshold == 0
      invariant forall k | i < k < 32 :: Bit(exNetmask, k) == 1
    {
      BitOfPow2(exNetmask, i);
      if And(exNetmask, Pow2(i)) == 0 {
        threshold := i;
        break;
      }
      i := i - 1;
    }
    var found := i;
    i := threshold - 1;
    while i >= 0
      invariant -1 <= i < 32 && i < threshold
      invariant forall k | i < k < threshold :: Bit(exNetmask, k) == 0
    {
      BitOfPow2(exNetmask, i);
      if And(exNetmask, Pow2(i)) != 0 {
        NotAMask(exNetmask, i, threshold);
        return false, 0;
      }
      i := i - 1;
    }
    OnesThenZeros(exNetmask, found);
    return true, 31 - threshold;
  }

  /** A one below a zero. */
  lemma NotAMask(x: nat, one: nat, zero: nat)
    requires one < zero < 32 && Bit(x, one) == 1 && Bit(x, zero) == 0
    ensures forall n | 0 <= n <= 32 :: x != Mask(32, n)
  {
    forall n | 0 <= n <= 32 ensures x != Mask(32, n) {
      MaskBits(32, n, one);
      MaskBits(32, n, zero);
    }
  }

  /** Ones down to bit `top`, zeros from there. */
  lemma OnesThenZeros(x: nat, top: int)
    requires x < Pow2(32) && -1 <= top < 32
    requires forall k | top < k < 32 :: Bit(x, k) == 1
    requires forall k | 0 <= k <= top :: Bit(x, k) == 0
    ensures x == Mask(32, 31 - top)
    ensures forall n | 0 <= n <= 32 && x == Mask(32, n) :: n == 31 - top
  {
    var m := Mask(32, 31 - top);
    MaskValue(32, 31 - top);
    forall i | 0 <= i < 32 ensures Bit(x, i) == Bit(m, i) {
      MaskBits(32, 31 - top, i);
    }
    SameBits(x, m, 32);
    forall n | 0 <= n <= 32 && x == Mask(32, n) ensures n == 31 - top {
      MaskInjective(32, n, 31 - top);
    }
  }

  /** convertSimpleNetmaskToCompact, on lengths whose shift the language defines. */
  method SimpleToCompact(simpleForm: nat) returns (exNetmask: nat)
    requires 1 <= simpleForm <= 32
    ensures exNetmask == Mask(32, simpleForm)
  {
    exNetmask := 0;
    var i := 0;
    while i < simpleForm
      invariant i <= simpleForm && exNetmask == Pow2(i) - 1
    {
      OrNext(exNetmask, i);
      exNetmask := Or(exNetmask, Pow2(i));
      i := i + 1;
    }
    MaskValue(32, simpleForm);
    exNetmask := exNetmask * Pow2(32 - simpleForm) % 0x1_0000_0000;
    assert Pow2(32) == 0x1_0000_0000 by { Pow2Of32(); }
  }

  lemma Pow2Of32()
    ensures Pow2(8) == 0x100 && Pow2(16) == 0x1_0000 && Pow2(32) == 0x1_0000_0000
  {
    assert Pow2(8) == 0x100;
    Pow2Adds(8, 8);
    Pow2Adds(16, 16);
  }

  /** The two conversions are inverse on the lengths 1 to 31, and 32 comes back as 31. */
  method MaskThereAndBack(simpleForm: nat) returns (ok: bool, again: int)
    requires 1 <= simpleForm <= 32
    ensures ok && again == if simpleForm == 32 then 31 else simpleForm
  {
    hide Mask, Pow2;
    var ex := SimpleToCompact(simpleForm);
    MaskValue(32, simpleForm);
    ok, again := CompactToSimple(ex);
  }
}
