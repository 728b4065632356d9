/**
  Addresses as numbers: being in a network is agreeing on the leading bits.
 */
module Prefixes {
  import opened Netmasks

  predicate AreWords(w: seq<int>) {
    forall i | 0 <= i < |w| :: 0 <= w[i] <= 0xffff
  }

  /** Words of sixteen bits, the most significant first, as one number. */
  function Number(w: seq<int>): (x: nat)
    requires AreWords(w)
  {
    if w == [] then 0 else Number(w[..|w| - 1]) * 0x1_0000 + w[|w| - 1]
  }

  /** How many of the bits of word `i` a netmask of `n` bits covers. */
  function Covered(n: nat, i: nat): (c: nat)
    ensures c <= 16
  {
    if n <= 16 * i then 0 else if n >= 16 * i + 16 then 16 else n - 16 * i
  }

  function WordMask(n: nat, i: nat): nat {
    Mask(16, Covered(n, i))
  }

  predicate SameUnder(a: seq<int>, b: seq<int>, n: nat, i: nat)
    requires i < |a| == |b| && AreWords(a) && AreWords(b)
  {
    And(a[i], WordMask(n, i)) == And(b[i], WordMask(n, i))
  }

  ghost predicate AllSameUnder(a: seq<int>, b: seq<int>, n: nat)
    requires |a| == |b| && AreWords(a) && AreWords(b)
  {
    forall i | 0 <= i < |a| :: SameUnder(a, b, n, i)
  }

  lemma WordBound(x: nat)
    requires x <= 0xffff
    ensures x < Pow2(16)
  {
    Pow2Of32();
  }

  lemma WordUnder(x: nat, y: nat, n: nat, i: nat)
    requires x <= 0xffff && y <= 0xffff
    ensures And(x, WordMask(n, i)) == And(y, WordMask(n, i))
       <==> Upper(x, 16 - Covered(n, i)) == Upper(y, 16 - Covered(n, i))
  {
    WordBound(x);
    WordBound(y);
    MaskedEqual(x, y, 16, Covered(n, i));
  }

  lemma DivDiv(x: nat, a: nat, b: nat)
    requires a > 0 && b > 0
    ensures a * b > 0 && x / (a * b) == x / a / b
  {
    MulAtLeast(a, b);
    DivDivAt(x, a, b, x / a, x % a, x / a / b, x / a % b);
    QuotientIs(x, a * b, x / a / b, a * (x / a % b) + x % a);
  }

  lemma DivDivAt(x: nat, a: nat, b: nat, y: nat, t: nat, q: nat, r: nat)
    requires x == a * y + t && t < a && y == b * q + r && r < b
    ensures x == a * b * q + (a * r + t) && a * r + t < a * b
  {
    Distribute(a, b * q, r);
    Regroup(a, b, q);
    Apart(r, b, a);
  }

  /** A word appended below the prefix does not matter. */
  lemma DropLast(x: nat, l: nat, k: nat)
    requires l <= 0xffff
    ensures Upper(x * 0x1_0000 + l, 16 + k) == Upper(x, k)
  {
    Pow2Of32();
    Pow2Adds(16, k);
    DivDiv(x * 0x1_0000 + l, Pow2(16), Pow2(k));
    QuotientIs(x * 0x1_0000 + l, 0x1_0000, x, l);
  }

  lemma Distribute(p: nat, a: nat, b: nat)
    ensures p * (a + b) == p * a + p * b
  {
  }

  lemma Regroup(c: nat, a: nat, b: nat)
    ensures c * a * b == c * (a * b)
  {
  }

  lemma DivShifted(x: nat, base: nat, p: nat)
    requires p > 0
    ensures (base * p + x) / p == base + x / p
  {
    Distribute(p, base, x / p);
    QuotientIs(base * p + x, p, base + x / p, x % p);
  }

  lemma DivBound(x: nat, p: nat, h: nat)
    requires p > 0 && x < h * p
    ensures x / p < h
  {
    assert x == x / p * p + x % p;
    if x / p > h {
      Apart(h, x / p, p);
    }
  }

  lemma WordParts(c: nat)
    requires c <= 16
    ensures Pow2(c) * Pow2(16 - c) == 0x1_0000
  {
    Pow2Of32();
    Pow2Adds(c, 16 - c);
  }

  /** Of a word that the prefix ends in, the upper bits matter, and all words before it. */
  lemma SplitLast(x: nat, l: nat, c: nat)
    requires l <= 0xffff && c <= 16
    ensures Upper(x * 0x1_0000 + l, 16 - c) == Shifted(x, c) + Upper(l, 16 - c)
    ensures Upper(l, 16 - c) < Pow2(c)
  {
    hide Pow2;
    WordParts(c);
    Regroup(x, Pow2(c), Pow2(16 - c));
    DivShifted(l, x * Pow2(c), Pow2(16 - c));
    DivBound(l, Pow2(16 - c), Pow2(c));
  }

  lemma PairEqual(x: nat, y: nat, a: nat, b: nat, c: nat)
    requires a < Pow2(c) && b < Pow2(c)
    ensures Shifted(x, c) + a == Shifted(y, c) + b <==> x == y && a == b
  {
    if x < y {
      Apart(x, y, Pow2(c));
    } else if y < x {
      Apart(y, x, Pow2(c));
    }
  }

  /** checkNetworkAvailability: agreeing word by word under the mask of `n` bits is having the same
      leading `n` bits. */
  lemma {:induction false} PrefixWords(a: seq<int>, b: seq<int>, n: nat)
    requires |a| == |b| && AreWords(a) && AreWords(b) && n <= 16 * |a|
    ensures AllSameUnder(a, b, n) <==> Upper(Number(a), 16 * |a| - n) == Upper(Number(b), 16 * |a| - n)
  {
    hide AllSameUnder, Upper, And, WordMask, Number, AreWords;
    if a == [] {
      PrefixNone(b);
    } else {
      var l := |a| - 1;
      NumberLast(a);
      NumberLast(b);
      PrefixWords(a[..l], b[..l], Within(n, l));
      InitUnder(a, b, n, Within(n, l));
      LastWord(Number(a[..l]), a[l], Number(b[..l]), b[l], l, n);
    }
  }

  lemma PrefixNone(b: seq<int>)
    requires b == []
    ensures AllSameUnder([], b, 0)
  {
  }

  lemma NumberLast(a: seq<int>)
    requires a != [] && AreWords(a)
    ensures AreWords(a[..|a| - 1]) && 0 <= a[|a| - 1] <= 0xffff
    ensures Number(a) == Number(a[..|a| - 1]) * 0x1_0000 + a[|a| - 1]
  {
  }

  /** The part of a netmask that lies in the first `l` words. */
  function Within(n: nat, l: nat): (m: nat)
    ensures m <= 16 * l && m <= n
  {
    if n <= 16 * l then n else 16 * l
  }

  /** The step from one word to the next. */
  lemma LastWord(x: nat, u: nat, y: nat, v: nat, l: nat, n: nat)
    requires u <= 0xffff && v <= 0xffff && n <= 16 * l + 16
    ensures Upper(x, 16 * l - Within(n, l)) == Upper(y, 16 * l - Within(n, l)) && And(u, WordMask(n, l)) == And(v, WordMask(n, l))
       <==> Upper(x * 0x1_0000 + u, 16 * l + 16 - n) == Upper(y * 0x1_0000 + v, 16 * l + 16 - n)
  {
    hide Upper, And, WordMask;
    WordUnder(u, v, n, l);
    if n <= 16 * l {
      CoveredNone(u, v);
      DropLast(x, u, 16 * l - n);
      DropLast(y, v, 16 * l - n);
    } else {
      LastSplit(x, u, y, v, n - 16 * l);
      UpperAll(x);
      UpperAll(y);
    }
  }

  lemma UpperAll(x: nat)
    ensures Upper(x, 0) == x
  {
    assert Pow2(0) == 1;
  }

  lemma LastSplit(x: nat, u: nat, y: nat, v: nat, c: nat)
    requires u <= 0xffff && v <= 0xffff && c <= 16
    ensures x == y && Upper(u, 16 - c) == Upper(v, 16 - c)
       <==> Upper(x * 0x1_0000 + u, 16 - c) == Upper(y * 0x1_0000 + v, 16 - c)
  {
    hide Pow2, Upper, Shifted;
    SplitLast(x, u, c);
    SplitLast(y, v, c);
    PairEqual(x, y, Upper(u, 16 - c), Upper(v, 16 - c), c);
  }

  lemma CoveredNone(x: nat, y: nat)
    requires x <= 0xffff && y <= 0xffff
    ensures Upper(x, 16) == Upper(y, 16)
  {
    Pow2Of32();
  }

  /** The words before the last are under the same masks for both lengths. */
  lemma InitUnder(a: seq<int>, b: seq<int>, n: nat, m: nat)
    requires 0 < |a| == |b| && AreWords(a) && AreWords(b)
    requires m == if n <= 16 * (|a| - 1) then n else 16 * (|a| - 1)
    ensures AllSameUnder(a, b, n) <==> AllSameUnder(a[..|a| - 1], b[..|a| - 1], m) && SameUnder(a, b, n, |a| - 1)
  {
    hide SameUnder;
    var l := |a| - 1;
    forall i | 0 <= i < l ensures SameUnder(a, b, n, i) <==> SameUnder(a[..l], b[..l], m, i) {
      InitUnderAt(a, b, n, m, i);
    }
    if AllSameUnder(a[..l], b[..l], m) && SameUnder(a, b, n, l) {
      forall i | 0 <= i < |a| ensures SameUnder(a, b, n, i) {
        assert i < l ==> SameUnder(a[..l], b[..l], m, i);
      }
    }
  }

  lemma InitUnderAt(a: seq<int>, b: seq<int>, n: nat, m: nat, i: nat)
    requires 0 < |a| == |b| && AreWords(a) && AreWords(b) && i < |a| - 1
    requires m == if n <= 16 * (|a| - 1) then n else 16 * (|a| - 1)
    ensures SameUnder(a, b, n, i) <==> SameUnder(a[..|a| - 1], b[..|a| - 1], m, i)
  {
    assert Covered(n, i) == Covered(m, i);
  }

  // ---------------------------------------------------------------- networks

  predicate AreBytes(p: seq<int>) {
    forall i | 0 <= i < |p| :: 0 <= p[i] <= 0xff
  }

  /** An IPv4 address as a number. */
  function Compact(p: seq<int>): (x: nat)
    requires |p| == 4 && AreBytes(p)
    ensures x < 0x1_0000_0000
  {
    p[0] * 0x100_0000 + p[1] * 0x1_0000 + p[2] * 0x100 + p[3]
  }

  predicate InNet4(p: seq<int>, net: seq<int>, n: nat)
    requires |p| == 4 && AreBytes(p) && |net| == 4 && AreBytes(net) && n <= 32
  {
    Upper(Compact(p), 32 - n) == Upper(Compact(net), 32 - n)
  }

  predicate InNet6(w: seq<int>, net: seq<int>, n: nat)
    requires |w| == 8 && AreWords(w) && |net| == 8 && AreWords(net) && n <= 128
  {
    Upper(Number(w), 128 - n) == Upper(Number(net), 128 - n)
  }

  /** How an IPv4 address is placed in an IPv6 address. */
  function Embedded(p: seq<int>): (w: seq<int>)
    requires |p| == 4 && AreBytes(p)
    ensures |w| == 8 && AreWords(w)
  {
    [0, 0, 0, 0, 0xffff, 0, p[0] * 0x100 + p[1], p[2] * 0x100 + p[3]]
  }

  lemma NumberSnoc(w: seq<int>, x: int)
    requires AreWords(w) && 0 <= x <= 0xffff
    ensures AreWords(w + [x]) && Number(w + [x]) == Number(w) * 0x1_0000 + x
  {
    assert (w + [x])[..|w|] == w;
  }

  lemma {:induction false} ZerosNumber(w: seq<int>)
    requires forall i | 0 <= i < |w| :: w[i] == 0
    ensures Number(w) == 0
  {
    if w != [] {
      ZerosNumber(w[..|w| - 1]);
    }
  }

  lemma EmbeddedNumber(p: seq<int>)
    requires |p| == 4 && AreBytes(p)
    ensures Number(Embedded(p)) == 0xffff * 0x1_0000_0000_0000 + Compact(p)
  {
    var hi, lo := p[0] * 0x100 + p[1], p[2] * 0x100 + p[3];
    var zeros: seq<int> := [0, 0, 0, 0];
    ZerosNumber(zeros);
    NumberSnoc(zeros, 0xffff);
    NumberSnoc(zeros + [0xffff], 0);
    NumberSnoc(zeros + [0xffff] + [0], hi);
    NumberSnoc(zeros + [0xffff] + [0] + [hi], lo);
    assert zeros + [0xffff] + [0] + [hi] + [lo] == Embedded(p);
  }

  lemma BaseDivides(n: nat)
    requires n <= 32
    ensures 0xffff * 0x1_0000_0000_0000 == 0xffff * 0x1_0000 * Pow2(n) * Pow2(32 - n)
  {
    Pow2Of32();
    Pow2Adds(n, 32 - n);
    Regroup(0xffff * 0x1_0000, Pow2(n), Pow2(32 - n));
  }

  /** With 96 more bits of netmask the embedding keeps and reflects being in a network. */
  lemma EmbeddingKeepsNetworks(p: seq<int>, net: seq<int>, n: nat)
    requires |p| == 4 && AreBytes(p) && |net| == 4 && AreBytes(net) && n <= 32
    ensures InNet6(Embedded(p), Embedded(net), 96 + n) <==> InNet4(p, net, n)
  {
    EmbeddedNumber(p);
    EmbeddedNumber(net);
    BaseDivides(n);
    DivShifted(Compact(p), 0xffff * 0x1_0000 * Pow2(n), Pow2(32 - n));
    DivShifted(Compact(net), 0xffff * 0x1_0000 * Pow2(n), Pow2(32 - n));
  }
}
