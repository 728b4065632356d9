/**
  Security identifiers as text and as hexadecimal bytes, and which of them survive the conversion.
 */
module SIDText {
  import opened Numerals
  import opened Fields

  // ---------------------------------------------------------------- canonical text

  function Decimal(n: nat): (s: string)
    ensures s != ""
  {
    Print(n, 10, 'a')
  }

  function DecimalAll(subs: seq<nat>): (fs: seq<string>)
    ensures |fs| == |subs| && forall i | 0 <= i < |subs| :: fs[i] == Decimal(subs[i])
  {
    seq(|subs|, i requires 0 <= i < |subs| => Decimal(subs[i]))
  }

  /** S-1-authority-sub-...-sub */
  function CanonicalFields(authority: nat, subs: seq<nat>): (fs: seq<string>)
    ensures |fs| == 3 + |subs|
  {
    ["S", "1", Decimal(authority)] + DecimalAll(subs)
  }

  function Canonical(authority: nat, subs: seq<nat>): string {
    Join(CanonicalFields(authority, subs), '-')
  }

  predicate SIDOK(authority: nat, subs: seq<nat>) {
    authority < Pow16(12) && |subs| < Pow16(2) && forall i | 0 <= i < |subs| :: subs[i] < Pow16(8)
  }

  // ---------------------------------------------------------------- bytes in reverse

  /** The last `k` pairs of digits, the last first. */
  function Pairs(src: string, k: nat): string
    requires 2 * k <= |src|
  {
    if k == 0 then "" else Pairs(src, k - 1) + src[|src| - 2 * k..|src| - 2 * k + 2]
  }

  /** Little endian to big endian and back. */
  function Swap(src: string): string
    requires |src| >= 8
  {
    Pairs(src, 4)
  }

  lemma SwapIs(s: string)
    requires |s| == 8
    ensures Swap(s) == [s[6], s[7], s[4], s[5], s[2], s[3], s[0], s[1]]
  {
    assert Pairs(s, 0) == "";
    assert Pairs(s, 1) == s[6..8] && s[6..8] == [s[6], s[7]];
    assert Pairs(s, 2) == Pairs(s, 1) + s[4..6] && s[4..6] == [s[4], s[5]];
    assert Pairs(s, 3) == Pairs(s, 2) + s[2..4] && s[2..4] == [s[2], s[3]];
    assert Pairs(s, 4) == Pairs(s, 3) + s[0..2] && s[0..2] == [s[0], s[1]];
  }

  /** Reversing the bytes twice changes nothing. */
  lemma SwapInvolution(s: string)
    requires |s| == 8
    ensures |Swap(s)| == 8 && Swap(Swap(s)) == s
    ensures UpperHexes(s) ==> UpperHexes(Swap(s))
  {
    SwapIs(s);
    SwapIs(Swap(s));
  }

  // ---------------------------------------------------------------- text to hexadecimal

  predicate PartsOK(parts: seq<string>) {
    && 3 <= |parts| && |parts| - 3 < Pow16(2)
    && (forall i | 2 <= i < |parts| :: Decimals(parts[i]))
    && Parse(parts[2], 10) < Pow16(12)
    && (forall i | 3 <= i < |parts| :: Parse(parts[i], 10) < Pow16(8))
  }

  /** A sub-authority: eight digits, bytes in reverse. */
  function SubHex(n: nat): (s: string)
    ensures |s| == 8
  {
    SwapInvolution(Fixed(n, 8));
    Swap(Fixed(n, 8))
  }

  function SubsHex(parts: seq<string>, n: nat): string
    requires 3 + n <= |parts|
  {
    if n == 0 then "" else SubsHex(parts, n - 1) + SubHex(Parse(parts[2 + n], 10))
  }

  function Header(count: nat, authority: nat): (s: string)
    ensures |s| == 16
  {
    "01" + Fixed(count, 2) + Fixed(authority, 12)
  }

  function PartsHex(parts: seq<string>): string
    requires |parts| >= 3
  {
    Header(|parts| - 3, Parse(parts[2], 10)) + SubsHex(parts, |parts| - 3)
  }

  function ToHex(s: string): string
    requires |Split(s, '-')| >= 3
  {
    PartsHex(Split(s, '-'))
  }

  // ---------------------------------------------------------------- hexadecimal to text

  function DecimalPrefix(s: string): string {
    if s == "" || !IsDecimal(s[0]) then "" else [s[0]] + DecimalPrefix(s[1..])
  }

  /** The number of sub-authorities is written in hexadecimal and read in decimal. */
  function Atoi(s: string): nat {
    Parse(DecimalPrefix(s), 10)
  }

  /** Enough digits for as many sub-authorities as will be read. */
  predicate LongEnough(h: string) {
    |h| >= 16 && |h| >= 16 + 8 * Atoi(h[2..4])
  }

  function SubAt(h: string, i: nat): nat
    requires |h| >= 24 + 8 * i
  {
    Parse(Swap(h[16 + 8 * i..24 + 8 * i]), 16)
  }

  function SubsOf(h: string, n: nat): (subs: seq<nat>)
    requires |h| >= 16 + 8 * n
    ensures |subs| == n && forall i | 0 <= i < n :: subs[i] == SubAt(h, i)
  {
    seq(n, i requires 0 <= i < n => SubAt(h, i))
  }

  function ToStr(h: string): string
    requires LongEnough(h)
  {
    Canonical(Parse(h[4..16], 16), SubsOf(h, Atoi(h[2..4])))
  }

  // ---------------------------------------------------------------- what the two forms mean

  /** Four bytes in hexadecimal, the lowest first. */
  function LittleEndian(d: string): nat
    requires |d| == 8
  {
    Parse(d[0..2], 16) + 0x100 * Parse(d[2..4], 16) + 0x1_0000 * Parse(d[4..6], 16) + 0x100_0000 * Parse(d[6..8], 16)
  }

  lemma {:induction false} ParseMore(a: string, b: string)
    ensures Parse(a + b, 16) == Parse(a, 16) * Power(16, |b|) + Parse(b, 16)
  {
    hide Digit;
    if b == "" {
      assert a + b == a;
      ParseNone(16);
    } else {
      var init, last := b[..|b| - 1], b[|b| - 1];
      ParseMore(a, init);
      assert a + b == (a + init) + [last] && b == init + [last];
      ParseSnoc(a + init, last, 16);
      ParseSnoc(init, last, 16);
      MorePlaces(Parse(a, 16), Power(16, |init|), Parse(init, 16));
    }
  }

  lemma MorePlaces(x: nat, p: nat, y: nat)
    ensures (x * p + y) * 16 == x * (16 * p) + y * 16
  {
  }

  /** Swapping turns one order of the bytes into the other. */
  lemma SwapIsLittleEndian(d: string)
    requires |d| == 8
    ensures Parse(Swap(d), 16) == LittleEndian(d)
  {
    hide Swap, Parse;
    SwapIs(d);
    var a, b, c, e := d[6..8], d[4..6], d[2..4], d[0..2];
    assert Swap(d) == ((a + b) + c) + e;
    ParseMore((a + b) + c, e);
    ParseMore(a + b, c);
    ParseMore(a, b);
    Power16();
  }

  lemma Power16()
    ensures Power(16, 2) == 0x100
  {
    assert Power(16, 1) == 16;
  }

  /** What any text with parts in range becomes: a version, the count, the authority and then each
      sub-authority, the lowest byte first, all in upper-case digits. */
  lemma ToHexMeans(s: string)
    requires PartsOK(Split(s, '-'))
    ensures var parts, h := Split(s, '-'), ToHex(s);
            && |h| == 16 + 8 * (|parts| - 3) && UpperHexes(h) && h[..2] == "01"
            && Parse(h[2..4], 16) == |parts| - 3 && Parse(h[4..16], 16) == Parse(parts[2], 10)
            && forall i | 3 <= i < |parts| :: LittleEndian(h[8 * i - 8..8 * i]) == Parse(parts[i], 10)
  {
    hide Split, Fixed, Swap, Parse, Pow16, SwappedAll, SubHex, LittleEndian;
    var parts := Split(s, '-');
    var n := |parts| - 3;
    var subs := seq(n, i requires 0 <= i < n => Parse(parts[3 + i], 10));
    SubsHexIs(parts, subs, n);
    assert subs[..n] == subs;
    SwappedLength(subs);
    HeaderMeans(n, Parse(parts[2], 10), SwappedAll(subs));
    SwappedUpper(subs);
    forall i | 3 <= i < |parts| ensures LittleEndian(ToHex(s)[8 * i - 8..8 * i]) == Parse(parts[i], 10) {
      var j := i - 3;
      SwappedDigits(subs, j);
      Behind(Header(n, Parse(parts[2], 10)), SwappedAll(subs), 8 * j, 8 * j + 8);
      assert Parse(parts[i], 10) == subs[j];
      SubHexMeans(subs[j]);
    }
  }

  lemma HeaderMeans(count: nat, authority: nat, rest: string)
    requires count < Pow16(2) && authority < Pow16(12)
    ensures var h := Header(count, authority) + rest;
            && h[..2] == "01" && Parse(h[2..4], 16) == count && Parse(h[4..16], 16) == authority
    ensures UpperHexes(Header(count, authority))
  {
    hide Fixed, Parse, Pow16;
    HeaderParts(count, authority, rest);
    ParseFixed(count, 2);
    FixedUpper(count, 2);
    FixedUpper(authority, 12);
  }

  lemma {:induction false} FixedUpper(n: nat, len: nat)
    ensures UpperHexes(Fixed(n, len))
  {
    if len > 0 {
      FixedUpper(n / 16, len - 1);
      DigitOfChar(n % 16, 'A');
    }
  }

  lemma SubHexMeans(n: nat)
    requires n < Pow16(8)
    ensures LittleEndian(SubHex(n)) == n && UpperHexes(SubHex(n))
  {
    hide Fixed, Swap, Parse, Pow16, LittleEndian;
    SwapIsLittleEndian(SubHex(n));
    SubHexBack(n);
    SwapInvolution(Fixed(n, 8));
    FixedUpper(n, 8);
  }

  lemma {:induction false} SwappedUpper(subs: seq<nat>)
    requires forall i | 0 <= i < |subs| :: subs[i] < Pow16(8)
    ensures UpperHexes(SwappedAll(subs))
  {
    hide SubHex, Pow16;
    if subs != [] {
      SwappedUpper(subs[..|subs| - 1]);
      SubHexMeans(subs[|subs| - 1]);
    }
  }

  /** What any long enough hexadecimal becomes: S, 1, the authority and as many sub-authorities as the count
      says when it is read in decimal, each as a numeral without a digit too many. */
  lemma ToStrMeans(h: string)
    requires LongEnough(h)
    ensures var fs := Split(ToStr(h), '-');
            && |fs| == 3 + Atoi(h[2..4]) && fs[0] == "S" && fs[1] == "1"
            && Numeral(fs[2], 10) && Parse(fs[2], 10) == Parse(h[4..16], 16)
            && forall i | 3 <= i < |fs| :: Numeral(fs[i], 10) && Parse(fs[i], 10) == LittleEndian(h[8 * i - 8..8 * i])
  {
    hide Split, Parse, Print, Numeral, Atoi, Swap, LittleEndian, Canonical;
    var a, n := Parse(h[4..16], 16), Atoi(h[2..4]);
    var subs := SubsOf(h, n);
    CanonicalSplits(a, subs);
    PrintNumeral(a, 10);
    var fs := CanonicalFields(a, subs);
    forall i | 3 <= i < |fs| ensures Numeral(fs[i], 10) && Parse(fs[i], 10) == LittleEndian(h[8 * i - 8..8 * i]) {
      var j := i - 3;
      PrintNumeral(subs[j], 10);
      SwapIsLittleEndian(h[16 + 8 * j..24 + 8 * j]);
    }
  }

  // ---------------------------------------------------------------- the two together

  lemma CanonicalPlain(authority: nat, subs: seq<nat>)
    ensures Plain(CanonicalFields(authority, subs), '-')
    ensures forall i | 2 <= i < 3 + |subs| :: Decimals(CanonicalFields(authority, subs)[i])
    ensures Parse(CanonicalFields(authority, subs)[2], 10) == authority
    ensures forall i | 0 <= i < |subs| :: Parse(CanonicalFields(authority, subs)[3 + i], 10) == subs[i]
  {
    hide Parse, Print, Decimals;
    forall n: nat ensures '-' !in Decimal(n) && Decimals(Decimal(n)) && Parse(Decimal(n), 10) == n {
      PrintChars(n, 10, 'a');
      ParsePrint(n, 10, 'a');
    }
  }

  /** The fields of the canonical text, and so its authority and sub-authorities, can be read off it. */
  lemma CanonicalSplits(authority: nat, subs: seq<nat>)
    ensures Split(Canonical(authority, subs), '-') == CanonicalFields(authority, subs)
    ensures SIDOK(authority, subs) ==> PartsOK(CanonicalFields(authority, subs))
  {
    hide Split, Join, SIDOK, PartsOK;
    CanonicalPlain(authority, subs);
    SplitJoin(CanonicalFields(authority, subs), '-');
    if SIDOK(authority, subs) {
      CanonicalParts(authority, subs);
    }
  }

  lemma CanonicalParts(authority: nat, subs: seq<nat>)
    requires SIDOK(authority, subs)
    ensures PartsOK(CanonicalFields(authority, subs))
  {
    hide Parse, Decimals, Pow16, CanonicalFields;
    CanonicalPlain(authority, subs);
    var fs := CanonicalFields(authority, subs);
    forall i | 3 <= i < |fs| ensures Parse(fs[i], 10) < Pow16(8) {
      var j := i - 3;
      assert subs[j] < Pow16(8) && fs[i] == fs[3 + j];
    }
  }

  function SwappedAll(subs: seq<nat>): string {
    if subs == [] then "" else SwappedAll(subs[..|subs| - 1]) + SubHex(subs[|subs| - 1])
  }

  lemma {:induction false} SubsHexIs(parts: seq<string>, subs: seq<nat>, n: nat)
    requires n <= |subs| && |parts| == 3 + |subs|
    requires forall i | 0 <= i < |subs| :: Parse(parts[3 + i], 10) == subs[i]
    ensures SubsHex(parts, n) == SwappedAll(subs[..n])
  {
    hide SubHex, Parse;
    if n > 0 {
      SubsHexIs(parts, subs, n - 1);
      assert subs[..n][..n - 1] == subs[..n - 1];
    } else {
      assert subs[..0] == [];
    }
  }

  /** What the canonical text becomes. */
  lemma CanonicalToHex(authority: nat, subs: seq<nat>)
    ensures |Split(Canonical(authority, subs), '-')| >= 3
    ensures ToHex(Canonical(authority, subs)) == Header(|subs|, authority) + SwappedAll(subs)
  {
    hide Header, SubsHex, SwappedAll, Canonical, CanonicalFields, Parse, Split;
    CanonicalSplits(authority, subs);
    CanonicalPlain(authority, subs);
    SubsHexIs(CanonicalFields(authority, subs), subs, |subs|);
    assert subs[..|subs|] == subs;
  }

  lemma {:induction false} SwappedLength(subs: seq<nat>)
    ensures |SwappedAll(subs)| == 8 * |subs|
  {
    hide SubHex;
    if subs != [] {
      SwappedLength(subs[..|subs| - 1]);
    }
  }

  lemma {:induction false} SwappedDigits(subs: seq<nat>, i: nat)
    requires i < |subs|
    ensures 8 * i + 8 <= |SwappedAll(subs)|
    ensures SwappedAll(subs)[8 * i..8 * i + 8] == SubHex(subs[i])
  {
    hide SubHex;
    var init, last := SwappedAll(subs[..|subs| - 1]), SubHex(subs[|subs| - 1]);
    assert SwappedAll(subs) == init + last;
    SwappedLength(subs[..|subs| - 1]);
    if i < |subs| - 1 {
      SwappedDigits(subs[..|subs| - 1], i);
      InFront(init, last, 8 * i, 8 * i + 8);
    } else {
      assert (init + last)[|init|..|init| + 8] == last;
    }
  }

  lemma InFront(a: string, b: string, lo: nat, hi: nat)
    requires lo <= hi <= |a|
    ensures (a + b)[lo..hi] == a[lo..hi]
  {
  }

  lemma AtoiOfTwo(s: string)
    requires |s| == 2
    ensures Atoi(s) == if !IsDecimal(s[0]) then 0
                       else if !IsDecimal(s[1]) then Digit(s[0]) else 10 * Digit(s[0]) + Digit(s[1])
  {
    assert s[1..] == [s[1]] && s[1..][1..] == "";
    assert Parse("", 10) == 0;
    if IsDecimal(s[0]) {
      if IsDecimal(s[1]) {
        assert DecimalPrefix(s[1..]) == [s[1]] + DecimalPrefix(s[1..][1..]);
        assert DecimalPrefix(s) == [s[0], s[1]];
        assert [s[0], s[1]][..1] == [s[0]] && [s[0]][..0] == "";
        assert Parse([s[0]], 10) == Digit(s[0]);
        assert Parse([s[0], s[1]], 10) == Parse([s[0]], 10) * 10 + Digit(s[1]);
      } else {
        assert DecimalPrefix(s) == [s[0]];
        assert [s[0]][..0] == "";
      }
    }
  }

  /** A count up to nine reads the same in both bases, any other reads as less. */
  lemma CountMisread(n: nat)
    requires n < Pow16(2)
    ensures Atoi(Fixed(n, 2)) == n <==> n <= 9
    ensures Atoi(Fixed(n, 2)) <= n
  {
    assert Pow16(2) == 256 by { assert Pow16(1) == 16; }
    var s := Fixed(n, 2);
    assert Fixed(n, 2) == Fixed(n / 16, 1) + [Char(n % 16, 'A')];
    assert Fixed(n / 16, 1) == Fixed(n / 16 / 16, 0) + [Char(n / 16 % 16, 'A')];
    DigitOfChar(n / 16, 'A');
    DigitOfChar(n % 16, 'A');
    AtoiOfTwo(s);
    assert n / 16 <= 9 <==> IsDecimal(s[0]);
    assert n % 16 <= 9 <==> IsDecimal(s[1]);
  }

  lemma SubHexBack(n: nat)
    requires n < Pow16(8)
    ensures Parse(Swap(SubHex(n)), 16) == n
  {
    hide Fixed, Swap, Pow16, Parse;
    SwapInvolution(Fixed(n, 8));
    ParseFixed(n, 8);
  }

  /** Reading the first sub-authorities off the hexadecimal form. */
  lemma {:induction false} SubsOfHex(h: string, head: string, subs: seq<nat>, n: nat)
    requires |head| == 16 && h == head + SwappedAll(subs) && n <= |subs|
    requires forall i | 0 <= i < |subs| :: subs[i] < Pow16(8)
    ensures |h| == 16 + 8 * |subs| && SubsOf(h, n) == subs[..n]
  {
    hide SubHex, Swap, Pow16, Parse, SwappedAll;
    SwappedLength(subs);
    if n > 0 {
      SubsOfHex(h, head, subs, n - 1);
      SwappedDigits(subs, n - 1);
      Behind(head, SwappedAll(subs), 8 * (n - 1), 8 * n);
      assert h[8 + 8 * n..16 + 8 * n] == SubHex(subs[n - 1]);
      SubHexBack(subs[n - 1]);
      assert subs[..n] == subs[..n - 1] + [subs[n - 1]];
    }
  }

  lemma Behind(a: string, b: string, lo: nat, hi: nat)
    requires lo <= hi <= |b|
    ensures (a + b)[|a| + lo..|a| + hi] == b[lo..hi]
  {
  }

  lemma HeaderParts(count: nat, authority: nat, rest: string)
    requires authority < Pow16(12)
    ensures var h := Header(count, authority) + rest;
            h[2..4] == Fixed(count, 2) && Parse(h[4..16], 16) == authority
  {
    var h := Header(count, authority) + rest;
    assert h[2..4] == Fixed(count, 2);
    assert h[4..16] == Fixed(authority, 12);
    ParseFixed(authority, 12);
  }

  /** Converting to hexadecimal and back keeps the sub-authorities that the misread count announces. */
  lemma ThereAndBack(authority: nat, subs: seq<nat>)
    requires SIDOK(authority, subs)
    ensures |Split(Canonical(authority, subs), '-')| >= 3
    ensures LongEnough(ToHex(Canonical(authority, subs)))
    ensures Atoi(Fixed(|subs|, 2)) <= |subs|
    ensures ToStr(ToHex(Canonical(authority, subs))) == Canonical(authority, subs[..Atoi(Fixed(|subs|, 2))])
  {
    hide Fixed, SwappedAll, Canonical, Swap, Atoi;
    CanonicalToHex(authority, subs);
    var h := ToHex(Canonical(authority, subs));
    HeaderParts(|subs|, authority, SwappedAll(subs));
    CountMisread(|subs|);
    SubsOfHex(h, Header(|subs|, authority), subs, Atoi(Fixed(|subs|, 2)));
  }

  lemma CanonicalInjective(authority: nat, subs: seq<nat>, other: seq<nat>)
    requires Canonical(authority, subs) == Canonical(authority, other)
    ensures |subs| == |other|
  {
    CanonicalSplits(authority, subs);
    CanonicalSplits(authority, other);
  }

  /** A canonical identifier is restored exactly if it has at most nine sub-authorities. */
  lemma RoundTrip(authority: nat, subs: seq<nat>)
    requires SIDOK(authority, subs)
    ensures |Split(Canonical(authority, subs), '-')| >= 3 && LongEnough(ToHex(Canonical(authority, subs)))
    ensures ToStr(ToHex(Canonical(authority, subs))) == Canonical(authority, subs) <==> |subs| <= 9
  {
    ThereAndBack(authority, subs);
    CountMisread(|subs|);
    if |subs| <= 9 {
      assert subs[..|subs|] == subs;
    } else if ToStr(ToHex(Canonical(authority, subs))) == Canonical(authority, subs) {
      CanonicalInjective(authority, subs, subs[..Atoi(Fixed(|subs|, 2))]);
    }
  }

  // ---------------------------------------------------------------- the other way round

  /** Version one, a count, and exactly as many sub-authorities, in upper-case digits. */
  predicate HexOK(h: string) {
    && |h| >= 16 && h[..2] == "01" && UpperHexes(h) && |h| == 16 + 8 * Parse(h[2..4], 16)
  }

  lemma UpperPart(h: string, lo: nat, hi: nat)
    requires UpperHexes(h) && lo <= hi <= |h|
    ensures UpperHexes(h[lo..hi])
  {
  }

  lemma {:induction false} SwappedBack(h: string, n: nat)
    requires UpperHexes(h) && |h| >= 16 + 8 * n
    ensures SwappedAll(SubsOf(h, n)) == h[16..16 + 8 * n]
    ensures forall i | 0 <= i < n :: SubsOf(h, n)[i] < Pow16(8)
  {
    hide Fixed, Swap, Pairs, Pow16, Parse, SwappedAll, SubsOf;
    if n > 0 {
      SwappedBack(h, n - 1);
      BackStep(h, n);
    } else {
      BackNone(h);
    }
  }

  lemma BackNone(h: string)
    requires |h| >= 16
    ensures SubsOf(h, 0) == [] && SwappedAll(SubsOf(h, 0)) == h[16..16]
  {
  }

  lemma BackStep(h: string, n: nat)
    requires UpperHexes(h) && n > 0 && |h| >= 16 + 8 * n
    ensures SwappedAll(SubsOf(h, n)) == SwappedAll(SubsOf(h, n - 1)) + h[8 + 8 * n..16 + 8 * n]
    ensures SubsOf(h, n) == SubsOf(h, n - 1) + [SubsOf(h, n)[n - 1]] && SubsOf(h, n)[n - 1] < Pow16(8)
    ensures h[16..16 + 8 * n] == h[16..16 + 8 * (n - 1)] + h[8 + 8 * n..16 + 8 * n]
  {
    hide Fixed, Swap, Pairs, Pow16, Parse;
    var last := h[8 + 8 * n..16 + 8 * n];
    UpperPart(h, 8 + 8 * n, 16 + 8 * n);
    SwapInvolution(last);
    FixedParse(Swap(last));
    assert SubsOf(h, n)[..n - 1] == SubsOf(h, n - 1);
  }

  lemma CountDigits(h: string)
    requires HexOK(h)
    ensures Parse(h[2..4], 16) < Pow16(2) && Fixed(Parse(h[2..4], 16), 2) == h[2..4]
    ensures Parse(h[4..16], 16) < Pow16(12) && Fixed(Parse(h[4..16], 16), 12) == h[4..16]
  {
    UpperPart(h, 2, 4);
    UpperPart(h, 4, 16);
    FixedParse(h[2..4]);
    FixedParse(h[4..16]);
  }

  /** Well-formed hexadecimal is restored exactly if it has at most nine sub-authorities. */
  lemma RoundTripHex(h: string)
    requires HexOK(h)
    ensures LongEnough(h) && |Split(ToStr(h), '-')| >= 3
    ensures ToHex(ToStr(h)) == h <==> Parse(h[2..4], 16) <= 9
  {
    hide Fixed, SwappedAll, Canonical, Swap, Atoi, SubsOf;
    var n, m := Parse(h[2..4], 16), Atoi(h[2..4]);
    CountDigits(h);
    CountMisread(n);
    var a, subs := Parse(h[4..16], 16), SubsOf(h, m);
    CanonicalToHex(a, subs);
    SwappedLength(subs);
    SwappedBack(h, m);
    if n <= 9 {
      assert h == h[..2] + h[2..4] + h[4..16] + h[16..16 + 8 * n];
    } else {
      assert |ToHex(ToStr(h))| == 16 + 8 * m;
    }
  }

  // ---------------------------------------------------------------- the conversions as they run

  /** decimalToHex: fills a buffer from its end. */
  method DecimalToHex(decimal: string, len: nat) returns (output: string)
    requires Decimals(decimal) && Parse(decimal, 10) < Pow16(len)
    ensures output == Fixed(Parse(decimal, 10), len)
  {
    hide Fixed, Parse, Pow16;
    var dec: nat := Parse(decimal, 10);
    var hex := new char[len];
    var i := len - 1;
    PowZero();
    NoRest(Fixed(dec, len), hex[..]);
    while dec != 0
      invariant -1 <= i < len && dec < Pow16(i + 1)
      invariant Fixed(dec, i + 1) + hex[..][i + 1..] == Fixed(Parse(decimal, 10), len)
      decreases dec
    {
      var r := dec % 16;
      FixedStep(dec, i + 1, hex[..]);
      ghost var before := hex[..];
      hex[i] := if r < 10 then '0' + r as char else 'A' + (r - 10) as char;
      assert hex[..] == before[i := Char(r, 'A')];
      dec := dec / 16;
      i := i - 1;
    }
    FillZeros(hex, i);
    output := hex[..];
  }

  /** What is left of the buffer is filled with zeros. */
  method FillZeros(hex: array<char>, from: int)
    requires -1 <= from < hex.Length
    modifies hex
    ensures hex[..] == Fixed(0, from + 1) + old(hex[..])[from + 1..]
  {
    hide Fixed, Pow16;
    var i := from;
    PowZero();
    while i >= 0
      invariant -1 <= i <= from
      invariant Fixed(0, i + 1) + hex[..][i + 1..] == Fixed(0, from + 1) + old(hex[..])[from + 1..]
      decreases i
    {
      FixedStep(0, i + 1, hex[..]);
      ghost var before := hex[..];
      hex[i] := '0';
      assert hex[..] == before[i := Char(0, 'A')];
      i := i - 1;
    }
    FixedNone(hex[..]);
  }

  lemma NoRest(s: string, buffer: string)
    requires |s| == |buffer|
    ensures s + buffer[|buffer|..] == s
  {
  }

  lemma FixedNone(buffer: string)
    ensures Fixed(0, 0) + buffer[0..] == buffer
  {
  }

  /** One more digit in front of those that the buffer holds. */
  lemma FixedStep(n: nat, len: nat, buffer: string)
    requires 0 < len <= |buffer| && n < Pow16(len)
    ensures Fixed(n, len) + buffer[len..] == Fixed(n / 16, len - 1) + buffer[len - 1 := Char(n % 16, 'A')][len - 1..]
    ensures n / 16 < Pow16(len - 1)
  {
  }

  lemma PowZero()
    ensures Pow16(0) == 1 && forall k :: Pow16(k) > 0
  {
  }

  /** hexToDecimal, on as many digits as a `long` holds. */
  method HexToDecimal(hexVal: string) returns (decVal: nat)
    requires |hexVal| <= 15
    ensures decVal == Parse(hexVal, 16)
  {
    hide Parse;
    var base: nat := 1;
    decVal := 0;
    var i := |hexVal| - 1;
    assert hexVal[..i + 1] == hexVal;
    while i >= 0
      invariant -1 <= i < |hexVal| && base == Pow16(|hexVal| - 1 - i)
      invariant decVal + Parse(hexVal[..i + 1], 16) * base == Parse(hexVal, 16)
      decreases i
    {
      ParseStep(hexVal, i, base);
      decVal := decVal + Digit(hexVal[i]) * base;
      base := base * 16;
      i := i - 1;
    }
    assert hexVal[..0] == "";
    ParseNothing();
  }

  lemma ParseNothing()
    ensures Parse("", 16) == 0
  {
  }

  lemma ParseStep(s: string, i: nat, base: nat)
    requires i < |s|
    ensures Parse(s[..i + 1], 16) * base == Digit(s[i]) * base + Parse(s[..i], 16) * (base * 16)
  {
    assert s[..i + 1][..i] == s[..i];
    Distribute(Parse(s[..i], 16), Digit(s[i]), base);
  }

  lemma Distribute(p: nat, d: nat, base: nat)
    ensures (p * 16 + d) * base == d * base + p * (base * 16)
  {
  }

  /** toBigOrLittleEndian */
  method ToBigOrLittleEndian(src: string) returns (dst: string)
    requires |src| >= 8
    ensures dst == Swap(src)
  {
    dst := "";
    var i := 2;
    while i <= 8
      invariant 2 <= i <= 10 && i % 2 == 0 && dst == Pairs(src, i / 2 - 1)
    {
      dst := dst + src[|src| - i..|src| - i + 2];
      i := i + 2;
    }
  }

  method StrToHex(strSID: string) returns (hexSID: string)
    requires PartsOK(Split(strSID, '-'))
    ensures hexSID == ToHex(strSID)
  {
    hide Fixed, Swap, Parse;
    var parts := SplitByErasing(strSID, '-');
    var countOfSubIDs := |parts| - 3;
    PrintedCount(countOfSubIDs);
    var count := DecimalToHex(Decimal(countOfSubIDs), 2);
    var authority := DecimalToHex(parts[2], 12);
    hexSID := "01" + count + authority;
    var i := 3;
    while i < 3 + countOfSubIDs
      invariant 3 <= i <= 3 + countOfSubIDs
      invariant hexSID == Header(|parts| - 3, Parse(parts[2], 10)) + SubsHex(parts, i - 3)
    {
      var hex := DecimalToHex(parts[i], 8);
      var tmp := ToBigOrLittleEndian(hex);
      hexSID := hexSID + tmp;
      i := i + 1;
    }
  }

  lemma PrintedCount(n: nat)
    ensures Decimals(Decimal(n)) && Parse(Decimal(n), 10) == n
  {
    PrintChars(n, 10, 'a');
    ParsePrint(n, 10, 'a');
  }

  /** nextPartOfSID */
  method NextPartOfSID(sid: string, currentIndex: nat, len: nat) returns (part: string, next: nat)
    requires currentIndex + len <= |sid|
    ensures part == sid[currentIndex..currentIndex + len] && next == currentIndex + len
  {
    part, next := "", currentIndex;
    var i := 0;
    while i < len
      invariant i <= len && next == currentIndex + i && part == sid[currentIndex..next]
    {
      part := part + [sid[next]];
      next := next + 1;
      i := i + 1;
    }
  }

  method HexToStr(hexSID: string) returns (strSID: string)
    requires LongEnough(hexSID)
    ensures strSID == ToStr(hexSID)
  {
    hide Swap, Parse, Atoi, Decimal;
    var tmp, currentIndex := NextPartOfSID(hexSID, 2, 2);
    var countOfSubIDs := Atoi(tmp);
    tmp, currentIndex := NextPartOfSID(hexSID, currentIndex, 12);
    var authority := HexToDecimal(tmp);
    strSID := "S-1" + ("-" + Decimal(authority));
    HeadText(authority);
    assert SubsOf(hexSID, 0) == [];
    var i := 0;
    while i < countOfSubIDs
      invariant i <= countOfSubIDs && currentIndex == 16 + 8 * i
      invariant strSID == Canonical(authority, SubsOf(hexSID, i))
    {
      tmp, currentIndex := NextPartOfSID(hexSID, currentIndex, 8);
      var result := ToBigOrLittleEndian(tmp);
      SwapInvolution(tmp);
      var sub := HexToDecimal(result);
      assert sub == SubAt(hexSID, i);
      assert SubsOf(hexSID, i + 1) == SubsOf(hexSID, i) + [sub];
      MoreText(authority, SubsOf(hexSID, i), sub);
      strSID := strSID + ("-" + Decimal(sub));
      i := i + 1;
    }
  }

  lemma {:induction false} JoinSnoc(fs: seq<string>, f: string)
    requires |fs| >= 1
    ensures Join(fs + [f], '-') == Join(fs, '-') + ("-" + f)
  {
    if |fs| == 1 {
      assert (fs + [f])[1..] == [f];
      assert Join([f], '-') == f;
    } else {
      JoinSnoc(fs[1..], f);
      assert (fs + [f])[1..] == fs[1..] + [f];
      assert (fs + [f])[0] == fs[0];
    }
  }

  lemma HeadText(authority: nat)
    ensures Canonical(authority, []) == "S-1" + ("-" + Decimal(authority))
  {
    var fs: seq<string> := ["S", "1"];
    JoinSnoc(fs, Decimal(authority));
    JoinSnoc(["S"], "1");
    assert ["S"] + ["1"] == fs;
    assert CanonicalFields(authority, []) == fs + [Decimal(authority)];
    assert Join(["S"], '-') == "S";
  }

  lemma MoreText(authority: nat, subs: seq<nat>, sub: nat)
    ensures Canonical(authority, subs + [sub]) == Canonical(authority, subs) + ("-" + Decimal(sub))
  {
    JoinSnoc(CanonicalFields(authority, subs), Decimal(sub));
    assert CanonicalFields(authority, subs + [sub]) == CanonicalFields(authority, subs) + [Decimal(sub)];
  }
}
