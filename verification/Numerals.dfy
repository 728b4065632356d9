/**
  Numbers as text: positional numerals in a base up to sixteen, of least or of fixed width.
 */
module Numerals {
  import Netmasks

  /** Digits above nine are letters, counted from `ten`: 'a' or 'A'. */
  function Char(d: nat, ten: char): char
    requires d < 16 && (ten == 'a' || ten == 'A')
  {
    if d < 10 then '0' + d as char else ten + (d - 10) as char
  }

  predicate IsDecimal(c: char) { '0' <= c <= '9' }

  predicate IsHex(c: char) { '0' <= c <= '9' || 'a' <= c <= 'f' || 'A' <= c <= 'F' }

  predicate IsUpperHex(c: char) { '0' <= c <= '9' || 'A' <= c <= 'F' }

  /** Anything but a digit counts as zero. */
  function Digit(c: char): (d: nat)
    ensures d < 16
  {
    if '0' <= c <= '9' then (c - '0') as nat
    else if 'a' <= c <= 'f' then 10 + (c - 'a') as nat
    else if 'A' <= c <= 'F' then 10 + (c - 'A') as nat
    else 0
  }

  predicate Decimals(s: string) {
    s != "" && forall i | 0 <= i < |s| :: IsDecimal(s[i])
  }

  predicate Hexes(s: string) {
    forall i | 0 <= i < |s| :: IsHex(s[i])
  }

  predicate UpperHexes(s: string) {
    forall i | 0 <= i < |s| :: IsUpperHex(s[i])
  }

  lemma DigitOfChar(d: nat, ten: char)
    requires d < 16 && (ten == 'a' || ten == 'A')
    ensures Digit(Char(d, ten)) == d && IsHex(Char(d, ten)) && Char(d, ten) != ':' && Char(d, ten) != '-'
    ensures d < 10 ==> IsDecimal(Char(d, ten))
    ensures ten == 'A' ==> IsUpperHex(Char(d, ten))
  {
  }

  lemma CharOfDigit(c: char)
    requires IsUpperHex(c)
    ensures Char(Digit(c), 'A') == c
  {
  }

  /** Least width. */
  function Print(n: nat, base: nat, ten: char): (s: string)
    requires 2 <= base <= 16 && (ten == 'a' || ten == 'A')
    ensures s != ""
  {
    if n < base then [Char(n, ten)] else Print(n / base, base, ten) + [Char(n % base, ten)]
  }

  function Parse(s: string, base: nat): nat {
    if s == "" then 0 else Parse(s[..|s| - 1], base) * base + Digit(s[|s| - 1])
  }

  lemma DivMod(n: nat, base: nat)
    requires base > 0
    ensures n / base * base + n % base == n
  {
  }

  lemma {:induction false} ParsePrint(n: nat, base: nat, ten: char)
    requires 2 <= base <= 16 && (ten == 'a' || ten == 'A')
    ensures Parse(Print(n, base, ten), base) == n
  {
    hide Char, Digit;
    if n < base {
      DigitOfChar(n, ten);
      assert [Char(n, ten)][..0] == "";
      assert Parse("", base) == 0;
    } else {
      ParsePrint(n / base, base, ten);
      DigitOfChar(n % base, ten);
      DivMod(n, base);
      assert Print(n, base, ten)[..|Print(n, base, ten)| - 1] == Print(n / base, base, ten);
    }
  }

  lemma {:induction false} PrintChars(n: nat, base: nat, ten: char)
    requires 2 <= base <= 16 && (ten == 'a' || ten == 'A')
    ensures Hexes(Print(n, base, ten)) && ':' !in Print(n, base, ten) && '-' !in Print(n, base, ten)
    ensures base <= 10 ==> Decimals(Print(n, base, ten))
  {
    if n < base {
      DigitOfChar(n, ten);
    } else {
      PrintChars(n / base, base, ten);
      DigitOfChar(n % base, ten);
    }
  }

  // ---------------------------------------------------------------- what numerals are

  /** The sixteen digits, in order. */
  lemma DigitsInOrder(d: nat)
    requires d < 16
    ensures Char(d, 'a') == "0123456789abcdef"[d] && Char(d, 'A') == "0123456789ABCDEF"[d]
    ensures Digit("0123456789abcdef"[d]) == d && Digit("0123456789ABCDEF"[d]) == d
  {
  }

  /** A number as text: no digit too many, letters in lower case. */
  predicate Numeral(s: string, base: nat) {
    && s != "" && (s[0] == '0' ==> |s| == 1)
    && forall i | 0 <= i < |s| :: LowerDigit(s[i]) && Digit(s[i]) < base
  }

  predicate LowerDigit(c: char) {
    '0' <= c <= '9' || 'a' <= c <= 'f'
  }

  /** What is printed is a numeral of the number. */
  lemma {:induction false} PrintNumeral(n: nat, base: nat)
    requires 2 <= base <= 16
    ensures Numeral(Print(n, base, 'a'), base) && Parse(Print(n, base, 'a'), base) == n
    ensures n > 0 ==> Print(n, base, 'a')[0] != '0'
    ensures Print(0, base, 'a') == "0"
    decreases n
  {
    hide Print, Parse, Char, Digit;
    ParsePrint(n, base, 'a');
    PrintStep(n, base);
    PrintStep(0, base);
    LowerChar(0);
    if n < base {
      LowerChar(n);
    } else {
      Remainder(n, base);
      LowerChar(n % base);
      PrintNumeral(n / base, base);
    }
  }

  lemma Remainder(n: nat, base: nat)
    requires 2 <= base <= n
    ensures 0 < n / base < n && n % base < base
  {
  }

  lemma LowerChar(d: nat)
    requires d < 16
    ensures LowerDigit(Char(d, 'a')) && Digit(Char(d, 'a')) == d && (Char(d, 'a') == '0' <==> d == 0)
  {
  }

  /** And it is the only one. */
  lemma {:induction false} NumeralUnique(s: string, base: nat)
    requires 2 <= base <= 16 && Numeral(s, base)
    ensures Print(Parse(s, base), base, 'a') == s
    ensures s[0] != '0' ==> Parse(s, base) > 0
  {
    hide Print, Parse;
    var init, last := s[..|s| - 1], s[|s| - 1];
    assert s == init + [last];
    CharAgain(last);
    ParseSnoc(init, last, base);
    if init == "" {
      ParseNone(base);
      PrintStep(Digit(last), base);
      DigitZero(last);
      assert s[0] == last;
    } else {
      assert init[0] == s[0];
      NumeralUnique(init, base);
      NextDigit(Parse(init, base), Digit(last), base);
      PrintStep(Parse(s, base), base);
    }
  }

  lemma DigitZero(c: char)
    requires LowerDigit(c)
    ensures c != '0' ==> Digit(c) > 0
  {
  }

  lemma NextDigit(p: nat, d: nat, base: nat)
    requires p > 0 && d < base
    ensures p * base + d >= base && (p * base + d) / base == p && (p * base + d) % base == d
  {
    Netmasks.Apart(0, p, base);
    Netmasks.QuotientIs(p * base + d, base, p, d);
  }

  lemma CharAgain(c: char)
    requires LowerDigit(c)
    ensures Char(Digit(c), 'a') == c
  {
  }

  lemma ParseNone(base: nat)
    ensures Parse("", base) == 0
  {
  }

  lemma PrintStep(n: nat, base: nat)
    requires 2 <= base <= 16
    ensures Print(n, base, 'a') == if n < base then [Char(n, 'a')] else Print(n / base, base, 'a') + [Char(n % base, 'a')]
  {
  }

  function Power(base: nat, k: nat): nat {
    if k == 0 then 1 else base * Power(base, k - 1)
  }

  /** The first digit of a numeral counts most: its place is worth as many times the base as digits
      follow. */
  lemma {:induction false} PlaceValue(c: char, s: string, base: nat)
    ensures Parse([c] + s, base) == Digit(c) * Power(base, |s|) + Parse(s, base)
  {
    hide Digit;
    ParseNone(base);
    if s == "" {
      assert [c] + s == [c] && [c][..0] == "";
    } else {
      var init, last := s[..|s| - 1], s[|s| - 1];
      PlaceValue(c, init, base);
      assert [c] + s == ([c] + init) + [last];
      ParseSnoc([c] + init, last, base);
      Shift(Digit(c), Power(base, |init|), Parse(init, base), base);
    }
  }

  lemma Shift(d: nat, p: nat, x: nat, base: nat)
    ensures (d * p + x) * base == d * (base * p) + x * base
  {
  }

  // ---------------------------------------------------------------- fixed width

  function Pow16(k: nat): (p: nat)
    ensures p > 0
  {
    if k == 0 then 1 else 16 * Pow16(k - 1)
  }

  /** `len` upper-case digits. */
  function Fixed(n: nat, len: nat): (s: string)
    ensures |s| == len
  {
    if len == 0 then "" else Fixed(n / 16, len - 1) + [Char(n % 16, 'A')]
  }

  lemma ParseSnoc(s: string, c: char, base: nat)
    ensures Parse(s + [c], base) == Parse(s, base) * base + Digit(c)
  {
    assert (s + [c])[..|s|] == s;
  }

  lemma {:induction false} ParseFixed(n: nat, len: nat)
    requires n < Pow16(len)
    ensures Parse(Fixed(n, len), 16) == n
  {
    hide Char, Digit;
    if len > 0 {
      assert n / 16 < Pow16(len - 1);
      ParseFixed(n / 16, len - 1);
      DigitOfChar(n % 16, 'A');
      ParseSnoc(Fixed(n / 16, len - 1), Char(n % 16, 'A'), 16);
    }
  }

  lemma {:induction false} FixedParse(s: string)
    requires UpperHexes(s)
    ensures Parse(s, 16) < Pow16(|s|) && Fixed(Parse(s, 16), |s|) == s
  {
    if s != "" {
      var init, d := s[..|s| - 1], Digit(s[|s| - 1]);
      FixedParse(init);
      CharOfDigit(s[|s| - 1]);
      assert (Parse(init, 16) * 16 + d) / 16 == Parse(init, 16) && (Parse(init, 16) * 16 + d) % 16 == d;
      assert s == init + [s[|s| - 1]];
    }
  }
}
