/**
  The text form of an address with a netmask, and what the parsers make of it.
 */
module NetworkText {
  import opened Numerals
  import opened Fields
  import opened Netmasks
  import opened Prefixes
  import T4 = IPv4Text
  import T6 = IPv6Text

  // ---------------------------------------------------------------- parts

  /** A text is an address, or an address and a netmask with a splitter in between. */
  datatype Parts = Whole(ip: string) | Pair(ip: string, mask: string) | Malformed

  function PartsOf(s: string): Parts {
    if '\\' in s then PairOf(Split(s, '\\')) else if '/' in s then PairOf(Split(s, '/')) else Whole(s)
  }

  function PairOf(fs: seq<string>): Parts {
    if |fs| == 2 && fs[0] != "" && fs[1] != "" then Pair(fs[0], fs[1]) else Malformed
  }

  /** Two fields are what stands before and after the only separator. */
  lemma TwoFields(s: string, sep: char, a: string, b: string)
    ensures Split(s, sep) == [a, b] <==> s == a + [sep] + b && sep !in a && sep !in b
  {
    hide Split, Join;
    JoinTwo(a, b, sep);
    if Split(s, sep) == [a, b] {
      JoinSplit(s, sep);
      assert a == [a, b][0] && b == [a, b][1];
    }
    if s == a + [sep] + b && sep !in a && sep !in b {
      SplitJoin([a, b], sep);
    }
  }

  lemma JoinTwo(a: string, b: string, sep: char)
    ensures Join([a, b], sep) == a + [sep] + b
  {
    assert [a, b][1..] == [b];
  }

  /** What the parts of a text are: a backslash splits it if there is one, else a slash, and there has to be
      one of it, with something on both sides. */
  lemma PartsMean(s: string, a: string, b: string)
    ensures PartsOf(s) == Whole(a) <==> '\\' !in s && '/' !in s && a == s
    ensures PartsOf(s) == Pair(a, b) <==>
              a != "" && b != "" && var sep := if '\\' in s then '\\' else '/'; s == a + [sep] + b && sep !in a && sep !in b
  {
    hide Split;
    TwoFields(s, '\\', a, b);
    TwoFields(s, '/', a, b);
    assert s == a + ['/'] + b ==> s[|a|] == '/';
    PairIs(Split(s, '\\'), a, b);
    PairIs(Split(s, '/'), a, b);
  }

  lemma PairIs(fs: seq<string>, a: string, b: string)
    ensures PairOf(fs) == Pair(a, b) <==> fs == [a, b] && a != "" && b != ""
    ensures !PairOf(fs).Whole?
  {
    assert |fs| == 2 ==> fs == [fs[0], fs[1]];
  }

  method SplitParts(iIP: string) returns (parts: Parts)
    ensures parts == PartsOf(iIP)
  {
    if '\\' in iIP {
      var sparts := SplitByPositions(iIP, '\\');
      return PairOf(sparts);
    }
    if '/' in iIP {
      var sparts := SplitByPositions(iIP, '/');
      return PairOf(sparts);
    }
    parts := Whole(iIP);
  }

  // ---------------------------------------------------------------- netmasks

  datatype Length = Length(n: int) | BadMask

  /** Nothing but digits: none of them counts as zero. */
  predicate Digits(s: string) {
    forall i | 0 <= i < |s| :: IsDecimal(s[i])
  }

  /** A length of up to 128. */
  function ReadMask6(s: string): (l: Length)
    ensures l.Length? ==> 0 <= l.n <= 128
  {
    if Digits(s) && 0 <= T4.IntOf(s) <= 128 then Length(T4.IntOf(s)) else BadMask
  }

  /** A length of up to 32, or a mask written as a number or as four bytes. */
  ghost function ReadMask4(s: string): (l: Length)
    ensures l.Length? ==> 0 <= l.n <= 32
  {
    if !T4.Allowed(s) then BadMask
    else if '.' in s then
      match T4.ReadFields(Split(s, '.'))
      case Bytes(p) => LengthOf(Compact(p))
      case NotValid => BadMask
    else if T4.UnsignedOf(s) <= 32 then Length(T4.UnsignedOf(s))
    else LengthOf(T4.UnsignedOf(s))
  }

  /** What the ones at the front of a mask count, with 31 for all ones. */
  ghost function LengthOf(x: nat): (l: Length)
    ensures l.Length? ==> 0 <= l.n <= 32
  {
    if IsMask(32, x) then
      var n :| 0 <= n <= 32 && x == Mask(32, n);
      Length(if n == 32 then 31 else n)
    else BadMask
  }

  /** The conversion of the source computes it. */
  method LengthOfMask(x: nat) returns (ok: bool, n: int)
    requires x < 0x1_0000_0000
    ensures LengthOf(x) == if ok then Length(n) else BadMask
  {
    hide Mask, IsMask;
    Pow2Of32();
    ok, n := CompactToSimple(x);
  }

  /** What a netmask means. */
  lemma MaskMeans6(s: string)
    ensures Digits(s) && Parse(s, 10) <= 128 ==> ReadMask6(s) == Length(Parse(s, 10))
    ensures Digits(s) && 128 < Parse(s, 10) < 0x8000_0000 ==> ReadMask6(s) == BadMask
    ensures !Digits(s) ==> ReadMask6(s) == BadMask
  {
  }

  /** The length that a mask of `n` ones is read as. */
  function ReadLength(n: nat): nat {
    if n == 32 then 31 else n
  }

  lemma LengthOfIs(x: nat)
    ensures forall n: nat | n <= 32 && x == Mask(32, n) :: LengthOf(x) == Length(ReadLength(n))
    ensures (forall n: nat | n <= 32 :: x != Mask(32, n)) ==> LengthOf(x) == BadMask
  {
    hide Mask;
    forall n: nat | n <= 32 && x == Mask(32, n) ensures LengthOf(x) == Length(ReadLength(n)) {
      assert IsMask(32, x);
      var m :| 0 <= m <= 32 && x == Mask(32, m) && LengthOf(x) == Length(if m == 32 then 31 else m);
      MaskInjective(32, n, m);
    }
  }

  /** Four bytes are read as the length of the mask that they are. */
  lemma DottedMask(s: string, p: seq<int>)
    requires '.' in s && T4.Read(s) == T4.Bytes(p)
    ensures |p| == 4 && AreBytes(p)
    ensures forall n: nat | n <= 32 && Compact(p) == Mask(32, n) :: ReadMask4(s) == Length(ReadLength(n))
    ensures (forall n: nat | n <= 32 :: Compact(p) != Mask(32, n)) ==> ReadMask4(s) == BadMask
  {
    hide Mask, LengthOf, Compact;
    T4.ReadMeans(s, p);
    LengthOfIs(Compact(p));
  }

  /** A number is a length, or is read as the length of the mask that it is. */
  lemma NumberMask(s: string)
    requires Digits(s) && Parse(s, 10) < 0x1_0000_0000
    ensures Parse(s, 10) <= 32 ==> ReadMask4(s) == Length(Parse(s, 10))
    ensures Parse(s, 10) > 32 ==> forall n: nat | n <= 32 && Parse(s, 10) == Mask(32, n) :: ReadMask4(s) == Length(ReadLength(n))
    ensures Parse(s, 10) > 32 && (forall n: nat | n <= 32 :: Parse(s, 10) != Mask(32, n)) ==> ReadMask4(s) == BadMask
  {
    hide Mask, LengthOf, Parse;
    LengthOfIs(Parse(s, 10));
  }

  /** And anything else is no netmask. */
  lemma NoMask(s: string)
    ensures !T4.Allowed(s) || ('.' in s && T4.Read(s) == T4.NotValid) ==> ReadMask4(s) == BadMask
  {
  }

  // ---------------------------------------------------------------- what a text means

  predicate Readable6(s: string) {
    T6.Allowed(s) && T6.Read(Split(s, ':')).Words?
  }

  /** The address part reads as an IPv6 address, and the netmask, if there is one, as a length. */
  predicate Means6(p: Parts) {
    !p.Malformed? && Readable6(p.ip) && (p.Pair? ==> ReadMask6(p.mask).Length?)
  }

  ghost predicate Means4(p: Parts) {
    !p.Malformed? && T4.Read(p.ip).Bytes? && (p.Pair? ==> ReadMask4(p.mask).Length?)
  }

  /** The parts that the parser takes over although it rejects the text: the netmask is read last. */
  predicate HalfRead6(p: Parts) {
    p.Pair? && Readable6(p.ip) && ReadMask6(p.mask).BadMask?
  }

  ghost predicate HalfRead4(p: Parts) {
    p.Pair? && T4.Read(p.ip).Bytes? && ReadMask4(p.mask).BadMask?
  }

  // ---------------------------------------------------------------- printed, and read back

  /** value(): the address, and its netmask if it has one. */
  function Value(ip: string, netmask: nat, containNetmask: bool): string {
    if containNetmask then ip + "/" + T4.Decimal(netmask) else ip
  }

  /** It is the address, and a slash and the length as a numeral behind it. */
  lemma ValueIs(ip: string, netmask: nat, containNetmask: bool)
    ensures var v := Value(ip, netmask, containNetmask);
            if !containNetmask then v == ip
            else |v| > |ip| && v[..|ip|] == ip && v[|ip|] == '/'
                 && Numeral(v[|ip| + 1..], 10) && Parse(v[|ip| + 1..], 10) == netmask
  {
    hide Numeral, Parse;
    PrintNumeral(netmask, 10);
    var v := Value(ip, netmask, containNetmask);
    assert containNetmask ==> v[|ip| + 1..] == T4.Decimal(netmask);
  }

  predicate NoSplitter(s: string) {
    '/' !in s && '\\' !in s
  }

  /** The printed form has the parts that were printed. */
  lemma ValueParts(ip: string, netmask: nat, containNetmask: bool)
    requires NoSplitter(ip) && ip != ""
    ensures PartsOf(Value(ip, netmask, containNetmask)) == if containNetmask then Pair(ip, T4.Decimal(netmask)) else Whole(ip)
  {
    hide PartsOf;
    if containNetmask {
      PrintChars(netmask, 10, 'a');
      PartsMean(Value(ip, netmask, true), ip, T4.Decimal(netmask));
    } else {
      PartsMean(ip, ip, "");
    }
  }

  /** A printed length is read back. */
  lemma MaskBack(n: nat)
    ensures n <= 128 ==> ReadMask6(T4.Decimal(n)) == Length(n)
    ensures n <= 32 ==> ReadMask4(T4.Decimal(n)) == Length(n)
  {
    hide LengthOf;
    PrintChars(n, 10, 'a');
    ParsePrint(n, 10, 'a');
  }
}
