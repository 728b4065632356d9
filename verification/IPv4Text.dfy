/**
  The text form of an IPv4 address.
 */
module IPv4Text {
  import opened Numerals
  import opened Fields
  import opened Prefixes

  datatype Reading = Bytes(p: seq<int>) | NotValid

  predicate Allowed(s: string) {
    forall i | 0 <= i < |s| :: IsDecimal(s[i]) || s[i] == '.'
  }

  function Decimal(n: nat): (s: string)
    ensures s != ""
  {
    Print(n, 10, 'a')
  }

  function FieldsOf(p: seq<int>): (fs: seq<string>)
    requires |p| == 4 && AreBytes(p)
    ensures |fs| == 4
  {
    [Decimal(p[0]), Decimal(p[1]), Decimal(p[2]), Decimal(p[3])]
  }

  function Text(p: seq<int>): string
    requires |p| == 4 && AreBytes(p)
  {
    Join(FieldsOf(p), '.')
  }

  /** strtol into an `int`: too large values stick at the largest `long`, of which the low half is kept. */
  function IntOf(f: string): (n: int)
    ensures -0x8000_0000 <= n < 0x8000_0000
    ensures Parse(f, 10) < 0x8000_0000 ==> n == Parse(f, 10)
    ensures Parse(f, 10) <= 0x7fff_ffff_ffff_ffff ==> (Parse(f, 10) - n) % 0x1_0000_0000 == 0
    ensures Parse(f, 10) > 0x7fff_ffff_ffff_ffff ==> n == -1
  {
    var l := if Parse(f, 10) > 0x7fff_ffff_ffff_ffff then 0x7fff_ffff_ffff_ffff else Parse(f, 10);
    var t := l % 0x1_0000_0000;
    if t >= 0x8000_0000 then t - 0x1_0000_0000 else t
  }

  /** strtoul into an `unsigned int`. */
  function UnsignedOf(f: string): (n: nat)
    ensures n < 0x1_0000_0000
    ensures Parse(f, 10) < 0x1_0000_0000 ==> n == Parse(f, 10)
    ensures Parse(f, 10) <= 0xffff_ffff_ffff_ffff ==> (Parse(f, 10) - n) % 0x1_0000_0000 == 0
    ensures Parse(f, 10) > 0xffff_ffff_ffff_ffff ==> n == 0xffff_ffff
  {
    (if Parse(f, 10) > 0xffff_ffff_ffff_ffff then 0xffff_ffff_ffff_ffff else Parse(f, 10)) % 0x1_0000_0000
  }

  predicate IsByte(f: string) {
    0 <= IntOf(f) <= 0xff
  }

  function BytesOf(x: nat): (p: seq<int>)
    requires x < 0x1_0000_0000
    ensures |p| == 4 && AreBytes(p) && Compact(p) == x
  {
    [x / 0x100_0000, x / 0x1_0000 % 0x100, x / 0x100 % 0x100, x % 0x100]
  }

  /** What setAddress makes of a text: four fields, or one number. */
  function Read(s: string): Reading {
    if !Allowed(s) then NotValid
    else if '.' in s then ReadFields(Split(s, '.'))
    else Bytes(BytesOf(UnsignedOf(s)))
  }

  function ReadFields(fs: seq<string>): Reading {
    if |fs| == 4 && (forall i | 0 <= i < 4 :: fs[i] != "" && IsByte(fs[i]))
    then Bytes([IntOf(fs[0]), IntOf(fs[1]), IntOf(fs[2]), IntOf(fs[3])])
    else NotValid
  }

  lemma FourBytes(fs: seq<string>)
    requires |fs| == 4
    ensures AreBytes([IntOf(fs[0]), IntOf(fs[1]), IntOf(fs[2]), IntOf(fs[3])]) <==> forall i | 0 <= i < 4 :: IsByte(fs[i])
  {
    var p := [IntOf(fs[0]), IntOf(fs[1]), IntOf(fs[2]), IntOf(fs[3])];
    assert forall i | 0 <= i < 4 :: p[i] == IntOf(fs[i]);
  }

  lemma FieldsPlain(p: seq<int>)
    requires |p| == 4 && AreBytes(p)
    ensures Plain(FieldsOf(p), '.') && forall i | 0 <= i < 4 :: IntOf(FieldsOf(p)[i]) == p[i] && Decimals(FieldsOf(p)[i])
  {
    forall i | 0 <= i < 4 ensures '.' !in FieldsOf(p)[i] && IntOf(FieldsOf(p)[i]) == p[i] && Decimals(FieldsOf(p)[i]) {
      PrintChars(p[i], 10, 'a');
      ParsePrint(p[i], 10, 'a');
    }
  }

  lemma {:induction false} JoinAllowed(fs: seq<string>)
    requires |fs| >= 1 && forall i | 0 <= i < |fs| :: Decimals(fs[i])
    ensures Allowed(Join(fs, '.')) && (|fs| > 1 ==> '.' in Join(fs, '.'))
  {
    if |fs| > 1 {
      JoinAllowed(fs[1..]);
      var j := Join(fs, '.');
      assert j[|fs[0]|] == '.';
    }
  }

  /** A text means four bytes if it has four fields, each of them the number of its byte, or if it is one
      number and they are its bytes, the highest first; it means nothing otherwise. */
  lemma ReadMeans(s: string, p: seq<int>)
    ensures Read(s) == Bytes(p) <==> Allowed(s) && if '.' in s then MeansFields(Split(s, '.'), p) else MeansNumber(s, p)
  {
    if !('.' in s) {
      NumberMeans(UnsignedOf(s), p);
    } else if MeansFields(Split(s, '.'), p) {
      assert p == [p[0], p[1], p[2], p[3]];
    }
  }

  predicate MeansFields(fs: seq<string>, p: seq<int>) {
    |fs| == |p| == 4 && forall i | 0 <= i < 4 :: fs[i] != "" && IntOf(fs[i]) == p[i] && 0 <= p[i] <= 0xff
  }

  predicate MeansNumber(s: string, p: seq<int>) {
    |p| == 4 && AreBytes(p) && p[0] * 0x100_0000 + p[1] * 0x1_0000 + p[2] * 0x100 + p[3] == UnsignedOf(s)
  }

  lemma NumberMeans(x: nat, p: seq<int>)
    requires x < 0x1_0000_0000
    ensures BytesOf(x) == p <==>
            |p| == 4 && AreBytes(p) && p[0] * 0x100_0000 + p[1] * 0x1_0000 + p[2] * 0x100 + p[3] == x
  {
    if |p| == 4 && AreBytes(p) && Compact(p) == x {
      CompactBytes(p);
    }
  }

  /** What is printed: the four numbers without a digit too many. */
  lemma TextIs(p: seq<int>)
    requires |p| == 4 && AreBytes(p)
    ensures var fs := Split(Text(p), '.');
            |fs| == 4 && forall i | 0 <= i < 4 :: Numeral(fs[i], 10) && Parse(fs[i], 10) == p[i]
  {
    hide Numeral, Print;
    FieldsPlain(p);
    SplitJoin(FieldsOf(p), '.');
    forall i | 0 <= i < 4 ensures Numeral(FieldsOf(p)[i], 10) && Parse(FieldsOf(p)[i], 10) == p[i] {
      PrintNumeral(p[i], 10);
    }
  }

  /** Every IPv4 address is restored from its text. */
  lemma RoundTrip(p: seq<int>)
    requires |p| == 4 && AreBytes(p)
    ensures Read(Text(p)) == Bytes(p)
  {
    FieldsPlain(p);
    JoinAllowed(FieldsOf(p));
    SplitJoin(FieldsOf(p), '.');
    assert p == [p[0], p[1], p[2], p[3]];
  }

  /** A text with a colon is never an IPv4 address. */
  lemma ColonIsNotIPv4(s: string)
    requires ':' in s
    ensures Read(s) == NotValid
  {
    var i :| 0 <= i < |s| && s[i] == ':';
  }

  /** The compact form is the bytes again. */
  lemma CompactBytes(p: seq<int>)
    requires |p| == 4 && AreBytes(p)
    ensures BytesOf(Compact(p)) == p
  {
    var x := Compact(p);
    assert x / 0x100_0000 == p[0];
    assert x / 0x1_0000 == p[0] * 0x100 + p[1];
    assert x / 0x100 == p[0] * 0x1_0000 + p[1] * 0x100 + p[2];
  }
}
