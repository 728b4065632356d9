/**
  `IPv4Param` and `IPv6Param`: addresses in buffers, read from and printed as text, and networks.
 */
module IPParams {
  import opened Numerals
  import opened Fields
  import opened Netmasks
  import opened Prefixes
  import opened IPv6Text
  import opened NetworkText
  import T4 = IPv4Text

  const IPV6_CHARS := "1234567890ABCDEFabcdef:"
  const IPV4_CHARS := "0123456789."
  const LENGTH_CHARS := "0123456789"

  /** validateString */
  method ValidateString(str: string, allowed: string) returns (ok: bool)
    ensures ok <==> forall i | 0 <= i < |str| :: str[i] in allowed
  {
    var i := 0;
    while i < |str|
      invariant i <= |str| && forall k | 0 <= k < i :: str[k] in allowed
    {
      if str[i] !in allowed {
        return false;
      }
      i := i + 1;
    }
    return true;
  }

  /** The texts that are looked at are those of the characters that are allowed. */
  lemma AllowedChars(s: string)
    ensures Allowed(s) <==> forall i | 0 <= i < |s| :: s[i] in IPV6_CHARS
    ensures T4.Allowed(s) <==> forall i | 0 <= i < |s| :: s[i] in IPV4_CHARS
    ensures Digits(s) <==> forall i | 0 <= i < |s| :: s[i] in LENGTH_CHARS
  {
    forall c: char ensures (IsHex(c) || c == ':') <==> c in IPV6_CHARS {
      HexCharIn(c);
    }
    forall c: char ensures IsDecimal(c) <==> c in LENGTH_CHARS {
      DecimalCharIn(c);
    }
    forall c: char ensures IsDecimal(c) || c == '.' <==> c in IPV4_CHARS {
      DecimalCharIn(c);
    }
  }

  method ValidIPv6Chars(str: string) returns (ok: bool)
    ensures ok <==> Allowed(str)
  {
    AllowedChars(str);
    ok := ValidateString(str, IPV6_CHARS);
  }

  method ValidIPv4Chars(str: string) returns (ok: bool)
    ensures ok <==> T4.Allowed(str)
  {
    AllowedChars(str);
    ok := ValidateString(str, IPV4_CHARS);
  }

  method ValidDigits(str: string) returns (ok: bool)
    ensures ok <==> Digits(str)
  {
    AllowedChars(str);
    ok := ValidateString(str, LENGTH_CHARS);
  }

  lemma DecimalCharIn(c: char)
    ensures IsDecimal(c) <==> c in LENGTH_CHARS
    ensures c in IPV4_CHARS <==> c in LENGTH_CHARS || c == '.'
  {
    if IsDecimal(c) {
      assert LENGTH_CHARS[(c - '0') as int] == c;
    }
    assert IPV4_CHARS == LENGTH_CHARS + ".";
  }

  lemma HexCharIn(c: char)
    ensures IsHex(c) || c == ':' <==> c in IPV6_CHARS
  {
    var digits, upper, lower := "1234567890", "ABCDEF", "abcdef";
    DigitIn(c);
    UpperIn(c);
    LowerIn(c);
    assert IPV6_CHARS == digits + upper + lower + ":";
    assert c in ":" <==> c == ':';
    assert c in IPV6_CHARS <==> c in digits || c in upper || c in lower || c in ":";
  }

  lemma DigitIn(c: char)
    ensures c in "1234567890" <==> '0' <= c <= '9'
  {
    if '1' <= c <= '9' {
      assert "1234567890"[(c - '1') as int] == c;
    } else if c == '0' {
      assert "1234567890"[9] == c;
    }
  }

  lemma UpperIn(c: char)
    ensures c in "ABCDEF" <==> 'A' <= c <= 'F'
  {
    if 'A' <= c <= 'F' {
      assert "ABCDEF"[(c - 'A') as int] == c;
    }
  }

  lemma LowerIn(c: char)
    ensures c in "abcdef" <==> 'a' <= c <= 'f'
  {
    if 'a' <= c <= 'f' {
      assert "abcdef"[(c - 'a') as int] == c;
    }
  }

  /** Reads the fields from `lo` up to `hi` as words, `shift` places further on. */
  method ReadWords(fs: seq<string>, lo: nat, hi: nat, parts: array<int>, shift: nat) returns (ok: bool)
    requires lo <= hi <= |fs| && hi + shift <= parts.Length
    modifies parts
    ensures ok <==> AllWords(fs[lo..hi])
    ensures ok ==> forall k | lo <= k < hi :: parts[k + shift] == Parse(fs[k], 16)
    ensures forall k | 0 <= k < parts.Length && !(lo + shift <= k < hi + shift) :: parts[k] == old(parts[k])
  {
    var i := lo;
    while i < hi
      invariant lo <= i <= hi
      invariant forall k | lo <= k < i :: IsWord(fs[k]) && parts[k + shift] == Parse(fs[k], 16)
      invariant forall k | 0 <= k < parts.Length && !(lo + shift <= k < hi + shift) :: parts[k] == old(parts[k])
    {
      var ul := Parse(fs[i], 16);
      if ul > 0xffff {
        assert fs[lo..hi][i - lo] == fs[i] && !IsWord(fs[i]);
        return false;
      }
      parts[i + shift] := ul;
      i := i + 1;
    }
    return true;
  }

  /** The low sixteen bits of an `int`, all that a mask of a word lets through. */
  function Low(n: int): (l: nat)
    ensures l <= 0xffff && (0 <= n <= 0xffff ==> l == n) && (n - l) % 0x1_0000 == 0
  {
    n % 0x1_0000
  }

  function LowWords(w: seq<int>): (l: seq<int>)
    ensures |l| == |w| && AreWords(l) && (AreWords(w) ==> l == w)
    ensures forall i | 0 <= i < |w| :: (w[i] - l[i]) % 0x1_0000 == 0
  {
    seq(|w|, i requires 0 <= i < |w| => Low(w[i]))
  }

  class IPv6Param {
    const address: array<int>
    var netmask: int
    var containNetmask: bool

    predicate Valid()
      reads this, address
    {
      address.Length == 8 && IsAddress(address[..]) && 0 <= netmask <= 128
    }

    /** :: */
    constructor ()
      ensures Valid() && fresh(address) && address[..] == Zeros(8) && netmask == 128 && !containNetmask
    {
      address := new int[8](_ => 0);
      netmask, containNetmask := 128, false;
    }

    // -------------------------------------------------------------- text

    /** Finds the first run of zeros. */
    method SkippedRun() returns (skipStart: int, skipEnd: int)
      requires Valid()
      ensures IsRun(address[..], skipStart, skipEnd)
    {
      skipStart, skipEnd := -1, -1;
      var i := 0;
      while i < 8
        invariant 0 <= i <= 8 && -1 <= skipStart < i && -1 <= skipEnd < i
        invariant skipStart == -1 ==> skipEnd == -1 && forall k | 0 <= k < i :: address[k] != 0
        invariant skipStart != -1 ==> address[skipStart] == 0 && forall k | 0 <= k < skipStart :: address[k] != 0
        invariant skipStart != -1 && skipEnd == -1 ==> forall k | skipStart <= k < i :: address[k] == 0
        invariant skipEnd != -1 ==>
                    skipStart <= skipEnd && skipEnd + 1 < i && address[skipEnd + 1] != 0
                    && forall k | skipStart <= k <= skipEnd :: address[k] == 0
      {
        if skipStart == -1 && address[i] == 0 {
          skipStart := i;
        } else if skipStart != -1 && skipEnd == -1 && address[i] != 0 {
          skipEnd := i - 1;
        }
        i := i + 1;
      }
      if skipStart != -1 && skipEnd == -1 {
        skipEnd := 7;
      }
    }

    method GetAddress() returns (buff: string)
      requires Valid()
      ensures IsRun(address[..], RunFirst(address[..]), RunLast(address[..]))
      ensures buff == Text(address[..])
    {
      var skipStart, skipEnd := SkippedRun();
      buff := "";
      var skipped := false;
      var i := 0;
      while i < 8
        invariant i <= 8 && buff == Pieces(address[..], skipStart, skipEnd, i)
        invariant skipped <==> skipStart != -1 && skipStart < i
      {
        if skipStart <= i <= skipEnd {
          if !skipped {
            buff := buff + if skipStart == 0 then "::" else ":";
            skipped := true;
          }
        } else {
          buff := buff + (Hex(address[i]) + if i != 7 then ":" else "");
        }
        i := i + 1;
      }
      RunIsUnique(address[..], skipStart, skipEnd);
      PiecesAreFields(address[..], skipStart, skipEnd);
    }

    /** Takes the address from a text, or leaves it as it was. */
    method SetAddress(iIP: string) returns (ok: bool)
      requires Valid() && (Allowed(iIP) ==> ':' in iIP)
      modifies address
      ensures Valid()
      ensures ok <==> Allowed(iIP) && Read(Split(iIP, ':')).Words?
      ensures address[..] == if ok then Read(Split(iIP, ':')).w else old(address[..])
    {
      var valid := ValidIPv6Chars(iIP);
      if !valid {
        return false;
      }
      var sparts := SplitByPositions(iIP, ':');
      ghost var fs := sparts;
      var partCount := |sparts|;
      if partCount < 3 || partCount > 8 {
        return false;
      }
      if sparts[0] == "" {
        sparts := sparts[0 := "0"];
      }
      if sparts[partCount - 1] == "" {
        sparts := sparts[partCount - 1 := "0"];
      }
      assert sparts == Filled(fs);
      ok := ReadParts(sparts);
    }

    method ReadParts(sparts: seq<string>) returns (ok: bool)
      requires Valid() && 3 <= |sparts| <= 8
      modifies address
      ensures Valid()
      ensures ok <==> ReadFilled(sparts).Words?
      ensures address[..] == if ok then ReadFilled(sparts).w else old(address[..])
    {
      var single, emptyBox := FindGap(sparts);
      if !single {
        return false;
      }
      var parts := new int[8];
      if emptyBox == -1 {
        if |sparts| != 8 {
          return false;
        }
        ok := ReadWords(sparts, 0, 8, parts, 0);
        assert sparts[0..8] == sparts;
        if !ok {
          return;
        }
        assert parts[..] == Values(sparts);
      } else {
        ok := ReadAround(sparts, emptyBox, parts);
        if !ok {
          return;
        }
      }
      Copy(parts);
    }

    method Copy(parts: array<int>)
      requires Valid() && parts.Length == 8 && parts != address && AreWords(parts[..])
      modifies address
      ensures Valid() && address[..] == parts[..]
    {
      var i := 0;
      while i < 8
        invariant i <= 8 && parts[..] == old(parts[..]) && address[..i] == parts[..i]
      {
        address[i] := parts[i];
        i := i + 1;
      }
      assert address[..] == address[..8] && parts[..] == parts[..8];
    }

    // -------------------------------------------------------------- networks

    /** The mask of each word. */
    method WordMasks() returns (masks: array<int>)
      requires Valid()
      ensures fresh(masks) && masks.Length == 8 && forall k | 0 <= k < 8 :: masks[k] == WordMask(netmask, k)
    {
      hide Mask, Pow2;
      masks := new int[8](_ => 0);
      MaskNone(16);
      var c, i := netmask, 0;
      while i < 8 && c > 0
        invariant i <= 8 && c == (if netmask > 16 * i then netmask - 16 * i else 0)
        invariant forall k | 0 <= k < i :: masks[k] == WordMask(netmask, k)
        invariant forall k | i <= k < 8 :: masks[k] == 0
        decreases 8 - i
      {
        var j := 15;
        while j >= 0 && c > 0
          invariant -1 <= j <= 15 && c == netmask - 16 * i - (15 - j) && c >= 0
          invariant masks[i] == Mask(16, 15 - j)
          invariant forall k | 0 <= k < i :: masks[k] == WordMask(netmask, k)
          invariant forall k | i < k < 8 :: masks[k] == 0
          decreases j
        {
          MaskNext(16, 15 - j);
          masks[i] := masks[i] + Pow2(j);
          j, c := j - 1, c - 1;
        }
        i := i + 1;
      }
    }

    method SetNetmask(iIP: string) returns (ok: bool)
      requires Valid()
      modifies this`netmask, this`containNetmask
      ensures Valid() && (ok <==> ReadMask6(iIP).Length?)
      ensures netmask == (if ok then ReadMask6(iIP).n else old(netmask)) && containNetmask == (ok || old(containNetmask))
    {
      var valid := ValidDigits(iIP);
      if !valid {
        return false;
      }
      var caddr := T4.IntOf(iIP);
      ok := 0 <= caddr <= 128;
      if ok {
        netmask, containNetmask := caddr, true;
      }
    }

    /** The part of `set` that reads an IPv6 address, and then its netmask, if there is one. */
    method Set6(parts: Parts) returns (ok: bool)
      requires Valid() && (!parts.Malformed? && Allowed(parts.ip) ==> ':' in parts.ip)
      modifies this, address
      ensures Valid() && (ok <==> Means6(parts))
      ensures address[..] == if ok || HalfRead6(parts) then Read(Split(parts.ip, ':')).w else old(address[..])
      ensures netmask == if ok && parts.Pair? then ReadMask6(parts.mask).n else old(netmask)
      ensures containNetmask == ((ok && parts.Pair?) || old(containNetmask))
    {
      if parts.Malformed? {
        return false;
      }
      ok := SetAddress(parts.ip);
      if ok && parts.Pair? {
        ok := SetNetmask(parts.mask);
      }
    }

    /** set: an IPv6 address with or without a netmask, or else an IPv4 address that is embedded.  A text that
        is rejected leaves the object as it was, unless its address can be read and only its netmask cannot. */
    method Set(iIP: string) returns (ok: bool)
      requires Valid() && (!PartsOf(iIP).Malformed? && Allowed(PartsOf(iIP).ip) ==> ':' in PartsOf(iIP).ip)
      modifies this, address
      ensures Valid()
      ensures ok <==> Means6(PartsOf(iIP)) || Means4(PartsOf(iIP))
      ensures Means6(PartsOf(iIP)) ==>
                var p := PartsOf(iIP);
                && address[..] == Read(Split(p.ip, ':')).w
                && netmask == (if p.Pair? then ReadMask6(p.mask).n else old(netmask))
                && containNetmask == (p.Pair? || old(containNetmask))
      ensures Means4(PartsOf(iIP)) ==>
                var p := PartsOf(iIP);
                && address[..] == Embedded(T4.Read(p.ip).p) && containNetmask
                && netmask == 96 + if p.Pair? then ReadMask4(p.mask).n else 32
      ensures !ok ==> netmask == old(netmask) && containNetmask == old(containNetmask)
      ensures !ok ==> address[..] == if HalfRead6(PartsOf(iIP)) then Read(Split(PartsOf(iIP).ip, ':')).w else old(address[..])
    {
      var parts := SplitParts(iIP);
      if !parts.Malformed? {
        ColonOrNot(parts.ip);
      }
      ok := Set6(parts);
      if !ok {
        var ip4 := new IPv4Param();
        ok := ip4.Set(iIP);
        if ok {
          SetIPv4(ip4);
        }
      }
    }

    /** value() */
    method Value() returns (buff: string)
      requires Valid()
      ensures IsRun(address[..], RunFirst(address[..]), RunLast(address[..]))
      ensures buff == NetworkText.Value(Text(address[..]), netmask, containNetmask)
    {
      buff := GetAddress();
      if containNetmask {
        buff := buff + "/" + T4.Decimal(netmask);
      }
    }

    /** Whether the other address lies in the network of this one: asked by way of the other's text, and so
        answered exactly if that text can be read back.  Of its own words only the low halves matter. */
    method CheckNetwork(other: IPv6Param) returns (answered: bool, contained: bool)
      requires Valid() && other.Valid()
      ensures answered <==> AreWords(other.address[..]) && !LoneEnd(other.address[..])
      ensures answered ==> (contained <==> containNetmask && InNet6(other.address[..], LowWords(address[..]), netmask))
    {
      ghost var w := other.address[..];
      var text := other.GetAddress();
      var tmp := new IPv6Param();
      ValueReads(w, 0, false);
      answered := tmp.Set(text);
      if !answered {
        return false, false;
      }
      if !containNetmask {
        return true, false;
      }
      contained := SameNetwork(tmp);
    }

    method SameNetwork(tmp: IPv6Param) returns (same: bool)
      requires Valid() && tmp.Valid() && AreWords(tmp.address[..])
      ensures same <==> InNet6(tmp.address[..], LowWords(address[..]), netmask)
    {
      hide And, WordMask;
      ghost var a, b := LowWords(address[..]), tmp.address[..];
      var masks := WordMasks();
      PrefixWords(a, b, netmask);
      var i := 0;
      while i < 8
        invariant i <= 8 && forall k | 0 <= k < i :: SameUnder(a, b, netmask, k)
      {
        assert a[i] == Low(address[i]) && b[i] == tmp.address[i] && Low(tmp.address[i]) == tmp.address[i];
        if And(Low(address[i]), masks[i]) != And(Low(tmp.address[i]), masks[i]) {
          assert !SameUnder(a, b, netmask, i);
          return false;
        }
        i := i + 1;
      }
      same := true;
    }

    /** Becomes the embedding of an IPv4 address. */
    method SetIPv4(iIP: IPv4Param)
      requires Valid() && iIP.Valid() && address != iIP.address
      modifies this, address
      ensures Valid() && address[..] == Embedded(iIP.address[..4])
      ensures netmask == 96 + iIP.netmask && containNetmask
    {
      hide IsAddress, AreWords;
      ghost var p := iIP.address[..4];
      address[0], address[1], address[2], address[3] := 0, 0, 0, 0;
      address[4], address[5] := 0xffff, 0;
      address[6] := iIP.address[0] * 0x100 + iIP.address[1];
      address[7] := iIP.address[2] * 0x100 + iIP.address[3];
      assert address[..] == Embedded(p);
      EmbeddedIsAddress(p);
      netmask := 96 + iIP.netmask;
      containNetmask := true;
    }
  }

  class IPv4Param {
    const address: array<int>  // eight ints, of which four are used
    var netmask: int
    var containNetmask: bool

    predicate Valid()
      reads this, address
    {
      address.Length == 8 && AreBytes(address[..4]) && 0 <= netmask <= 32
    }

    /** 0.0.0.0 */
    constructor ()
      ensures Valid() && fresh(address) && netmask == 32 && !containNetmask
    {
      address := new int[8](_ => 0);
      netmask, containNetmask := 32, false;
    }

    method GetAddress() returns (buff: string)
      requires Valid()
      ensures buff == T4.Text(address[..4])
    {
      var p := address[..4];
      buff := T4.Decimal(p[0]) + "." + T4.Decimal(p[1]) + "." + T4.Decimal(p[2]) + "." + T4.Decimal(p[3]);
      Dotted(T4.FieldsOf(p));
    }

    method GetAddressCompact() returns (x: nat)
      requires Valid()
      ensures x == Compact(address[..4])
    {
      x := address[0] * 0x100_0000;
      x := x + address[1] * 0x1_0000;
      x := x + address[2] * 0x100;
      x := x + address[3];
    }

    method SetBytes(part1: int, part2: int, part3: int, part4: int) returns (ok: bool)
      requires Valid()
      modifies address
      ensures Valid() && (ok <==> AreBytes([part1, part2, part3, part4]))
      ensures address[..4] == if ok then [part1, part2, part3, part4] else old(address[..4])
    {
      if 0 <= part1 <= 255 && 0 <= part2 <= 255 && 0 <= part3 <= 255 && 0 <= part4 <= 255 {
        address[0], address[1], address[2], address[3] := part1, part2, part3, part4;
        return true;
      }
      assert part1 == [part1, part2, part3, part4][0] && part2 == [part1, part2, part3, part4][1]
          && part3 == [part1, part2, part3, part4][2] && part4 == [part1, part2, part3, part4][3];
      ok := false;
    }

    /** Takes the address from four fields, or leaves it as it was. */
    method SetFields(sparts: seq<string>) returns (ok: bool)
      requires Valid()
      modifies address
      ensures Valid() && (ok <==> T4.ReadFields(sparts).Bytes?)
      ensures address[..4] == if ok then T4.ReadFields(sparts).p else old(address[..4])
    {
      if |sparts| != 4 || sparts[0] == "" || sparts[1] == "" || sparts[2] == "" || sparts[3] == "" {
        return false;
      }
      var iparts := new int[4];
      var i := 0;
      while i < 4
        invariant i <= 4 && forall k | 0 <= k < i :: iparts[k] == T4.IntOf(sparts[k])
        invariant address[..] == old(address[..])
      {
        iparts[i] := T4.IntOf(sparts[i]);
        i := i + 1;
      }
      T4.FourBytes(sparts);
      ok := SetBytes(iparts[0], iparts[1], iparts[2], iparts[3]);
    }

    /** Takes the address from a dotted text or from a number, or leaves it as it was. */
    method SetAddress(iIP: string) returns (ok: bool)
      requires Valid()
      modifies address
      ensures Valid()
      ensures ok <==> T4.Read(iIP).Bytes?
      ensures address[..4] == if ok then T4.Read(iIP).p else old(address[..4])
    {
      var valid := ValidIPv4Chars(iIP);
      if !valid {
        return false;
      }
      if '.' in iIP {
        var sparts := SplitByPositions(iIP, '.');
        ok := SetFields(sparts);
      } else {
        var p := T4.BytesOf(T4.UnsignedOf(iIP));
        ok := SetBytes(p[0], p[1], p[2], p[3]);
        assert p == [p[0], p[1], p[2], p[3]];
      }
    }

    method SetNetmask(iNetmask: string) returns (ok: bool)
      requires Valid()
      modifies this`netmask, this`containNetmask
      ensures Valid() && (ok <==> ReadMask4(iNetmask).Length?)
      ensures netmask == (if ok then ReadMask4(iNetmask).n else old(netmask)) && containNetmask == (ok || old(containNetmask))
    {
      var valid := ValidIPv4Chars(iNetmask);
      if !valid {
        return false;
      }
      var n := 0;
      if '.' in iNetmask {
        var sparts := SplitByPositions(iNetmask, '.');
        var bytes := T4.ReadFields(sparts);
        if bytes.NotValid? {
          return false;
        }
        ok, n := LengthOfMask(Compact(bytes.p));
      } else {
        var caddr := T4.UnsignedOf(iNetmask);
        ok, n := true, caddr;
        if caddr > 32 {
          ok, n := LengthOfMask(caddr);
        }
      }
      if ok {
        netmask, containNetmask := n, true;
      }
    }

    /** set: an address with or without a netmask.  A text whose netmask is rejected has changed the address. */
    method Set(iIP: string) returns (ok: bool)
      requires Valid()
      modifies this, address
      ensures Valid() && (ok <==> Means4(PartsOf(iIP)))
      ensures address[..4] == if ok || HalfRead4(PartsOf(iIP)) then T4.Read(PartsOf(iIP).ip).p else old(address[..4])
      ensures netmask == if ok && PartsOf(iIP).Pair? then ReadMask4(PartsOf(iIP).mask).n else old(netmask)
      ensures containNetmask == ((ok && PartsOf(iIP).Pair?) || old(containNetmask))
    {
      var parts := SplitParts(iIP);
      if parts.Malformed? {
        return false;
      }
      ok := SetAddress(parts.ip);
      if ok && parts.Pair? {
        ok := SetNetmask(parts.mask);
      }
    }

    /** value() */
    method Value() returns (buff: string)
      requires Valid()
      ensures buff == NetworkText.Value(T4.Text(address[..4]), netmask, containNetmask)
    {
      buff := GetAddress();
      if containNetmask {
        buff := buff + "/" + T4.Decimal(netmask);
      }
    }

    /** Whether the other address lies in the network of this one; asked by way of the other's text,
        which can always be read back. */
    method CheckNetwork(other: IPv4Param) returns (contained: bool)
      requires Valid() && other.Valid() && (containNetmask ==> netmask >= 1)
      ensures contained <==> containNetmask && InNet4(other.address[..4], address[..4], netmask)
    {
      hide And, Pow2, InNet4;
      var text := other.GetAddress();
      var tmp := new IPv4Param();
      ValueReads4(other.address[..4], 0, false);
      var ok := tmp.Set(text);
      if !containNetmask {
        return false;
      }
      contained := SameNetwork(tmp);
    }

    method SameNetwork(tmp: IPv4Param) returns (same: bool)
      requires Valid() && tmp.Valid() && netmask >= 1
      ensures same <==> InNet4(tmp.address[..4], address[..4], netmask)
    {
      hide And, Pow2;
      var x := tmp.GetAddressCompact();
      var y := GetAddressCompact();
      var mask := SimpleToCompact(netmask);
      Pow2Of32();
      MaskedEqual(x, y, 32, netmask);
      same := And(x, mask) == And(y, mask);
    }
  }

  lemma ColonOrNot(s: string)
    ensures Allowed(s) && ':' in s ==> T4.Read(s) == T4.NotValid
  {
    if ':' in s {
      T4.ColonIsNotIPv4(s);
    }
  }

  /** What the parser makes of a printed IPv6 value. */
  lemma ValueReads(w: seq<int>, netmask: nat, containNetmask: bool)
    requires IsAddress(w) && netmask <= 128
    ensures IsRun(w, RunFirst(w), RunLast(w))
    ensures var p := PartsOf(NetworkText.Value(Text(w), netmask, containNetmask));
            && p == (if containNetmask then Pair(Text(w), T4.Decimal(netmask)) else Whole(Text(w)))
            && Allowed(p.ip) && ':' in p.ip && !Means4(p) && !HalfRead6(p)
            && (Means6(p) <==> AreWords(w) && !LoneEnd(w))
            && (Means6(p) ==> Read(Split(p.ip, ':')).w == w)
            && (containNetmask ==> ReadMask6(p.mask) == Length(netmask))
  {
    hide Text, Read, LoneEnd;
    IPv6Text.RoundTrip(w);
    TextAllowed(w);
    T4.ColonIsNotIPv4(Text(w));
    ValueParts(Text(w), netmask, containNetmask);
    MaskBack(netmask);
  }

  /** And of a printed IPv4 value. */
  lemma ValueReads4(p: seq<int>, netmask: nat, containNetmask: bool)
    requires |p| == 4 && AreBytes(p) && netmask <= 32
    ensures var q := PartsOf(NetworkText.Value(T4.Text(p), netmask, containNetmask));
            && q == (if containNetmask then Pair(T4.Text(p), T4.Decimal(netmask)) else Whole(T4.Text(p)))
            && T4.Read(q.ip) == T4.Bytes(p) && (containNetmask ==> ReadMask4(q.mask) == Length(netmask))
  {
    T4.RoundTrip(p);
    T4.FieldsPlain(p);
    T4.JoinAllowed(T4.FieldsOf(p));
    ValueParts(T4.Text(p), netmask, containNetmask);
    MaskBack(netmask);
  }

  lemma EmbeddedIsAddress(p: seq<int>)
    requires |p| == 4 && AreBytes(p)
    ensures IsAddress(Embedded(p))
  {
  }

  lemma Dotted(fs: seq<string>)
    requires |fs| == 4
    ensures Join(fs, '.') == fs[0] + "." + fs[1] + "." + fs[2] + "." + fs[3]
  {
    hide Join;
    JoinStep(fs);
    JoinStep(fs[1..]);
    JoinStep(fs[1..][1..]);
    assert fs[1..][1..][1..] == [fs[3]];
    JoinOne(fs[3]);
    Grouped(fs[0] + ".", fs[1] + ".", fs[2] + ".", fs[3]);
    Grouped(fs[0] + ".", fs[1], ".", fs[2] + "." + fs[3]);
  }

  lemma Grouped(a: string, b: string, c: string, d: string)
    ensures a + (b + (c + d)) == a + b + c + d
  {
  }

  lemma JoinStep(fs: seq<string>)
    requires |fs| > 1
    ensures Join(fs, '.') == fs[0] + "." + Join(fs[1..], '.')
  {
  }

  lemma JoinOne(f: string)
    ensures Join([f], '.') == f
  {
  }

  /** A printed address has no character that the parser refuses, and has separators. */
  lemma TextAllowed(w: seq<int>)
    requires IsAddress(w)
    ensures IsRun(w, RunFirst(w), RunLast(w)) && Allowed(Text(w)) && ':' in Text(w)
  {
    hide Hex, Hexes, Join, Read, Allowed;
    IPv6Text.RoundTrip(w);
    FieldsHex(w, RunFirst(w), RunLast(w));
    JoinAllowed(FieldsOf(w, RunFirst(w), RunLast(w)));
  }

  lemma FieldsHex(w: seq<int>, first: int, last: int)
    requires |w| == 8 && IsRun(w, first, last)
    ensures forall i | 0 <= i < |FieldsOf(w, first, last)| :: Hexes(FieldsOf(w, first, last)[i])
  {
    hide Hex, Hexes;
    forall n: int ensures Hexes(Hex(n)) {
      HexHexes(n);
    }
    HexesNone();
  }

  lemma HexHexes(n: int)
    ensures Hexes(Hex(n))
  {
    PrintChars(n % 0x1_0000_0000, 16, 'a');
  }

  lemma HexesNone()
    ensures Hexes("")
  {
  }

  lemma {:induction false} JoinAllowed(fs: seq<string>)
    requires |fs| >= 1 && forall i | 0 <= i < |fs| :: Hexes(fs[i])
    ensures Allowed(Join(fs, ':')) && (|fs| > 1 ==> ':' in Join(fs, ':'))
  {
    if |fs| > 1 {
      JoinAllowed(fs[1..]);
      var j := Join(fs, ':');
      assert j[|fs[0]|] == ':';
    }
  }

  /** Looks for an empty field; two are too many. */
  method FindGap(sparts: seq<string>) returns (single: bool, emptyBox: int)
    ensures single <==> Empty(sparts, 0) == |sparts| || Empty(sparts, Empty(sparts, 0) + 1) == |sparts|
    ensures single ==> emptyBox == if Empty(sparts, 0) == |sparts| then -1 else Empty(sparts, 0)
  {
    emptyBox := -1;
    var i := 0;
    while i < |sparts|
      invariant i <= |sparts|
      invariant emptyBox == -1 ==> forall k | 0 <= k < i :: sparts[k] != ""
      invariant emptyBox != -1 ==>
                  0 <= emptyBox < i && sparts[emptyBox] == ""
                  && forall k | 0 <= k < i && k != emptyBox :: sparts[k] != ""
    {
      if sparts[i] == "" {
        if emptyBox == -1 {
          emptyBox := i;
        } else {
          EmptyIs(sparts, 0, emptyBox);
          EmptyIs(sparts, emptyBox + 1, i);
          return false, emptyBox;
        }
      }
      i := i + 1;
    }
    if emptyBox == -1 {
      EmptyIs(sparts, 0, i);
    } else {
      EmptyIs(sparts, 0, emptyBox);
      EmptyIs(sparts, emptyBox + 1, i);
    }
    single := true;
  }

  lemma EmptyIs(fs: seq<string>, i: nat, e: nat)
    requires i <= e <= |fs| && (e < |fs| ==> fs[e] == "") && forall k | i <= k < e :: fs[k] != ""
    ensures Empty(fs, i) == e
  {
  }

  /** The words before and after the gap, and zeros in between. */
  method ReadAround(sparts: seq<string>, emptyBox: nat, parts: array<int>) returns (ok: bool)
    requires 3 <= |sparts| <= 8 && emptyBox < |sparts| && parts.Length == 8
    modifies parts
    ensures ok <==> AllWords(sparts[..emptyBox]) && AllWords(sparts[emptyBox + 1..])
    ensures ok ==> parts[..] == Values(sparts[..emptyBox]) + Zeros(9 - |sparts|) + Values(sparts[emptyBox + 1..])
    ensures ok ==> AreWords(parts[..])
  {
    var partCount := |sparts|;
    ok := ReadWords(sparts, 0, emptyBox, parts, 0);
    assert sparts[0..emptyBox] == sparts[..emptyBox];
    if !ok {
      return;
    }
    ok := ReadWords(sparts, emptyBox + 1, partCount, parts, 8 - partCount);
    assert sparts[emptyBox + 1..partCount] == sparts[emptyBox + 1..];
    if !ok {
      return;
    }
    label read:
    var i := emptyBox;
    while i < emptyBox + (8 - partCount) + 1
      invariant emptyBox <= i <= emptyBox + (8 - partCount) + 1
      invariant forall k | emptyBox <= k < i :: parts[k] == 0
      invariant forall k | 0 <= k < 8 && !(emptyBox <= k < i) :: parts[k] == old@read(parts[k])
    {
      parts[i] := 0;
      i := i + 1;
    }
    GapJoined(sparts, emptyBox, parts[..]);
  }

  lemma GapJoined(fs: seq<string>, e: nat, w: seq<int>)
    requires 3 <= |fs| <= 8 && e < |fs| && |w| == 8 && AllWords(fs[..e]) && AllWords(fs[e + 1..])
    requires forall k | 0 <= k < e :: w[k] == Parse(fs[k], 16)
    requires forall k | e <= k < e + 9 - |fs| :: w[k] == 0
    requires forall k | e + 1 <= k < |fs| :: w[k + (8 - |fs|)] == Parse(fs[k], 16)
    ensures w == Values(fs[..e]) + Zeros(9 - |fs|) + Values(fs[e + 1..]) && AreWords(w)
  {
    var r := Values(fs[..e]) + Zeros(9 - |fs|) + Values(fs[e + 1..]);
    forall k | 0 <= k < 8 ensures w[k] == r[k] && 0 <= w[k] <= 0xffff {
      if k < e {
        assert IsWord(fs[..e][k]);
      } else if k >= e + 9 - |fs| {
        var j := k - (8 - |fs|);
        assert fs[e + 1..][j - (e + 1)] == fs[j] && IsWord(fs[e + 1..][j - (e + 1)]);
        assert w[j + (8 - |fs|)] == Parse(fs[j], 16);
      }
    }
  }
}
