/**
  The text form of an IPv6 address: what is printed, what is read, and which addresses survive.
 */
module IPv6Text {
  import opened Numerals
  import opened Fields
  import opened Prefixes

  /** Eight `int`s. */
  predicate IsAddress(w: seq<int>) {
    |w| == 8 && forall i | 0 <= i < 8 :: -0x8000_0000 <= w[i] < 0x8000_0000
  }

  /** An `int` in hexadecimal: negative ones show their two's complement. */
  function Hex(n: int): (s: string)
    ensures s != ""
  {
    Print(n % 0x1_0000_0000, 16, 'a')
  }

  function HexAll(w: seq<int>): (fs: seq<string>)
    ensures |fs| == |w| && forall i | 0 <= i < |w| :: fs[i] == Hex(w[i])
  {
    if w == [] then [] else HexAll(w[..|w| - 1]) + [Hex(w[|w| - 1])]
  }

  // ---------------------------------------------------------------- the first run of zeros

  /** `first` to `last` is the first run of zeros, or there is none and both are -1. */
  predicate IsRun(w: seq<int>, first: int, last: int)
    requires |w| == 8
  {
    if first == -1 then last == -1 && forall i | 0 <= i < 8 :: w[i] != 0
    else
      && 0 <= first <= last < 8
      && (forall i | 0 <= i < first :: w[i] != 0)
      && (forall i | first <= i <= last :: w[i] == 0)
      && (last == 7 || w[last + 1] != 0)
  }

  function First(w: seq<int>, i: nat): (first: int)
    requires |w| == 8 && i <= 8
    ensures first == -1 ==> forall k | i <= k < 8 :: w[k] != 0
    ensures first != -1 ==> i <= first < 8 && w[first] == 0 && forall k | i <= k < first :: w[k] != 0
    decreases 8 - i
  {
    if i == 8 then -1 else if w[i] == 0 then i else First(w, i + 1)
  }

  function Last(w: seq<int>, i: nat): (last: int)
    requires |w| == 8 && i < 8 && w[i] == 0
    ensures i <= last < 8 && (forall k | i <= k <= last :: w[k] == 0) && (last == 7 || w[last + 1] != 0)
    decreases 8 - i
  {
    if i == 7 || w[i + 1] != 0 then i else Last(w, i + 1)
  }

  /** The first word of the first run of zeros, -1 if there is none. */
  function RunFirst(w: seq<int>): int
    requires |w| == 8
  {
    First(w, 0)
  }

  function RunLast(w: seq<int>): int
    requires |w| == 8
  {
    if RunFirst(w) == -1 then -1 else Last(w, RunFirst(w))
  }

  lemma RunIsUnique(w: seq<int>, first: int, last: int)
    requires |w| == 8 && IsRun(w, first, last)
    ensures first == RunFirst(w) && last == RunLast(w) && IsRun(w, RunFirst(w), RunLast(w))
  {
    if first != -1 {
      assert w[first] == 0;
    }
  }

  // ---------------------------------------------------------------- printed fields

  /** What stands before the gap that replaces the run, and after it. */
  function Before(w: seq<int>, first: int): (fs: seq<string>)
    requires |w| == 8 && 0 <= first < 8
    ensures |fs| == if first == 0 then 1 else first
  {
    if first == 0 then [""] else HexAll(w[..first])
  }

  function After(w: seq<int>, last: int): (fs: seq<string>)
    requires |w| == 8 && 0 <= last < 8
    ensures |fs| == if last == 7 then 1 else 7 - last
  {
    if last == 7 then [""] else HexAll(w[last + 1..])
  }

  /** The fields of the printed address: a run of zeros, even a single one, is left out. */
  function FieldsOf(w: seq<int>, first: int, last: int): (fs: seq<string>)
    requires |w| == 8 && IsRun(w, first, last)
    ensures |fs| >= 3
  {
    if first == -1 then HexAll(w) else Before(w, first) + [""] + After(w, last)
  }

  function Text(w: seq<int>): string
    requires |w| == 8 && IsRun(w, RunFirst(w), RunLast(w))
  {
    Join(FieldsOf(w, RunFirst(w), RunLast(w)), ':')
  }

  /** What the printing loop writes for word `i`. */
  function Piece(w: seq<int>, first: int, last: int, i: nat): string
    requires |w| == 8 && i < 8
  {
    if first <= i <= last then (if i != first then "" else if first == 0 then "::" else ":")
    else Hex(w[i]) + (if i != 7 then ":" else "")
  }

  function Pieces(w: seq<int>, first: int, last: int, i: nat): string
    requires |w| == 8 && i <= 8
  {
    if i == 0 then "" else Pieces(w, first, last, i - 1) + Piece(w, first, last, i - 1)
  }

  /** Each field with a separator behind it. */
  function Lead(fs: seq<string>): string {
    if fs == [] then "" else Lead(fs[..|fs| - 1]) + fs[|fs| - 1] + ":"
  }

  lemma {:induction false} LeadConcat(a: seq<string>, b: seq<string>)
    ensures Lead(a + b) == Lead(a) + Lead(b)
  {
    if b == [] {
      assert a + b == a;
    } else {
      var init, last := b[..|b| - 1], b[|b| - 1];
      LeadConcat(a, init);
      assert (a + b)[..|a + b| - 1] == a + init && (a + b)[|a + b| - 1] == last;
      assert Lead(a + b) == Lead(a + init) + last + ":";
    }
  }

  lemma LeadOne(f: string)
    ensures Lead([f]) == f + ":"
  {
    assert [f][..0] == [];
  }

  lemma {:induction false} JoinLead(fs: seq<string>, last: string)
    ensures Join(fs + [last], ':') == Lead(fs) + last
  {
    if fs == [] {
      assert fs + [last] == [last];
    } else {
      JoinLead(fs[1..], last);
      assert (fs + [last])[1..] == fs[1..] + [last];
      assert fs == [fs[0]] + fs[1..];
      LeadConcat([fs[0]], fs[1..]);
      LeadOne(fs[0]);
    }
  }

  lemma HexAllSnoc(w: seq<int>, i: nat)
    requires i < |w|
    ensures HexAll(w[..i + 1]) == HexAll(w[..i]) + [Hex(w[i])]
  {
    assert w[..i + 1][..i] == w[..i];
  }

  lemma LeadSnoc(w: seq<int>, i: nat)
    requires i < |w|
    ensures Lead(HexAll(w[..i + 1])) == Lead(HexAll(w[..i])) + Hex(w[i]) + ":"
  {
    HexAllSnoc(w, i);
    LeadConcat(HexAll(w[..i]), [Hex(w[i])]);
    LeadOne(Hex(w[i]));
  }

  /** A word outside of the run is printed with a separator, but for the last. */
  lemma WordPiece(w: seq<int>, first: int, last: int, i: nat)
    requires |w| == 8 && i < 8 && !(first <= i <= last)
    ensures i < 7 ==> Pieces(w, first, last, i + 1) == Pieces(w, first, last, i) + Hex(w[i]) + ":"
    ensures i == 7 ==> Pieces(w, first, last, i + 1) == Pieces(w, first, last, i) + Hex(w[i])
  {
    hide Hex;
    assert Pieces(w, first, last, i + 1) == Pieces(w, first, last, i) + Piece(w, first, last, i);
    hide Pieces;
  }

  /** Up to the run, and without a run up to the last word. */
  lemma {:induction false} PiecesBefore(w: seq<int>, first: int, last: int, i: nat)
    requires |w| == 8 && IsRun(w, first, last) && i <= if first == -1 then 7 else first
    ensures Pieces(w, first, last, i) == Lead(HexAll(w[..i]))
  {
    if i > 0 {
      PiecesBefore(w, first, last, i - 1);
      LeadSnoc(w, i - 1);
      WordPiece(w, first, last, i - 1);
    } else {
      assert HexAll(w[..0]) == [];
    }
  }

  lemma {:induction false} PiecesInside(w: seq<int>, first: int, last: int, i: nat)
    requires |w| == 8 && IsRun(w, first, last) && first != -1 && first < i <= last + 1
    ensures Pieces(w, first, last, i) == Lead(Before(w, first)) + ":"
  {
    if i == first + 1 {
      PiecesBefore(w, first, last, first);
      LeadOne("");
      assert HexAll(w[..0]) == [];
    } else {
      PiecesInside(w, first, last, i - 1);
    }
  }

  /** Behind the run. */
  lemma {:induction false} PiecesAfter(w: seq<int>, first: int, last: int, i: nat)
    requires |w| == 8 && IsRun(w, first, last) && first != -1 && last < i <= 7
    ensures Pieces(w, first, last, i) == Lead(Before(w, first)) + ":" + Lead(HexAll(w[last + 1..][..i - last - 1]))
  {
    hide Hex, Before, HexAll, Lead, Pieces, Piece;
    if i == last + 1 {
      PiecesAt(w, first, last);
    } else {
      var rest := w[last + 1..];
      PiecesAfter(w, first, last, i - 1);
      LeadSnoc(rest, i - last - 2);
      WordPiece(w, first, last, i - 1);
      Regroup(Lead(Before(w, first)) + ":", Lead(HexAll(rest[..i - last - 2])), Hex(w[i - 1]));
    }
  }

  lemma PiecesAt(w: seq<int>, first: int, last: int)
    requires |w| == 8 && IsRun(w, first, last) && first != -1 && last < 7
    ensures Pieces(w, first, last, last + 1) == Lead(Before(w, first)) + ":" + Lead(HexAll(w[last + 1..][..0]))
  {
    hide Hex, Before, Pieces;
    PiecesInside(w, first, last, last + 1);
    assert w[last + 1..][..0] == [] && HexAll([]) == [] && Lead([]) == "";
  }

  lemma Regroup(p: string, l: string, x: string)
    ensures p + l + x + ":" == p + (l + x + ":")
  {
  }

  /** The printing loop writes the fields, separated by colons. */
  lemma PiecesAreFields(w: seq<int>, first: int, last: int)
    requires |w| == 8 && IsRun(w, first, last)
    ensures Pieces(w, first, last, 8) == Join(FieldsOf(w, first, last), ':')
  {
    if first == -1 {
      PiecesBefore(w, first, last, 7);
      assert w[..8] == w;
      HexAllSnoc(w, 7);
      JoinLead(HexAll(w[..7]), Hex(w[7]));
    } else {
      RunPieces(w, first, last);
    }
  }

  lemma RunPieces(w: seq<int>, first: int, last: int)
    requires |w| == 8 && IsRun(w, first, last) && first != -1
    ensures Pieces(w, first, last, 8) == Join(FieldsOf(w, first, last), ':')
  {
    if last == 7 {
      EndPieces(w, first);
    } else {
      RestPieces(w, first, last);
    }
  }

  lemma EndPieces(w: seq<int>, first: int)
    requires |w| == 8 && IsRun(w, first, 7) && first != -1
    ensures Pieces(w, first, 7, 8) == Join(FieldsOf(w, first, 7), ':')
  {
    hide Hex, HexAll, Lead, Pieces, Join, Before;
    var before := Before(w, first);
    LeadConcat(before, [""]);
    LeadOne("");
    PiecesInside(w, first, 7, 8);
    JoinLead(before + [""], "");
  }

  lemma RestPieces(w: seq<int>, first: int, last: int)
    requires |w| == 8 && IsRun(w, first, last) && first != -1 && last < 7
    ensures Pieces(w, first, last, 8) == Join(FieldsOf(w, first, last), ':')
  {
    hide Hex, HexAll, Lead, Pieces, Join, Before;
    var before, rest := Before(w, first), w[last + 1..];
    var init := HexAll(rest[..6 - last]);
    PiecesAfter(w, first, last, 7);
    WordPiece(w, first, last, 7);
    assert rest[..7 - last] == rest;
    HexAllSnoc(rest, 6 - last);
    JoinGap(before, init, Hex(w[7]));
  }

  lemma JoinGap(before: seq<string>, init: seq<string>, last: string)
    ensures Join(before + [""] + (init + [last]), ':') == Lead(before) + ":" + Lead(init) + last
  {
    hide Lead, Join;
    LeadConcat(before, [""]);
    LeadOne("");
    LeadConcat(before + [""], init);
    JoinLead(before + [""] + init, last);
    assert before + [""] + (init + [last]) == before + [""] + init + [last];
  }

  // ---------------------------------------------------------------- reading

  datatype Reading = Words(w: seq<int>) | NotValid

  predicate Allowed(s: string) {
    forall i | 0 <= i < |s| :: IsHex(s[i]) || s[i] == ':'
  }

  predicate IsWord(f: string) {
    Parse(f, 16) <= 0xffff
  }

  predicate AllWords(fs: seq<string>) {
    forall i | 0 <= i < |fs| :: IsWord(fs[i])
  }

  function Values(fs: seq<string>): (w: seq<int>)
    ensures |w| == |fs| && forall i | 0 <= i < |fs| :: w[i] == Parse(fs[i], 16)
  {
    seq(|fs|, i requires 0 <= i < |fs| => Parse(fs[i], 16))
  }

  function Zeros(n: nat): (w: seq<int>)
    ensures |w| == n && forall i | 0 <= i < n :: w[i] == 0
  {
    seq(n, _ => 0)
  }

  /** An empty field at either end counts as zero. */
  function Filled(fs: seq<string>): (r: seq<string>)
    requires |fs| >= 2
    ensures |r| == |fs|
  {
    var g := if fs[0] == "" then fs[0 := "0"] else fs;
    if g[|g| - 1] == "" then g[|g| - 1 := "0"] else g
  }

  /** The first empty field from `i` on. */
  function Empty(fs: seq<string>, i: nat): (e: nat)
    requires i <= |fs|
    ensures i <= e <= |fs| && (e < |fs| ==> fs[e] == "") && forall k | i <= k < e :: fs[k] != ""
    decreases |fs| - i
  {
    if i == |fs| || fs[i] == "" then i else Empty(fs, i + 1)
  }

  /** What setAddress makes of the fields of a text. */
  function Read(fs: seq<string>): Reading {
    if |fs| < 3 || |fs| > 8 then NotValid
    else ReadFilled(Filled(fs))
  }

  function ReadFilled(g: seq<string>): Reading
    requires 3 <= |g| <= 8
  {
    var e := Empty(g, 0);
    if e == |g| then
      if |g| == 8 && AllWords(g) then Words(Values(g)) else NotValid
    else if Empty(g, e + 1) < |g| then NotValid
    else if AllWords(g[..e]) && AllWords(g[e + 1..]) then Words(Values(g[..e]) + Zeros(9 - |g|) + Values(g[e + 1..]))
    else NotValid
  }

  /** Whatever text is accepted, eight words of sixteen bits are read. */
  lemma ReadInRange(fs: seq<string>)
    ensures Read(fs).Words? ==> |Read(fs).w| == 8 && AreWords(Read(fs).w)
  {
  }

  // ---------------------------------------------------------------- what a text means

  /** A field means a word: its hexadecimal value, or zero if it is empty and at an end of the text. */
  predicate MeansWord(f: string, n: int, atEnd: bool) {
    if f == "" then atEnd && n == 0 else n == Parse(f, 16) <= 0xffff
  }

  /** The complete form: eight fields, one for each word. */
  predicate Complete(fs: seq<string>, w: seq<int>) {
    |fs| == |w| == 8 && forall i | 0 <= i < 8 :: MeansWord(fs[i], w[i], i == 0 || i == 7)
  }

  /** Field `e`, not at an end, is empty: the fields before it are the first words, those after it the last
      ones, and the words in between are zero. */
  predicate Gapped(fs: seq<string>, w: seq<int>, e: nat) {
    && |w| == 8 && |fs| <= 8 && 0 < e < |fs| - 1 && fs[e] == ""
    && (forall i | 0 <= i < e :: MeansWord(fs[i], w[i], i == 0))
    && (forall i | e < i < |fs| :: MeansWord(fs[i], w[i + (8 - |fs|)], i == |fs| - 1))
    && (forall k | e <= k <= e + (8 - |fs|) :: w[k] == 0)
  }

  ghost predicate Means(fs: seq<string>, w: seq<int>) {
    Complete(fs, w) || exists e :: Gapped(fs, w, e)
  }

  lemma FilledWord(fs: seq<string>, i: nat, n: int)
    requires |fs| >= 3 && i < |fs|
    ensures Filled(fs)[i] == (if fs[i] == "" && (i == 0 || i == |fs| - 1) then "0" else fs[i])
    ensures MeansWord(fs[i], n, i == 0 || i == |fs| - 1) <==> Filled(fs)[i] != "" && n == Parse(Filled(fs)[i], 16) && IsWord(Filled(fs)[i])
  {
    ZeroField();
  }

  lemma ReadComplete(fs: seq<string>, w: seq<int>)
    requires |fs| == 8 && Empty(Filled(fs), 0) == 8
    ensures Read(fs) == Words(w) <==> Complete(fs, w)
  {
    hide Filled, MeansWord, IsWord;
    var g := Filled(fs);
    forall i | 0 <= i < 8 && |w| == 8
      ensures MeansWord(fs[i], w[i], i == 0 || i == 7) <==> g[i] != "" && w[i] == Parse(g[i], 16) && IsWord(g[i])
    {
      FilledWord(fs, i, w[i]);
    }
  }

  /** The fields of an empty one's two sides are the words of two ranges. */
  lemma ReadGapped(fs: seq<string>, w: seq<int>, e: nat)
    requires 3 <= |fs| <= 8 && e == Empty(Filled(fs), 0) < |fs| && Empty(Filled(fs), e + 1) == |fs|
    ensures 0 < e < |fs| - 1 && fs[e] == ""
    ensures Read(fs) == Words(w) <==> Gapped(fs, w, e)
  {
    hide Filled, MeansWord, IsWord, Parse;
    var g := Filled(fs);
    FilledWord(fs, e, 0);
    FilledWord(fs, 0, 0);
    FilledWord(fs, |fs| - 1, 0);
    ZeroNotEmpty();
    GapEmptyOnly(g, e);
    hide Empty;
    GapWords(g, e, w);
    GapMeans(fs, e, w);
  }

  lemma GapEmptyOnly(g: seq<string>, e: nat)
    requires e < |g| && e == Empty(g, 0) && Empty(g, e + 1) == |g|
    ensures forall i | 0 <= i < |g| :: g[i] == "" <==> i == e
  {
  }

  lemma ZeroNotEmpty()
    ensures "0" != ""
  {
  }

  /** Fields read as words around a gap. */
  predicate AroundGap(g: seq<string>, e: nat, w: seq<int>) {
    && |w| == 8 && |g| <= 8 && e < |g|
    && (forall i | 0 <= i < e :: IsWord(g[i]) && w[i] == Parse(g[i], 16))
    && (forall i | e < i < |g| :: IsWord(g[i]) && w[i + (8 - |g|)] == Parse(g[i], 16))
    && (forall k | e <= k <= e + (8 - |g|) :: w[k] == 0)
  }

  lemma GapWords(g: seq<string>, e: nat, w: seq<int>)
    requires 3 <= |g| <= 8 && 0 < e < |g| - 1 && e == Empty(g, 0) && Empty(g, e + 1) == |g|
    ensures ReadFilled(g) == Words(w) <==> AroundGap(g, e, w)
  {
    hide Empty, Parse, IsWord;
    GapWordsLimits(g, e);
    if AroundGap(g, e, w) {
      GapWordsAre(g, e, w);
    }
    if AllWords(g[..e]) && AllWords(g[e + 1..]) {
      GapWordsFit(g, e);
    }
  }

  lemma GapWordsLimits(g: seq<string>, e: nat)
    requires e < |g|
    ensures AllWords(g[..e]) <==> forall i | 0 <= i < e :: IsWord(g[i])
    ensures AllWords(g[e + 1..]) <==> forall i | e < i < |g| :: IsWord(g[i])
  {
    hide IsWord;
    forall i | 0 <= i < e ensures g[..e][i] == g[i] {}
    forall i | e < i < |g| ensures g[e + 1..][i - e - 1] == g[i] {}
  }

  lemma GapWordsFit(g: seq<string>, e: nat)
    requires 3 <= |g| <= 8 && 0 < e < |g| - 1 && AllWords(g[..e]) && AllWords(g[e + 1..])
    ensures AroundGap(g, e, Values(g[..e]) + Zeros(9 - |g|) + Values(g[e + 1..]))
  {
    hide Parse, IsWord;
    GapWordsLimits(g, e);
  }

  lemma GapWordsAre(g: seq<string>, e: nat, w: seq<int>)
    requires 3 <= |g| <= 8 && 0 < e < |g| - 1 && AroundGap(g, e, w)
    ensures w == Values(g[..e]) + Zeros(9 - |g|) + Values(g[e + 1..])
  {
    hide Parse, IsWord;
    var r := Values(g[..e]) + Zeros(9 - |g|) + Values(g[e + 1..]);
    forall k | 0 <= k < 8 ensures w[k] == r[k] {
      if k > e + (8 - |g|) {
        var i := k - (8 - |g|);
        assert w[i + (8 - |g|)] == Parse(g[i], 16);
      }
    }
  }

  lemma GapMeans(fs: seq<string>, e: nat, w: seq<int>)
    requires 3 <= |fs| <= 8 && 0 < e < |fs| - 1 && fs[e] == ""
    requires forall i | 0 <= i < |fs| :: Filled(fs)[i] == "" <==> i == e
    ensures Gapped(fs, w, e) <==> AroundGap(Filled(fs), e, w)
  {
    hide Filled, MeansWord, IsWord, Parse;
    var g := Filled(fs);
    if |w| == 8 {
      forall i | 0 <= i < e ensures MeansWord(fs[i], w[i], i == 0) <==> w[i] == Parse(g[i], 16) && IsWord(g[i]) {
        FilledWord(fs, i, w[i]);
      }
      forall i | e < i < |fs|
        ensures MeansWord(fs[i], w[i + (8 - |fs|)], i == |fs| - 1) <==> w[i + (8 - |fs|)] == Parse(g[i], 16) && IsWord(g[i])
      {
        FilledWord(fs, i, w[i + (8 - |fs|)]);
      }
    }
  }

  /** A text with a gap has it in one place: at the only empty field that is not at an end. */
  lemma GapIsEmpty(fs: seq<string>, w: seq<int>, e: nat)
    requires Gapped(fs, w, e)
    ensures Empty(Filled(fs), 0) == e && Empty(Filled(fs), e + 1) == |fs|
  {
    hide Filled, Parse, IsWord;
    ZeroNotEmpty();
    forall i | 0 <= i < |fs| ensures Filled(fs)[i] == "" <==> i == e {
      FilledWord(fs, i, 0);
    }
    assert Filled(fs)[e] == "";
  }

  lemma CompleteHasNoGap(fs: seq<string>, w: seq<int>)
    requires Complete(fs, w)
    ensures Empty(Filled(fs), 0) == |fs|
  {
    hide Filled, Parse, IsWord;
    forall i | 0 <= i < |fs| ensures Filled(fs)[i] != "" {
      FilledWord(fs, i, 0);
    }
  }

  /** A text means eight words if its fields do, one by one or around a gap, and nothing otherwise. */
  lemma ReadMeans(fs: seq<string>, w: seq<int>)
    ensures Read(fs) == Words(w) <==> Means(fs, w)
  {
    hide Complete, Gapped, Empty, Filled, Values, Zeros, AllWords;
    if Complete(fs, w) {
      CompleteLength(fs, w);
      CompleteHasNoGap(fs, w);
      ReadComplete(fs, w);
    }
    if e :| Gapped(fs, w, e) {
      GapIsEmpty(fs, w, e);
      GappedLength(fs, w, e);
      ReadGapped(fs, w, e);
    }
    if Read(fs) == Words(w) {
      var e := Empty(Filled(fs), 0);
      if e == |fs| {
        ReadComplete(fs, w);
      } else {
        EmptyEnds(Filled(fs), e);
        ReadGapped(fs, w, e);
      }
    }
  }

  lemma CompleteLength(fs: seq<string>, w: seq<int>)
    requires Complete(fs, w)
    ensures |fs| == 8
  {
  }

  lemma GappedLength(fs: seq<string>, w: seq<int>, e: nat)
    requires Gapped(fs, w, e)
    ensures 3 <= |fs| <= 8 && e < |fs|
  {
  }

  lemma EmptyEnds(g: seq<string>, e: nat)
    requires 3 <= |g| <= 8 && e == Empty(g, 0) < |g| && ReadFilled(g).Words?
    ensures Empty(g, e + 1) == |g|
  {
  }

  // ---------------------------------------------------------------- round trip

  /** Nine fields are printed exactly if the first run of zeros is word 0 alone or word 7 alone. */
  predicate LoneEnd(w: seq<int>)
    requires |w| == 8
  {
    RunFirst(w) != -1 && RunFirst(w) == RunLast(w) && (RunFirst(w) == 0 || RunFirst(w) == 7)
  }

  lemma HexWord(n: int)
    requires -0x8000_0000 <= n < 0x8000_0000
    ensures IsWord(Hex(n)) <==> 0 <= n <= 0xffff
    ensures 0 <= n <= 0xffff ==> Parse(Hex(n), 16) == n
  {
    ParsePrint(n % 0x1_0000_0000, 16, 'a');
  }

  lemma HexAllWords(w: seq<int>)
    requires forall i | 0 <= i < |w| :: -0x8000_0000 <= w[i] < 0x8000_0000
    ensures AllWords(HexAll(w)) <==> AreWords(w)
    ensures AreWords(w) ==> Values(HexAll(w)) == w
  {
    forall i | 0 <= i < |w| ensures IsWord(HexAll(w)[i]) <==> 0 <= w[i] <= 0xffff {
      HexWord(w[i]);
    }
    forall i | 0 <= i < |w| && AreWords(w) ensures Values(HexAll(w))[i] == w[i] {
      HexWord(w[i]);
    }
  }

  lemma ZeroField()
    ensures IsWord("0") && Parse("0", 16) == 0
  {
    assert Parse("", 16) == 0;
    assert "0"[..0] == "";
  }

  lemma NoRunReads(w: seq<int>)
    requires IsAddress(w) && IsRun(w, -1, -1)
    ensures Read(FieldsOf(w, -1, -1)) == if AreWords(w) then Words(w) else NotValid
  {
    HexAllWords(w);
  }

  /** The fields before and after the gap, with empty ends filled. */
  function FilledBefore(w: seq<int>, first: int): seq<string>
    requires |w| == 8 && 0 <= first < 8
  {
    if first == 0 then ["0"] else HexAll(w[..first])
  }

  function FilledAfter(w: seq<int>, last: int): seq<string>
    requires |w| == 8 && 0 <= last < 8
  {
    if last == 7 then ["0"] else HexAll(w[last + 1..])
  }

  lemma FilledFields(w: seq<int>, first: int, last: int)
    requires |w| == 8 && IsRun(w, first, last) && first != -1
    ensures Filled(FieldsOf(w, first, last)) == FilledBefore(w, first) + [""] + FilledAfter(w, last)
  {
  }

  lemma OneGap(a: seq<string>, b: seq<string>)
    requires (forall i | 0 <= i < |a| :: a[i] != "") && forall i | 0 <= i < |b| :: b[i] != ""
    ensures Empty(a + [""] + b, 0) == |a|
    ensures Empty(a + [""] + b, |a| + 1) == |a + [""] + b|
  {
    var g := a + [""] + b;
    assert g[|a|] == "";
  }

  lemma BeforeReads(w: seq<int>, first: int, last: int)
    requires IsAddress(w) && IsRun(w, first, last) && first != -1
    ensures AllWords(FilledBefore(w, first)) <==> AreWords(w[..first])
    ensures AreWords(w[..first]) ==> Values(FilledBefore(w, first)) == w[..if first == 0 then 1 else first]
  {
    ZeroField();
    HexAllWords(w[..first]);
  }

  lemma AfterReads(w: seq<int>, first: int, last: int)
    requires IsAddress(w) && IsRun(w, first, last) && first != -1
    ensures AllWords(FilledAfter(w, last)) <==> AreWords(w[last + 1..])
    ensures AreWords(w[last + 1..]) ==> Values(FilledAfter(w, last)) == w[if last == 7 then 7 else last + 1..]
  {
    ZeroField();
    HexAllWords(w[last + 1..]);
  }

  lemma RunReads(w: seq<int>, first: int, last: int)
    requires IsAddress(w) && IsRun(w, first, last) && first != -1
    ensures Read(FieldsOf(w, first, last))
         == if AreWords(w) && !(first == last && (first == 0 || first == 7)) then Words(w) else NotValid
  {
    hide AreWords, AllWords, Filled, Empty, Values, HexAll, ReadFilled;
    FilledFields(w, first, last);
    if |FieldsOf(w, first, last)| <= 8 {
      GapReads(w, first, last);
    }
  }

  lemma GapReads(w: seq<int>, first: int, last: int)
    requires IsAddress(w) && IsRun(w, first, last) && first != -1 && |FieldsOf(w, first, last)| <= 8
    ensures var g := FilledBefore(w, first) + [""] + FilledAfter(w, last);
            3 <= |g| <= 8 && ReadFilled(g) == if AreWords(w) then Words(w) else NotValid
  {
    hide AreWords, AllWords, Empty, Values, HexAll, Zeros, ReadFilled, IsRun;
    var a, b := FilledBefore(w, first), FilledAfter(w, last);
    FilledNonEmpty(w, first, last);
    ReadGap(a, b);
    BeforeReads(w, first, last);
    AfterReads(w, first, last);
    RangeParts(w, first, last);
    WordsAgain(w, first, last);
  }

  lemma FilledNonEmpty(w: seq<int>, first: int, last: int)
    requires |w| == 8 && IsRun(w, first, last) && first != -1
    ensures var a, b := FilledBefore(w, first), FilledAfter(w, last);
            && (forall i | 0 <= i < |a| :: a[i] != "") && (forall i | 0 <= i < |b| :: b[i] != "")
            && |a| + 1 + |b| == |FieldsOf(w, first, last)|
  {
  }

  lemma ReadGap(a: seq<string>, b: seq<string>)
    requires (forall i | 0 <= i < |a| :: a[i] != "") && (forall i | 0 <= i < |b| :: b[i] != "")
    requires 3 <= |a| + 1 + |b| <= 8
    ensures ReadFilled(a + [""] + b)
         == if AllWords(a) && AllWords(b) then Words(Values(a) + Zeros(8 - |a| - |b|) + Values(b)) else NotValid
  {
    hide AllWords, Empty, Values, Zeros;
    OneGap(a, b);
    var g := a + [""] + b;
    assert g[..|a|] == a && g[|a| + 1..] == b;
  }

  lemma RangeParts(w: seq<int>, first: int, last: int)
    requires |w| == 8 && IsRun(w, first, last) && first != -1
    ensures AreWords(w) <==> AreWords(w[..first]) && AreWords(w[last + 1..])
  {
    if AreWords(w[..first]) && AreWords(w[last + 1..]) {
      forall i | 0 <= i < 8 ensures 0 <= w[i] <= 0xffff {
        if i < first {
          assert w[i] == w[..first][i];
        } else if i > last {
          assert w[i] == w[last + 1..][i - last - 1];
        }
      }
    }
  }

  /** The words around the gap and zeros in it make the address again. */
  lemma WordsAgain(w: seq<int>, first: int, last: int)
    requires |w| == 8 && IsRun(w, first, last) && first != -1
    requires !(first == last && (first == 0 || first == 7))
    ensures |FieldsOf(w, first, last)| <= 8
    ensures w == w[..if first == 0 then 1 else first] + Zeros(9 - |FieldsOf(w, first, last)|) + w[if last == 7 then 7 else last + 1..]
  {
    hide Hex, HexAll;
    var a, b := if first == 0 then 1 else first, if last == 7 then 7 else last + 1;
    assert |FieldsOf(w, first, last)| == a + 1 + (8 - b);
    Refilled(w, a, b);
  }

  lemma Refilled(w: seq<int>, a: nat, b: nat)
    requires |w| == 8 && a <= b <= 8 && forall k | a <= k < b :: w[k] == 0
    ensures w == w[..a] + Zeros(b - a) + w[b..]
  {
    assert w == w[..a] + w[a..b] + w[b..];
    assert w[a..b] == Zeros(b - a);
  }

  lemma FieldsPlain(w: seq<int>, first: int, last: int)
    requires |w| == 8 && IsRun(w, first, last)
    ensures Plain(FieldsOf(w, first, last), ':')
  {
    hide Print;
    forall n: int ensures ':' !in Hex(n) {
      PrintChars(n % 0x1_0000_0000, 16, 'a');
    }
    hide Hex;
  }

  /** A field as it is printed for a word: a hexadecimal numeral in lower case without a digit too many, of
      the word as an unsigned number. */
  predicate Shows(f: string, n: int) {
    Numeral(f, 16) && Parse(f, 16) == n % 0x1_0000_0000
  }

  lemma HexShows(n: int)
    ensures Shows(Hex(n), n)
  {
    PrintNumeral(n % 0x1_0000_0000, 16);
  }

  /** What is printed: a numeral for each word outside of the first run of zeros, and one empty field for the
      run, with another one where an end of the text would be missing. */
  lemma TextIs(w: seq<int>)
    requires IsAddress(w)
    ensures IsRun(w, RunFirst(w), RunLast(w))
    ensures var fs, first, last := Split(Text(w), ':'), RunFirst(w), RunLast(w);
            if first == -1 then |fs| == 8 && forall i | 0 <= i < 8 :: Shows(fs[i], w[i])
            else
              var e := if first == 0 then 1 else first;
              && |fs| == e + 1 + (if last == 7 then 1 else 7 - last) && fs[e] == ""
              && (first == 0 ==> fs[0] == "") && (last == 7 ==> fs[e + 1] == "")
              && (forall i | 0 <= i < first :: Shows(fs[i], w[i]))
              && (forall i | last < i < 8 :: Shows(fs[e + (i - last)], w[i]))
  {
    hide Split, Join, FieldsOf, Hex, Shows;
    var first, last := RunFirst(w), RunLast(w);
    FieldsPlain(w, first, last);
    SplitJoin(FieldsOf(w, first, last), ':');
    if first == -1 {
      PlainFields(w);
    } else {
      RunFields(w, first, last);
    }
  }

  lemma HexAllShows(w: seq<int>)
    ensures forall i | 0 <= i < |w| :: Shows(HexAll(w)[i], w[i])
  {
    hide Hex, Shows, HexAll;
    forall i | 0 <= i < |w| ensures Shows(HexAll(w)[i], w[i]) {
      HexShows(w[i]);
    }
  }

  lemma PlainFields(w: seq<int>)
    requires |w| == 8 && IsRun(w, -1, -1)
    ensures |FieldsOf(w, -1, -1)| == 8 && forall i | 0 <= i < 8 :: Shows(FieldsOf(w, -1, -1)[i], w[i])
  {
    hide Hex, Shows, HexAll;
    HexAllShows(w);
  }

  lemma RunFields(w: seq<int>, first: int, last: int)
    requires |w| == 8 && IsRun(w, first, last) && first != -1
    ensures var fs, e := FieldsOf(w, first, last), if first == 0 then 1 else first;
            && |fs| == e + 1 + (if last == 7 then 1 else 7 - last) && fs[e] == ""
            && (first == 0 ==> fs[0] == "") && (last == 7 ==> fs[e + 1] == "")
            && (forall i | 0 <= i < first :: Shows(fs[i], w[i]))
            && (forall i | last < i < 8 :: Shows(fs[e + (i - last)], w[i]))
  {
    hide Hex, Shows, HexAll, Before, After;
    BeforeShows(w, first);
    AfterShows(w, last);
    var fs, e := FieldsOf(w, first, last), if first == 0 then 1 else first;
    assert fs == Before(w, first) + [""] + After(w, last);
    forall i | last < i < 8 ensures Shows(fs[e + (i - last)], w[i]) {
      assert fs[e + (i - last)] == After(w, last)[i - last - 1];
    }
  }

  lemma BeforeShows(w: seq<int>, first: int)
    requires |w| == 8 && 0 <= first < 8
    ensures first == 0 ==> Before(w, first)[0] == ""
    ensures forall i | 0 <= i < first :: Shows(Before(w, first)[i], w[i])
  {
    hide Hex, Shows, HexAll;
    HexAllShows(w[..first]);
  }

  lemma AfterShows(w: seq<int>, last: int)
    requires |w| == 8 && 0 <= last < 8
    ensures last == 7 ==> After(w, last)[0] == ""
    ensures forall i | last < i < 8 :: Shows(After(w, last)[i - last - 1], w[i])
  {
    hide Hex, Shows, HexAll;
    HexAllShows(w[last + 1..]);
    forall i | last < i < 8 ensures Shows(After(w, last)[i - last - 1], w[i]) {
      assert w[last + 1..][i - last - 1] == w[i];
    }
  }

  /** Reading back what is printed restores the address exactly if all words have sixteen bits and the
      first run of zeros is not word 0 alone or word 7 alone; otherwise it is rejected. */
  lemma RoundTrip(w: seq<int>)
    requires IsAddress(w)
    ensures IsRun(w, RunFirst(w), RunLast(w))
    ensures Read(Split(Text(w), ':')) == if AreWords(w) && !LoneEnd(w) then Words(w) else NotValid
  {
    hide Read, Split, Join, FieldsOf, AreWords;
    var first, last := RunFirst(w), RunLast(w);
    FieldsPlain(w, first, last);
    SplitJoin(FieldsOf(w, first, last), ':');
    if first == -1 {
      NoRunReads(w);
    } else {
      RunReads(w, first, last);
    }
  }
}
