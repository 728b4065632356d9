/**
  Text in fields between separators.
 */
module Fields {

  /** The fields of a text: one more than it has separators. */
  function Split(s: string, sep: char): (fs: seq<string>)
    ensures |fs| >= 1
  {
    if s == "" then [""]
    else if s[0] == sep then [""] + Split(s[1..], sep)
    else Extend(s[0], Split(s[1..], sep))
  }

  /** One more character in front of the first field. */
  function Extend(c: char, fs: seq<string>): (r: seq<string>)
    requires |fs| >= 1
    ensures |r| == |fs|
  {
    [[c] + fs[0]] + fs[1..]
  }

  function Join(fs: seq<string>, sep: char): string
    requires |fs| >= 1
  {
    if |fs| == 1 then fs[0] else fs[0] + [sep] + Join(fs[1..], sep)
  }

  predicate Plain(fs: seq<string>, sep: char) {
    forall i | 0 <= i < |fs| :: sep !in fs[i]
  }

  /** Joining the fields of a text gives the text back. */
  lemma {:induction false} JoinSplit(s: string, sep: char)
    ensures Join(Split(s, sep), sep) == s && Plain(Split(s, sep), sep)
  {
    if s != "" {
      JoinSplit(s[1..], sep);
      var rest := Split(s[1..], sep);
      if s[0] == sep {
        assert Split(s, sep)[1..] == rest;
        assert s == [sep] + s[1..];
      } else {
        assert Split(s, sep)[1..] == rest[1..];
        assert s == [s[0]] + s[1..];
        if |rest| > 1 {
          assert [s[0]] + (rest[0] + [sep] + Join(rest[1..], sep)) == [s[0]] + rest[0] + [sep] + Join(rest[1..], sep);
        }
      }
    }
  }

  lemma {:induction false} SplitPlain(s: string, sep: char)
    requires sep !in s
    ensures Split(s, sep) == [s]
  {
    if s != "" {
      SplitPlain(s[1..], sep);
      assert s == [s[0]] + s[1..];
    }
  }

  /** A separator in the text separates its fields. */
  lemma {:induction false} SplitAt(a: string, b: string, sep: char)
    ensures Split(a + [sep] + b, sep) == Split(a, sep) + Split(b, sep)
  {
    if a == "" {
      assert a + [sep] + b == [sep] + b;
      assert ([sep] + b)[1..] == b;
    } else {
      SplitAt(a[1..], b, sep);
      SplitMore(a, b, sep);
    }
  }

  lemma SplitMore(a: string, b: string, sep: char)
    requires a != "" && Split(a[1..] + [sep] + b, sep) == Split(a[1..], sep) + Split(b, sep)
    ensures Split(a + [sep] + b, sep) == Split(a, sep) + Split(b, sep)
  {
    hide Split, Extend;
    var t, x, y := a + [sep] + b, Split(a[1..], sep), Split(b, sep);
    SplitHead(t, sep);
    SplitHead(a, sep);
    assert t[0] == a[0] && t[1..] == a[1..] + [sep] + b;
    ExtendLeft(a[0], x, y);
    assert [""] + (x + y) == [""] + x + y;
  }

  lemma SplitHead(s: string, sep: char)
    requires s != ""
    ensures Split(s, sep) == if s[0] == sep then [""] + Split(s[1..], sep) else Extend(s[0], Split(s[1..], sep))
  {
  }

  lemma ExtendLeft(c: char, x: seq<string>, y: seq<string>)
    requires |x| >= 1
    ensures Extend(c, x + y) == Extend(c, x) + y
  {
    assert (x + y)[1..] == x[1..] + y;
  }

  /** Splitting a join of fields gives the fields back. */
  lemma {:induction false} SplitJoin(fs: seq<string>, sep: char)
    requires |fs| >= 1 && Plain(fs, sep)
    ensures Split(Join(fs, sep), sep) == fs
  {
    SplitPlain(fs[0], sep);
    if |fs| > 1 {
      SplitJoin(fs[1..], sep);
      SplitAt(fs[0], Join(fs[1..], sep), sep);
    }
  }

  // ---------------------------------------------------------------- split of IPParam: by positions

  predicate Positions(s: string, sep: char, ps: seq<nat>, upto: nat) {
    && (forall k | 0 <= k < |ps| :: ps[k] < upto <= |s| && s[ps[k]] == sep)
    && (forall j, k | 0 <= j < k < |ps| :: ps[j] < ps[k])
    && (forall i | 0 <= i < upto <= |s| && s[i] == sep :: i in ps)
  }

  /** The text between the positions around field `i`. */
  function Between(s: string, ps: seq<nat>, i: nat): string
    requires i <= |ps| && (forall k | 0 <= k < |ps| :: ps[k] < |s|) && forall j, k | 0 <= j < k < |ps| :: ps[j] < ps[k]
  {
    s[if i == 0 then 0 else ps[i - 1] + 1..if i == |ps| then |s| else ps[i]]
  }

  /** Cutting at all positions of the separator is splitting. */
  lemma {:induction false} BetweenSplits(s: string, sep: char, ps: seq<nat>)
    requires Positions(s, sep, ps, |s|)
    ensures |Split(s, sep)| == |ps| + 1
    ensures forall i | 0 <= i <= |ps| :: Between(s, ps, i) == Split(s, sep)[i]
    decreases |ps|
  {
    if ps == [] {
      SplitPlain(s, sep);
    } else {
      var last := ps[|ps| - 1];
      var init, a, b := ps[..|ps| - 1], s[..last], s[last + 1..];
      assert s == a + [sep] + b;
      SplitAt(a, b, sep);
      NoneAfter(s, sep, ps);
      SplitPlain(b, sep);
      InitPositions(s, sep, ps);
      BetweenSplits(a, sep, init);
      BetweenInit(s, ps);
    }
  }

  lemma BetweenInit(s: string, ps: seq<nat>)
    requires ps != [] && (forall k | 0 <= k < |ps| :: ps[k] < |s|) && forall j, k | 0 <= j < k < |ps| :: ps[j] < ps[k]
    ensures forall i | 0 <= i < |ps| :: Between(s, ps, i) == Between(s[..ps[|ps| - 1]], ps[..|ps| - 1], i)
    ensures Between(s, ps, |ps|) == s[ps[|ps| - 1] + 1..]
  {
    var last, init := ps[|ps| - 1], ps[..|ps| - 1];
    forall i | 0 <= i < |ps| ensures Between(s, ps, i) == Between(s[..last], init, i) {
      Shorter(s, if i == 0 then 0 else ps[i - 1] + 1, ps[i], last);
    }
  }

  lemma Shorter(s: string, lo: nat, hi: nat, end: nat)
    requires lo <= hi <= end <= |s|
    ensures s[lo..hi] == s[..end][lo..hi]
  {
  }

  lemma NoneAfter(s: string, sep: char, ps: seq<nat>)
    requires Positions(s, sep, ps, |s|) && ps != []
    ensures sep !in s[ps[|ps| - 1] + 1..]
  {
    var last := ps[|ps| - 1];
    assert forall k | 0 <= k < |ps| :: ps[k] <= last;
    forall i | last < i < |s| ensures s[i] != sep {
      assert i !in ps;
    }
  }

  lemma InitPositions(s: string, sep: char, ps: seq<nat>)
    requires Positions(s, sep, ps, |s|) && ps != []
    ensures Positions(s[..ps[|ps| - 1]], sep, ps[..|ps| - 1], ps[|ps| - 1])
  {
    var a, init := s[..ps[|ps| - 1]], ps[..|ps| - 1];
    forall i | 0 <= i < |a| && a[i] == sep ensures i in init {
      var k :| 0 <= k < |ps| && ps[k] == i;
      assert init[k] == i;
    }
  }

  /** Notes where the separators are. */
  method FindPositions(str: string, splitter: char) returns (poses: seq<nat>)
    ensures Positions(str, splitter, poses, |str|)
  {
    poses := [];
    var i := 0;
    while i < |str|
      invariant i <= |str| && Positions(str, splitter, poses, i)
    {
      if str[i] == splitter {
        poses := poses + [i];
      }
      i := i + 1;
    }
  }

  /** split: finds the separators and cuts there. */
  method SplitByPositions(str: string, splitter: char) returns (parts: seq<string>)
    requires splitter in str
    ensures parts == Split(str, splitter)
  {
    var poses := FindPositions(str, splitter);
    BetweenSplits(str, splitter, poses);
    assert poses != [];
    parts := [str[..poses[0]]];
    var i := 1;
    while i < |poses|
      invariant 1 <= i <= |poses| && |parts| == i
      invariant forall k | 0 <= k < i :: parts[k] == Between(str, poses, k)
    {
      parts := parts + [if poses[i - 1] + 1 >= |str| then "" else str[poses[i - 1] + 1..poses[i]]];
      i := i + 1;
    }
    var last := poses[|poses| - 1];
    parts := parts + [if last + 1 >= |str| then "" else str[last + 1..]];
    assert parts[|poses|] == Between(str, poses, |poses|);
    assert forall k | 0 <= k <= |poses| :: parts[k] == Between(str, poses, k);
  }

  /** split of ConvertSID: takes the text before the first separator off, again and again. */
  method SplitByErasing(text: string, splitter: char) returns (dst: seq<string>)
    ensures dst == Split(text, splitter)
  {
    dst := [];
    var src := text;
    while splitter in src
      invariant dst + Split(src, splitter) == Split(text, splitter)
      decreases |src|
    {
      var pos := Find(src, splitter);
      SplitAt(src[..pos], src[pos + 1..], splitter);
      assert src == src[..pos] + [splitter] + src[pos + 1..];
      SplitPlain(src[..pos], splitter);
      dst := dst + [src[..pos]];
      src := src[pos + 1..];
    }
    SplitPlain(src, splitter);
    dst := dst + [src];
  }

  method Find(s: string, c: char) returns (pos: nat)
    requires c in s
    ensures pos < |s| && s[pos] == c && c !in s[..pos]
  {
    pos := 0;
    while s[pos] != c
      invariant pos < |s| && c !in s[..pos] && c in s[pos..]
      decreases |s| - pos
    {
      pos := pos + 1;
    }
  }
}
