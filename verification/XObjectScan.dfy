/**
  Scanning an object and what is connected to it: a walk in prefix order that the scanner's answers cut.
 */
module XObjectScan {

  datatype Answer = BACKWARD | FORWARD | CONTINUE | END

  datatype Event = Scanned(o: nat, a: Answer) | Returned(o: nat)

  datatype Connection = Connection(oside: nat, role: string)

  /** The scanner's decisions: on an object after some history, on whether an object can be entered
      (its status allows it), and on which connections to follow. */
  datatype Decisions = Decisions(answer: (seq<Event>, nat) -> Answer,
                                 enters: (seq<Event>, nat) -> bool,
                                 matches: Connection -> bool)

  type Graph = seq<seq<Connection>>

  /** Along matching connections the rank falls. */
  ghost predicate Acyclic(g: Graph, d: Decisions, rank: seq<nat>) {
    && |rank| == |g|
    && forall o, i | 0 <= o < |g| && 0 <= i < |g[o]| && d.matches(g[o][i]) ::
         g[o][i].oside < |g| && rank[g[o][i].oside] < rank[o]
  }

  /** Some matching connection leads from `o` to `p`. */
  ghost predicate Edge(g: Graph, d: Decisions, o: nat, p: nat) {
    o < |g| && exists i :: 0 <= i < |g[o]| && d.matches(g[o][i]) && g[o][i].oside == p
  }

  ghost predicate IsPath(g: Graph, d: Decisions, path: seq<nat>) {
    |path| >= 2 && forall k | 0 <= k < |path| - 1 :: Edge(g, d, path[k], path[k + 1])
  }

  ghost predicate Reaches(g: Graph, d: Decisions, o: nat, p: nat) {
    exists path :: IsPath(g, d, path) && path[0] == o && path[|path| - 1] == p
  }

  /** Matching connections lead to objects, and never around in a circle. */
  ghost predicate NoCycle(g: Graph, d: Decisions) {
    && (forall o, i | 0 <= o < |g| && 0 <= i < |g[o]| && d.matches(g[o][i]) :: g[o][i].oside < |g|)
    && forall o | 0 <= o < |g| :: !Reaches(g, d, o, o)
  }

  ghost function Reached(g: Graph, d: Decisions, o: nat): set<nat> {
    set p: nat | p < |g| && Reaches(g, d, o, p)
  }

  lemma ReachedShrinks(g: Graph, d: Decisions, o: nat, c: nat)
    requires NoCycle(g, d) && o < |g| && c < |g| && Edge(g, d, o, c)
    ensures |Reached(g, d, c)| < |Reached(g, d, o)|
  {
    forall p | p in Reached(g, d, c) ensures p in Reached(g, d, o) {
      var path :| IsPath(g, d, path) && path[0] == c && path[|path| - 1] == p;
      assert IsPath(g, d, [o] + path);
    }
    assert IsPath(g, d, [o, c]);
    assert c in Reached(g, d, o) && c !in Reached(g, d, c);
    Smaller(Reached(g, d, c), Reached(g, d, o), c);
  }

  lemma Smaller(a: set<nat>, b: set<nat>, x: nat)
    requires a <= b && x in b && x !in a
    ensures |a| < |b|
  {
    assert b == a + (b - a) && x in b - a;
  }

  /** A finite graph without circles can be ranked. */
  lemma RankOf(g: Graph, d: Decisions) returns (rank: seq<nat>)
    requires NoCycle(g, d)
    ensures Acyclic(g, d, rank)
  {
    rank := seq(|g|, o requires 0 <= o < |g| => |Reached(g, d, o)|);
    forall o, i | 0 <= o < |g| && 0 <= i < |g[o]| && d.matches(g[o][i])
      ensures g[o][i].oside < |g| && rank[g[o][i].oside] < rank[o]
    {
      assert Edge(g, d, o, g[o][i].oside);
      ReachedShrinks(g, d, o, g[o][i].oside);
    }
  }

  /** And only such a graph can. */
  lemma RankedHasNoCycle(g: Graph, d: Decisions, rank: seq<nat>)
    requires Acyclic(g, d, rank)
    ensures NoCycle(g, d)
  {
    forall o | 0 <= o < |g| ensures !Reaches(g, d, o, o) {
      if Reaches(g, d, o, o) {
        var path :| IsPath(g, d, path) && path[0] == o && path[|path| - 1] == o;
        PathFalls(g, d, rank, path);
      }
    }
  }

  lemma {:induction false} PathFalls(g: Graph, d: Decisions, rank: seq<nat>, path: seq<nat>)
    requires Acyclic(g, d, rank) && IsPath(g, d, path)
    ensures path[0] < |g| && path[|path| - 1] < |g| && rank[path[|path| - 1]] < rank[path[0]]
  {
    assert Edge(g, d, path[0], path[1]);
    if |path| > 2 {
      forall k | 0 <= k < |path[1..]| - 1 ensures Edge(g, d, path[1..][k], path[1..][k + 1]) {
        var i := k + 1;
        assert Edge(g, d, path[i], path[i + 1]);
      }
      PathFalls(g, d, rank, path[1..]);
    }
  }

  // ---------------------------------------------------------------- reference

  /** What was scanned, in which order and depth. */
  datatype Visit = Visit(o: nat, answer: Answer, subs: seq<Visit>)

  datatype Outcome = Outcome(h: seq<Event>, act: Answer, visits: seq<Visit>)

  ghost function Walk(g: Graph, d: Decisions, rank: seq<nat>, o: nat, h: seq<Event>, async: bool): (r: Outcome)
    requires Acyclic(g, d, rank) && o < |g|
    ensures !r.act.FORWARD?
    decreases rank[o], 1, 0
  {
    if !async && !d.enters(h, o) then Outcome(h, CONTINUE, [])
    else
      var a := d.answer(h, o);
      if a.FORWARD? then
        var r := WalkConnections(g, d, rank, o, 0, h + [Scanned(o, a)]);
        Outcome(r.h + [Returned(o)], if r.act.END? then END else CONTINUE, [Visit(o, a, r.visits)])
      else Outcome(h + [Scanned(o, a), Returned(o)], a, [Visit(o, a, [])])
  }

  ghost function WalkConnections(g: Graph, d: Decisions, rank: seq<nat>, o: nat, i: nat, h: seq<Event>): (r: Outcome)
    requires Acyclic(g, d, rank) && o < |g|
    ensures !r.act.FORWARD?
    decreases rank[o], 0, |g[o]| - i
  {
    if i >= |g[o]| then Outcome(h, CONTINUE, [])
    else if !d.matches(g[o][i]) then WalkConnections(g, d, rank, o, i + 1, h)
    else
      var r := Walk(g, d, rank, g[o][i].oside, h, false);
      if r.act.CONTINUE? then
        var rest := WalkConnections(g, d, rank, o, i + 1, r.h);
        Outcome(rest.h, rest.act, r.visits + rest.visits)
      else r
  }

  // ---------------------------------------------------------------- events of a visit

  /** The scan and scan_return calls of visits. */
  function Flat(vs: seq<Visit>): seq<Event>
    decreases vs
  {
    if vs == [] then []
    else [Scanned(vs[0].o, vs[0].answer)] + Flat(vs[0].subs) + [Returned(vs[0].o)] + Flat(vs[1..])
  }

  /** Some scan was answered with SA_END. */
  predicate HasEnd(vs: seq<Visit>)
    decreases vs
  {
    vs != [] && (vs[0].answer.END? || HasEnd(vs[0].subs) || HasEnd(vs[1..]))
  }

  /** A scan opens a level, its scan_return closes it. */
  function Levels(e: seq<Event>, open: seq<nat>): (r: (bool, seq<nat>))
  {
    if e == [] then (true, open)
    else if e[0].Scanned? then Levels(e[1..], open + [e[0].o])
    else if open != [] && open[|open| - 1] == e[0].o then Levels(e[1..], open[..|open| - 1])
    else (false, open)
  }

  lemma {:induction false} LevelsConcat(a: seq<Event>, b: seq<Event>, open: seq<nat>)
    ensures Levels(a, open).0 ==> Levels(a + b, open) == Levels(b, Levels(a, open).1)
  {
    if a == [] {
      assert a + b == b;
    } else {
      assert (a + b)[0] == a[0] && (a + b)[1..] == a[1..] + b;
      if a[0].Scanned? {
        LevelsConcat(a[1..], b, open + [a[0].o]);
      } else if open != [] && open[|open| - 1] == a[0].o {
        LevelsConcat(a[1..], b, open[..|open| - 1]);
      }
    }
  }

  /** Scans and scan_returns are well nested: every scan has exactly one scan_return. */
  lemma {:induction false} WellNested(vs: seq<Visit>, open: seq<nat>)
    ensures Levels(Flat(vs), open) == (true, open)
    decreases vs
  {
    if vs != [] {
      var o, a := vs[0].o, vs[0].answer;
      WellNested(vs[0].subs, open + [o]);
      WellNested(vs[1..], open);
      LevelsScan(o, a, Flat(vs[0].subs), open);
      LevelsConcat([Scanned(o, a)] + Flat(vs[0].subs) + [Returned(o)], Flat(vs[1..]), open);
    }
  }

  lemma LevelsScan(o: nat, a: Answer, inner: seq<Event>, open: seq<nat>)
    requires Levels(inner, open + [o]) == (true, open + [o])
    ensures Levels([Scanned(o, a)] + inner + [Returned(o)], open) == (true, open)
  {
    LevelsConcat(inner, [Returned(o)], open + [o]);
    assert ([Scanned(o, a)] + inner + [Returned(o)])[1..] == inner + [Returned(o)];
    assert [Returned(o)][1..] == [];
    assert (open + [o])[..|open|] == open;
  }

  lemma FlatHead(vs: seq<Visit>)
    requires vs != []
    ensures Flat(vs) == [Scanned(vs[0].o, vs[0].answer)] + Flat(vs[0].subs) + [Returned(vs[0].o)] + Flat(vs[1..])
  {
  }

  lemma {:induction false} FlatConcat(a: seq<Visit>, b: seq<Visit>)
    ensures Flat(a + b) == Flat(a) + Flat(b)
  {
    hide Flat;
    if a == [] {
      assert a + b == b;
      FlatNothing();
    } else {
      FlatConcat(a[1..], b);
      assert (a + b)[0] == a[0] && (a + b)[1..] == a[1..] + b;
      FlatHead(a);
      FlatHead(a + b);
      Regroup([Scanned(a[0].o, a[0].answer)] + Flat(a[0].subs) + [Returned(a[0].o)], Flat(a[1..]), Flat(b));
    }
  }

  lemma FlatNothing()
    ensures Flat([]) == []
  {
  }

  lemma Regroup(x: seq<Event>, y: seq<Event>, z: seq<Event>)
    ensures x + (y + z) == x + y + z
  {
  }

  lemma {:induction false} EndConcat(a: seq<Visit>, b: seq<Visit>)
    ensures HasEnd(a + b) <==> HasEnd(a) || HasEnd(b)
  {
    if a == [] {
      assert a + b == b;
    } else {
      EndConcat(a[1..], b);
      assert (a + b)[0] == a[0] && (a + b)[1..] == a[1..] + b;
    }
  }

  lemma FlatOne(v: Visit)
    ensures Flat([v]) == [Scanned(v.o, v.answer)] + Flat(v.subs) + [Returned(v.o)]
    ensures HasEnd([v]) <==> v.answer.END? || HasEnd(v.subs)
  {
    assert [v][1..] == [];
  }

  // ---------------------------------------------------------------- the walk's visits

  /** The walk's history grows by the events of its visits, and it answers SA_END exactly if a scan did. */
  lemma {:induction false} WalkVisits(g: Graph, d: Decisions, rank: seq<nat>, o: nat, h: seq<Event>, async: bool)
    requires Acyclic(g, d, rank) && o < |g|
    ensures var r := Walk(g, d, rank, o, h, async);
            && r.h == h + Flat(r.visits) && (r.act.END? <==> HasEnd(r.visits))
            && |r.visits| == (if async || d.enters(h, o) then 1 else 0)
            && (r.act.BACKWARD? <==> r.visits != [] && r.visits[0].answer.BACKWARD?)
    decreases rank[o], 1, 0
  {
    if async || d.enters(h, o) {
      var a := d.answer(h, o);
      if a.FORWARD? {
        var h1 := h + [Scanned(o, a)];
        ConnectionVisits(g, d, rank, o, 0, h1);
        var r := WalkConnections(g, d, rank, o, 0, h1);
        FlatOne(Visit(o, a, r.visits));
        assert h1 + Flat(r.visits) + [Returned(o)] == h + ([Scanned(o, a)] + Flat(r.visits) + [Returned(o)]);
      } else {
        FlatOne(Visit(o, a, []));
      }
    }
  }

  lemma {:induction false} ConnectionVisits(g: Graph, d: Decisions, rank: seq<nat>, o: nat, i: nat, h: seq<Event>)
    requires Acyclic(g, d, rank) && o < |g|
    ensures var r := WalkConnections(g, d, rank, o, i, h);
            r.h == h + Flat(r.visits) && (r.act.END? <==> HasEnd(r.visits))
    decreases rank[o], 0, |g[o]| - i
  {
    if i < |g[o]| {
      if !d.matches(g[o][i]) {
        ConnectionVisits(g, d, rank, o, i + 1, h);
      } else {
        var r := Walk(g, d, rank, g[o][i].oside, h, false);
        WalkVisits(g, d, rank, g[o][i].oside, h, false);
        if r.act.CONTINUE? {
          ConnectionVisits(g, d, rank, o, i + 1, r.h);
          FlatConcat(r.visits, WalkConnections(g, d, rank, o, i + 1, r.h).visits);
          EndConcat(r.visits, WalkConnections(g, d, rank, o, i + 1, r.h).visits);
        }
      }
    }
  }

  /** The visits of a list of connections, from a point of the history on: connections are followed in
      order, those that do not match or cannot be entered are passed over, and a visit that was
      answered SA_BACKWARD, or in which one was answered SA_END, is the last. */
  ghost predicate Follows(g: Graph, d: Decisions, cs: seq<Connection>, vs: seq<Visit>, h: seq<Event>)
    decreases vs, |cs|
  {
    if cs == [] then vs == []
    else if !d.matches(cs[0]) || !d.enters(h, cs[0].oside) then Follows(g, d, cs[1..], vs, h)
    else
      && vs != [] && vs[0].o == cs[0].oside < |g|
      && Consistent(g, d, vs[0], h)
      && if vs[0].answer.BACKWARD? || vs[0].answer.END? || HasEnd(vs[0].subs) then |vs| == 1
         else Follows(g, d, cs[1..], vs[1..], h + Flat([vs[0]]))
  }

  /** The scanner's answer decides whether the object's connections are followed. */
  ghost predicate Consistent(g: Graph, d: Decisions, v: Visit, h: seq<Event>)
    decreases v, 0
  {
    && v.o < |g| && v.answer == d.answer(h, v.o)
    && if v.answer.FORWARD? then Follows(g, d, g[v.o], v.subs, h + [Scanned(v.o, v.answer)]) else v.subs == []
  }

  /** The walk is a prefix walk with exactly the cuts that the scanner's answers ask for. */
  lemma {:induction false} WalkConsistent(g: Graph, d: Decisions, rank: seq<nat>, o: nat, h: seq<Event>, async: bool)
    requires Acyclic(g, d, rank) && o < |g|
    ensures var r := Walk(g, d, rank, o, h, async);
            forall i | 0 <= i < |r.visits| :: r.visits[i].o == o && Consistent(g, d, r.visits[i], h)
    decreases rank[o], 1, 0
  {
    if async || d.enters(h, o) {
      if d.answer(h, o).FORWARD? {
        ConnectionsFollowed(g, d, rank, o, 0, h + [Scanned(o, d.answer(h, o))]);
        assert g[o][0..] == g[o];
      }
    }
  }

  lemma {:induction false} ConnectionsFollowed(g: Graph, d: Decisions, rank: seq<nat>, o: nat, i: nat, h: seq<Event>)
    requires Acyclic(g, d, rank) && o < |g| && i <= |g[o]|
    ensures Follows(g, d, g[o][i..], WalkConnections(g, d, rank, o, i, h).visits, h)
    decreases rank[o], 0, |g[o]| - i
  {
    if i < |g[o]| {
      assert g[o][i..][1..] == g[o][i + 1..];
      if !d.matches(g[o][i]) {
        ConnectionsFollowed(g, d, rank, o, i + 1, h);
      } else {
        var c := g[o][i].oside;
        var r := Walk(g, d, rank, c, h, false);
        WalkVisits(g, d, rank, c, h, false);
        WalkConsistent(g, d, rank, c, h, false);
        if r.visits != [] {
          assert r.visits == [r.visits[0]];
          FlatOne(r.visits[0]);
        }
        if r.act.CONTINUE? {
          ConnectionsFollowed(g, d, rank, o, i + 1, r.h);
          var rest := WalkConnections(g, d, rank, o, i + 1, r.h).visits;
          if r.visits != [] {
            assert (r.visits + rest)[1..] == rest;
          } else {
            assert r.visits + rest == rest && r.h == h;
          }
        }
      }
    }
  }

  // ---------------------------------------------------------------- the end is the end

  /** After a scan that was answered SA_END there are scan_returns only. */
  predicate NothingAfterEnd(e: seq<Event>) {
    forall i, j | 0 <= i < j < |e| && e[i].Scanned? && e[i].a.END? :: e[j].Returned?
  }

  lemma {:induction false} EndOfFlat(vs: seq<Visit>)
    ensures HasEnd(vs) <==> SomeEnd(Flat(vs))
    decreases vs
  {
    if vs != [] {
      EndOfFlat(vs[0].subs);
      EndOfFlat(vs[1..]);
      var a, b := Flat(vs[0].subs), Flat(vs[1..]);
      EndAmong(Scanned(vs[0].o, vs[0].answer), a, Returned(vs[0].o), b);
    }
  }

  predicate IsEnd(e: Event) {
    e.Scanned? && e.a.END?
  }

  ghost predicate SomeEnd(e: seq<Event>) {
    exists i :: 0 <= i < |e| && IsEnd(e[i])
  }

  lemma SomeEndConcat(a: seq<Event>, b: seq<Event>)
    ensures SomeEnd(a + b) <==> SomeEnd(a) || SomeEnd(b)
  {
    if i :| 0 <= i < |a| && IsEnd(a[i]) {
      assert IsEnd((a + b)[i]);
    }
    if i :| 0 <= i < |b| && IsEnd(b[i]) {
      assert IsEnd((a + b)[|a| + i]);
    }
    if i :| 0 <= i < |a + b| && IsEnd((a + b)[i]) {
      assert i < |a| ==> IsEnd(a[i]);
      assert i >= |a| ==> IsEnd(b[i - |a|]);
    }
  }

  lemma EndAmong(s: Event, a: seq<Event>, r: Event, b: seq<Event>)
    requires r.Returned?
    ensures SomeEnd([s] + a + [r] + b) <==> IsEnd(s) || SomeEnd(a) || SomeEnd(b)
  {
    SomeEndConcat([s] + a + [r], b);
    SomeEndConcat([s] + a, [r]);
    SomeEndConcat([s], a);
    assert SomeEnd([s]) <==> IsEnd(s) by {
      assert IsEnd(s) ==> IsEnd([s][0]);
    }
  }

  lemma AfterEndConcat(a: seq<Event>, b: seq<Event>)
    requires NothingAfterEnd(a) && NothingAfterEnd(b)
    requires SomeEnd(a) ==> forall j | 0 <= j < |b| :: b[j].Returned?
    ensures NothingAfterEnd(a + b)
  {
    var e := a + b;
    forall i, j | 0 <= i < j < |e| && e[i].Scanned? && e[i].a.END? ensures e[j].Returned? {
      if i < |a| {
        assert IsEnd(a[i]);
      }
    }
  }

  lemma AfterEndVisit(o: nat, a: Answer, inner: seq<Event>)
    requires NothingAfterEnd(inner) && (a.END? ==> inner == [])
    ensures NothingAfterEnd([Scanned(o, a)] + inner + [Returned(o)])
  {
    AfterEndConcat([Scanned(o, a)], inner);
    AfterEndConcat([Scanned(o, a)] + inner, [Returned(o)]);
  }

  lemma {:induction false} FollowsEnds(g: Graph, d: Decisions, cs: seq<Connection>, vs: seq<Visit>, h: seq<Event>)
    requires Follows(g, d, cs, vs, h)
    ensures NothingAfterEnd(Flat(vs))
    decreases vs, |cs|
  {
    if cs != [] {
      if !d.matches(cs[0]) || !d.enters(h, cs[0].oside) {
        FollowsEnds(g, d, cs[1..], vs, h);
      } else {
        ConsistentEnds(g, d, vs[0], h);
        FlatOne(vs[0]);
        assert vs == [vs[0]] + vs[1..];
        FlatConcat([vs[0]], vs[1..]);
        EndOfFlat([vs[0]]);
        if vs[0].answer.BACKWARD? || vs[0].answer.END? || HasEnd(vs[0].subs) {
          assert vs[1..] == [];
        } else {
          FollowsEnds(g, d, cs[1..], vs[1..], h + Flat([vs[0]]));
        }
        AfterEndConcat(Flat([vs[0]]), Flat(vs[1..]));
      }
    }
  }

  lemma {:induction false} ConsistentEnds(g: Graph, d: Decisions, v: Visit, h: seq<Event>)
    requires Consistent(g, d, v, h)
    ensures NothingAfterEnd(Flat([v]))
    decreases v, 0
  {
    if v.answer.FORWARD? {
      FollowsEnds(g, d, g[v.o], v.subs, h + [Scanned(v.o, v.answer)]);
    }
    FlatOne(v);
    AfterEndVisit(v.o, v.answer, Flat(v.subs));
  }

  /** Scanning an object: what it adds to the history is well nested, nothing is scanned after SA_END,
      SA_END is returned exactly if a scan was answered so, and SA_FORWARD never. */
  lemma ScanIsBracketed(g: Graph, d: Decisions, rank: seq<nat>, o: nat, h: seq<Event>, async: bool, open: seq<nat>)
    requires Acyclic(g, d, rank) && o < |g|
    ensures var r := Walk(g, d, rank, o, h, async);
            && r.h == h + Flat(r.visits)
            && Levels(Flat(r.visits), open) == (true, open)
            && NothingAfterEnd(Flat(r.visits))
            && (r.act.END? <==> SomeEnd(Flat(r.visits))) && !r.act.FORWARD?
  {
    var r := Walk(g, d, rank, o, h, async);
    WalkVisits(g, d, rank, o, h, async);
    WalkConsistent(g, d, rank, o, h, async);
    WellNested(r.visits, open);
    EndOfFlat(r.visits);
    if r.visits != [] {
      assert r.visits == [r.visits[0]];
      ConsistentEnds(g, d, r.visits[0], h);
    }
  }

  // ---------------------------------------------------------------- the scan as it runs

  /** A scanner, and what it has been told. */
  class XObjectScanner {
    const d: Decisions
    var events: seq<Event>

    constructor (d: Decisions)
      ensures this.d == d && events == []
    {
      this.d, events := d, [];
    }

    method ScanObject(o: nat) returns (a: Answer)
      modifies this
      ensures a == d.answer(old(events), o) && events == old(events) + [Scanned(o, a)]
    {
      a := d.answer(events, o);
      events := events + [Scanned(o, a)];
    }

    method ScanReturn(o: nat)
      modifies this
      ensures events == old(events) + [Returned(o)]
    {
      events := events + [Returned(o)];
    }
  }

  /** scan, on any finite graph without circles along matching connections. */
  method Scan(g: Graph, s: XObjectScanner, o: nat, async: bool) returns (r: Answer, ghost visits: seq<Visit>)
    requires NoCycle(g, s.d) && o < |g|
    modifies s
    ensures s.events == old(s.events) + Flat(visits)
    ensures |visits| == if async || s.d.enters(old(s.events), o) then 1 else 0
    ensures forall i | 0 <= i < |visits| :: visits[i].o == o && Consistent(g, s.d, visits[i], old(s.events))
    ensures Levels(Flat(visits), []) == (true, []) && NothingAfterEnd(Flat(visits))
    ensures !r.FORWARD? && (r.END? <==> SomeEnd(Flat(visits)))
    ensures r.BACKWARD? <==> visits != [] && visits[0].answer.BACKWARD?
  {
    ghost var rank := RankOf(g, s.d);
    visits := Walk(g, s.d, rank, o, s.events, async).visits;
    ScanIsBracketed(g, s.d, rank, o, s.events, async, []);
    WalkVisits(g, s.d, rank, o, s.events, async);
    WalkConsistent(g, s.d, rank, o, s.events, async);
    r := ScanFrom(g, s, o, async, rank);
  }

  /** The recursion of scan. */
  method ScanFrom(g: Graph, s: XObjectScanner, o: nat, async: bool, ghost rank: seq<nat>) returns (r: Answer)
    requires Acyclic(g, s.d, rank) && o < |g|
    modifies s
    ensures r == Walk(g, s.d, rank, o, old(s.events), async).act
    ensures s.events == Walk(g, s.d, rank, o, old(s.events), async).h
    decreases rank[o]
  {
    if !async && !s.d.enters(s.events, o) {
      return CONTINUE;
    }
    var sact := s.ScanObject(o);
    match sact {
      case FORWARD =>
        ghost var all := WalkConnections(g, s.d, rank, o, 0, s.events);
        var i := 0;
        while i < |g[o]|
          invariant i <= |g[o]|
          invariant WalkConnections(g, s.d, rank, o, i, s.events).h == all.h
          invariant WalkConnections(g, s.d, rank, o, i, s.events).act == all.act
        {
          if !s.d.matches(g[o][i]) {
            i := i + 1;
            continue;
          }
          var sub := ScanFrom(g, s, g[o][i].oside, false, rank);
          match sub {
            case CONTINUE =>
            case BACKWARD =>
              s.ScanReturn(o);
              return CONTINUE;
            case END =>
              s.ScanReturn(o);
              return END;
            case FORWARD =>
          }
          i := i + 1;
        }
      case BACKWARD =>
        s.ScanReturn(o);
        return BACKWARD;
      case CONTINUE =>
        s.ScanReturn(o);
        return CONTINUE;
      case END =>
        s.ScanReturn(o);
        return END;
    }
    s.ScanReturn(o);
    return CONTINUE;
  }
}
