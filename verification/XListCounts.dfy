/**
  Reference-count bookkeeping of `XList`: how each elementary change moves the
  difference between a node's `usageNO` and what is known to refer to the node.
 */
module XListCounts {
  import opened XListProtocol

  /** A freed node's pointers stay counted until its `xerase` gives the counts back. */
  predicate HoldsNext(p: Phase) { !p.OwesPrev? && !p.Gone? }
  predicate HoldsPrev(p: Phase) { !p.Gone? }

  function Ref(nd: Node, n: nat): nat {
    (if HoldsNext(nd.phase) && nd.next == n then 1 else 0) + (if HoldsPrev(nd.phase) && nd.prev == n then 1 else 0)
  }

  /** Number of next/prev fields that point at `n` and hold (or still owe) a count on it. */
  function Refs(nodes: seq<Node>, n: nat): nat {
    if nodes == [] then 0 else Refs(nodes[..|nodes| - 1], n) + Ref(nodes[|nodes| - 1], n)
  }

  /** Number of iterator objects that stand on `n`. */
  function Iters(s: State, n: nat): nat {
    multiset(s.iters)[n]
  }

  /** Iterators that only `xerase` holds: the caller's and its own copy. */
  function XCredit(p: Phase): nat {
    if p.XCopied? then 2 else if p.XReleased? then 1 else 0
  }

  function One(b: bool): int { if b then 1 else 0 }

  /** Counts the writer has taken ahead of a pointer change, less those it has yet to take after one. */
  function WriterCredit(s: State, n: nat): int
    requires s.w.Idle? || s.w.node < |s.nodes|
  {
    match s.w
    case Idle => 0
    case PushA(k) => -One(n == 0) - One(n == s.nodes[k].prev)
    case PushB(k) => One(n == k) - One(n == 0) - One(n == s.nodes[k].prev)
    case PushC(k) => -One(n == s.nodes[k].prev)
    case PushD(k) => One(n == k) - One(n == s.nodes[k].prev)
    case PrepCopy(k) => One(n == k)
    case PrepFalse(k) => One(n == k)
    case PrepA(k) => One(n == k)
    case PrepB(k) => One(n == k) + One(n == s.nodes[k].prev)
    case PrepC(k) => 2 * One(n == k)
    case PrepD(k) => One(n == k)
    case PrepE(k) => One(n == k) + One(n == s.nodes[k].next)
    case PrepF(k) => 2 * One(n == k)
    case PrepG(k) => One(n == k)
  }

  /** `usageNO` less everything outside the writer that accounts for it. */
  function Balance(s: State, n: nat): int
    requires n < |s.nodes|
  {
    s.nodes[n].usage - Iters(s, n) - Refs(s.nodes, n) - XCredit(s.nodes[n].phase) + 2 * One(n == 0)
  }

  /** Reference-count conservation, at every point between two steps. */
  ghost predicate Conserved(s: State)
    requires WF(s)
  {
    forall n | 0 <= n < |s.nodes| :: Balance(s, n) == WriterCredit(s, n)
  }

  // ---------------------------------------------------------------- counting pointers

  lemma {:induction false} RefsUpdate(nodes: seq<Node>, i: nat, nd: Node, n: nat)
    requires i < |nodes|
    ensures Refs(nodes[i := nd], n) == Refs(nodes, n) - Ref(nodes[i], n) + Ref(nd, n)
  {
    var last := |nodes| - 1;
    if i == last {
      assert nodes[i := nd][..last] == nodes[..last];
    } else {
      assert nodes[i := nd][..last] == nodes[..last][i := nd];
      RefsUpdate(nodes[..last], i, nd, n);
    }
  }

  lemma {:induction false} RefsAtLeast(nodes: seq<Node>, i: nat, n: nat)
    requires i < |nodes|
    ensures Refs(nodes, n) >= Ref(nodes[i], n)
  {
    var last := |nodes| - 1;
    if i < last {
      RefsAtLeast(nodes[..last], i, n);
    }
  }

  lemma {:induction false} RefsZero(nodes: seq<Node>, n: nat)
    requires forall i | 0 <= i < |nodes| :: Ref(nodes[i], n) == 0
    ensures Refs(nodes, n) == 0
  {
    if nodes != [] {
      RefsZero(nodes[..|nodes| - 1], n);
    }
  }

  // ---------------------------------------------------------------- elementary changes

  lemma BalBump(s: State, m: nat, n: nat)
    requires m < |s.nodes| && n < |s.nodes|
    ensures Balance(Bump(s, m), n) == Balance(s, n) + One(n == m)
  {
    RefsUpdate(s.nodes, m, Bump(s, m).nodes[m], n);
  }

  lemma BalDrop(s: State, m: nat, n: nat)
    requires m < |s.nodes| && n < |s.nodes|
    ensures Balance(Drop(s, m), n) == Balance(s, n) - One(n == m)
  {
    RefsUpdate(s.nodes, m, Drop(s, m).nodes[m], n);
  }

  lemma BalNext(s: State, m: nat, v: nat, n: nat)
    requires m < |s.nodes| && n < |s.nodes| && HoldsNext(s.nodes[m].phase)
    ensures Balance(SetNext(s, m, v), n) == Balance(s, n) + One(n == s.nodes[m].next) - One(n == v)
  {
    RefsUpdate(s.nodes, m, SetNext(s, m, v).nodes[m], n);
  }

  lemma BalPrev(s: State, m: nat, v: nat, n: nat)
    requires m < |s.nodes| && n < |s.nodes| && HoldsPrev(s.nodes[m].phase)
    ensures Balance(SetPrev(s, m, v), n) == Balance(s, n) + One(n == s.nodes[m].prev) - One(n == v)
  {
    RefsUpdate(s.nodes, m, SetPrev(s, m, v).nodes[m], n);
  }

  /** Pointers held before a phase change less those held after it. */
  function Given(nd: Node, p: Phase, n: nat): int {
    Ref(nd, n) - Ref(nd.(phase := p), n)
  }

  /** Replaces every field but the pointers and the count. */
  lemma BalMark(s: State, m: nat, nd: Node, n: nat)
    requires m < |s.nodes| && n < |s.nodes|
    requires nd.next == s.nodes[m].next && nd.prev == s.nodes[m].prev && nd.usage == s.nodes[m].usage
    ensures Balance(s.(nodes := s.nodes[m := nd]), n)
         == Balance(s, n) + Given(s.nodes[m], nd.phase, n)
            + One(n == m) * (XCredit(s.nodes[m].phase) - XCredit(nd.phase))
  {
    RefsUpdate(s.nodes, m, nd, n);
  }

  lemma BalPhase(s: State, m: nat, p: Phase, n: nat)
    requires m < |s.nodes| && n < |s.nodes|
    ensures Balance(SetPhase(s, m, p), n)
         == Balance(s, n) + Given(s.nodes[m], p, n) + One(n == m) * (XCredit(s.nodes[m].phase) - XCredit(p))
  {
    BalMark(s, m, s.nodes[m].(phase := p), n);
  }

  lemma BalIter(s: State, i: nat, v: int, n: nat)
    requires i < |s.iters| && n < |s.nodes|
    ensures Balance(SetIter(s, i, v), n) == Balance(s, n) + One(s.iters[i] == n) - One(v == n)
  {
    assert multiset(s.iters[i := v]) == multiset(s.iters) - multiset{s.iters[i]} + multiset{v};
  }

  lemma BalNewIter(s: State, n: nat)
    requires n < |s.nodes|
    ensures Balance(s.(iters := s.iters + [NULL]), n) == Balance(s, n)
  {
  }

  lemma BalCreate(s: State, n: nat)
    requires |s.nodes| > 0 && s.nodes[0].prev < |s.nodes| && n <= |s.nodes|
    requires Iters(s, |s.nodes|) == 0 && Refs(s.nodes, |s.nodes|) == 0
    ensures n < |s.nodes| ==> Balance(Create(s), n) == Balance(s, n) - One(n == 0) - One(n == s.nodes[0].prev)
    ensures n == |s.nodes| ==> Balance(Create(s), n) == 0
  {
    var t := Create(s);
    assert t.nodes[..|s.nodes|] == s.nodes;
  }

  lemma FreshUnreferenced(s: State)
    requires WF(s)
    ensures Iters(s, |s.nodes|) == 0 && Refs(s.nodes, |s.nodes|) == 0
  {
    RefsZero(s.nodes, |s.nodes|);
    var n: int := |s.nodes|;
    assert n !in s.iters;
  }
}
