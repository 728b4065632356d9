/**
  Deferred frees of `XList` never block each other for good: an erased node is only pointed at
  by nodes erased before it, so once readers have left, every pending `xerase` completes.
 */
module XListDrain {
  import opened XListProtocol
  import opened XListCounts
  import opened XListInvariant
  import opened XListCountSteps
  import opened XListShapeSteps
  import opened XListSafety
  import opened XListMemory
  import opened XListTraversal

  predicate Pending(p: Phase) {
    Unlinked(p) && !p.Gone?
  }

  /** No writer is at work, every unlinked node was handed to xerase, and no iterator stands on one. */
  ghost predicate Quiet(s: State) {
    && Inv(s) && s.w.Idle?
    && (forall n | 0 <= n < |s.nodes| :: !s.nodes[n].phase.Prepared?)
    && (forall i | 0 <= i < |s.iters| :: !IsUnlinked(s, s.iters[i]))
  }

  // ---------------------------------------------------------------- who points at an erased node

  /** An unlinked node is pointed at only by nodes that were unlinked before it. */
  lemma PointedAtByEarlier(s: State, p: nat, n: nat)
    requires Inv(s) && s.w.Idle? && p < |s.nodes| && IsUnlinked(s, n)
    requires s.nodes[p].next == n || s.nodes[p].prev == n
    ensures IsUnlinked(s, p) && s.nodes[p].stamp < s.nodes[n].stamp
  {
    assert IsLinked(s, p) ==> !PrevTentative(s, p);
    assert IsUnlinked(s, p) || IsLinked(s, p);
  }

  /** No pending node was unlinked before `n`. */
  ghost predicate IsEarliest(s: State, n: nat) {
    && n < |s.nodes| && Pending(s.nodes[n].phase)
    && forall m | 0 <= m < |s.nodes| && Pending(s.nodes[m].phase) :: s.nodes[n].stamp <= s.nodes[m].stamp
  }

  /** Nothing points at the earliest pending node, whatever readers stand on others. */
  lemma EarliestFree(s: State, n: nat)
    requires Inv(s) && s.w.Idle? && IsEarliest(s, n)
    ensures Refs(s.nodes, n) == 0
  {
    hide Inv;
    forall i | 0 <= i < |s.nodes|
      ensures Ref(s.nodes[i], n) == 0
    {
      if s.nodes[i].next == n || s.nodes[i].prev == n {
        PointedAtByEarlier(s, i, n);
        assert !Pending(s.nodes[i].phase);
      }
    }
    RefsZero(s.nodes, n);
  }

  lemma NoIters(s: State, n: nat)
    requires IsUnlinked(s, n) && forall i | 0 <= i < |s.iters| :: !IsUnlinked(s, s.iters[i])
    ensures Iters(s, n) == 0
  {
    assert (n as int) !in s.iters;
  }

  /** When its own readers have left, its waiter is not asleep, and finds the count zero when it looks. */
  lemma EarliestAwake(s: State, n: nat)
    requires Inv(s) && s.w.Idle? && IsEarliest(s, n) && Iters(s, n) == 0
    ensures !s.nodes[n].phase.Asleep? && !s.nodes[n].phase.Checked?
    ensures s.nodes[n].usage == XCredit(s.nodes[n].phase)
  {
    EarliestFree(s, n);
    UsedBy(s, n);
  }

  lemma UsedBy(s: State, n: nat)
    requires Inv(s) && s.w.Idle? && IsUnlinked(s, n)
    ensures s.nodes[n].usage == Iters(s, n) + Refs(s.nodes, n) + XCredit(s.nodes[n].phase)
    ensures s.nodes[n].phase.Asleep? || s.nodes[n].phase.Checked? ==> s.nodes[n].usage > 0
  {
    hide NextLinks, PrevLinks, HistoryOK;
    assert Balance(s, n) == WriterCredit(s, n);
  }

  /** Handed to xerase, and nobody stands on it any more. */
  ghost predicate Foremost(s: State, n: nat) {
    Inv(s) && s.w.Idle? && IsEarliest(s, n) && Iters(s, n) == 0 && !s.nodes[n].phase.Prepared?
  }

  /** Then its xerase can take a step, unless it waits for the lock of a neighbour whose own xerase is
      about to go to sleep, which then can. */
  lemma ForemostMoves(s: State, n: nat) returns (k: nat)
    requires Foremost(s, n) && WF(s)
    ensures EraseEnabled(s, k) && k < |s.nodes|
    ensures k == n || (s.nodes[k].phase.Checked? && k == Owed(s.nodes[n]))
  {
    hide Inv;
    EarliestAwake(s, n);
    NotUnlinking(s, n);
    k := n;
    var m := Owed(s.nodes[n]);
    if (s.nodes[n].phase.OwesBoth? || s.nodes[n].phase.OwesPrev?) && !LockFree(s, m) {
      k := m;
    }
  }

  lemma NotUnlinking(s: State, n: nat)
    requires Inv(s) && s.w.Idle? && n < |s.nodes|
    ensures !s.nodes[n].phase.Unlinking?
  {
  }

  lemma {:induction false} Earliest(nodes: seq<Node>, n: nat) returns (k: nat)
    requires n < |nodes| && Pending(nodes[n].phase)
    ensures k < |nodes| && Pending(nodes[k].phase)
    ensures forall m | 0 <= m < |nodes| && Pending(nodes[m].phase) :: nodes[k].stamp <= nodes[m].stamp
    decreases nodes[n].stamp
  {
    if m :| 0 <= m < |nodes| && Pending(nodes[m].phase) && nodes[m].stamp < nodes[n].stamp {
      k := Earliest(nodes, m);
    } else {
      k := n;
    }
  }

  /** While an erased node is pending, some xerase can take a step. */
  lemma SomeEraseEnabled(s: State, n: nat) returns (k: nat)
    requires Quiet(s) && WF(s) && n < |s.nodes| && Pending(s.nodes[n].phase)
    ensures EraseEnabled(s, k)
  {
    k := Earliest(s.nodes, n);
    NoIters(s, k);
    hide Inv;
    k := ForemostMoves(s, k);
  }

  // ---------------------------------------------------------------- steps that bring the frees to an end

  /** How far an erase is from its end; a waiter whose node is no longer used is past its sleep. */
  function Rank(nd: Node): nat {
    match nd.phase
    case XCopied => 9
    case XReleased => 8
    case WaitLock => if nd.usage > 0 then 7 else 4
    case Checked => 6
    case Asleep => 5
    case OwesBoth => 3
    case OwesPrev => 2
    case _ => 0
  }

  function Total(nodes: seq<Node>): nat {
    if nodes == [] then 0 else Total(nodes[..|nodes| - 1]) + Rank(nodes[|nodes| - 1])
  }

  lemma {:induction false} TotalUpdate(nodes: seq<Node>, i: nat, nd: Node)
    requires i < |nodes|
    ensures Total(nodes[i := nd]) == Total(nodes) - Rank(nodes[i]) + Rank(nd)
  {
    var last := |nodes| - 1;
    if i == last {
      assert nodes[i := nd][..last] == nodes[..last];
    } else {
      assert nodes[i := nd][..last] == nodes[..last][i := nd];
      TotalUpdate(nodes[..last], i, nd);
    }
  }

  lemma DropTotal(s: State, m: nat)
    requires m < |s.nodes| && LockFree(s, m) && (s.nodes[m].phase.Asleep? ==> s.nodes[m].usage > 0)
    ensures Total(Drop(s, m).nodes) <= Total(s.nodes)
  {
    TotalUpdate(s.nodes, m, Drop(s, m).nodes[m]);
  }

  lemma SetPhaseTotal(s: State, n: nat, p: Phase)
    requires n < |s.nodes| && Rank(s.nodes[n].(phase := p)) < Rank(s.nodes[n])
    ensures Total(SetPhase(s, n, p).nodes) < Total(s.nodes)
  {
    TotalUpdate(s.nodes, n, s.nodes[n].(phase := p));
  }

  /** Every step of an xerase strictly decreases what is left of all of them. */
  lemma EraseDecreases(s: State, n: nat)
    requires Inv(s) && EraseEnabled(s, n)
    ensures Total(EraseStep(s, n).nodes) < Total(s.nodes)
  {
    hide Inv, Total, ReleaseAs, GiveBack;
    match s.nodes[n].phase
    case XCopied => ReleaseDecreases(s, n, XReleased);
    case XReleased => ReleaseDecreases(s, n, WaitLock);
    case WaitLock =>
      UsageCounts(s, n);
      SetPhaseTotal(s, n, if s.nodes[n].usage > 0 then Checked else OwesBoth);
    case Checked => SetPhaseTotal(s, n, Asleep);
    case OwesBoth =>
      OwedFacts(s, n);
      OwedAwake(s, n);
      GiveBackDecreases(s, n, s.nodes[n].next, OwesPrev);
    case OwesPrev =>
      OwedFacts(s, n);
      OwedAwake(s, n);
      GiveBackDecreases(s, n, s.nodes[n].prev, Gone);
  }

  lemma UsageCounts(s: State, n: nat)
    requires Inv(s) && n < |s.nodes| && s.nodes[n].phase.WaitLock?
    ensures s.nodes[n].usage >= 0
  {
    assert IsUnlinked(s, n);
    UsageNonNegative(s, n);
  }

  lemma OwedAwake(s: State, n: nat)
    requires Inv(s) && n < |s.nodes|
    ensures Owed(s.nodes[n]) < |s.nodes|
    ensures s.nodes[Owed(s.nodes[n])].phase.Asleep? ==> s.nodes[Owed(s.nodes[n])].usage > 0
  {
  }

  lemma ReleaseDecreases(s: State, n: nat, p: Phase)
    requires n < |s.nodes|
    requires (s.nodes[n].phase.XCopied? && p.XReleased?) || (s.nodes[n].phase.XReleased? && p.WaitLock?)
    ensures Total(ReleaseAs(s, n, p).nodes) < Total(s.nodes)
  {
    DropTotal(s, n);
    SetPhaseTotal(Drop(s, n), n, p);
  }

  lemma GiveBackDecreases(s: State, n: nat, m: nat, p: Phase)
    requires n < |s.nodes| && m < |s.nodes| && LockFree(s, m)
    requires s.nodes[m].phase.Asleep? ==> s.nodes[m].usage > 0
    requires (s.nodes[n].phase.OwesBoth? && p.OwesPrev?) || (s.nodes[n].phase.OwesPrev? && p.Gone?)
    ensures Total(GiveBack(s, n, m, p).nodes) < Total(s.nodes)
  {
    DropTotal(s, m);
    SetPhaseTotal(Drop(s, m), n, p);
  }

  // ---------------------------------------------------------------- draining

  /** A run in which only pending erases step. */
  ghost predicate EraseRun(s: State, ks: seq<nat>, t: State)
    decreases |ks|
  {
    if ks == [] then s == t
    else WF(s) && EraseEnabled(s, ks[0]) && EraseRun(EraseStep(s, ks[0]), ks[1..], t)
  }

  lemma QuietStep(s: State, n: nat)
    requires Quiet(s) && WF(s) && EraseEnabled(s, n)
    ensures Quiet(EraseStep(s, n))
  {
    hide Inv, EraseStep, SameNodes, SameMarks;
    InvStep(s, Erase(n));
    EraseKeeps(s, n);
    EraseIters(s, n);
    SameUnlinked(s, EraseStep(s, n));
    NotPreparedAgain(s, n);
  }

  lemma SameUnlinked(s: State, t: State)
    requires SameNodes(s, t)
    ensures forall n :: IsUnlinked(t, n) ==> IsUnlinked(s, n)
  {
    assert forall n | 0 <= n < |s.nodes| :: SameNode(s.nodes[n], t.nodes[n]);
  }

  lemma NotPreparedAgain(s: State, n: nat)
    requires WF(s) && EraseEnabled(s, n) && forall m | 0 <= m < |s.nodes| :: !s.nodes[m].phase.Prepared?
    ensures forall m | 0 <= m < |s.nodes| :: !EraseStep(s, n).nodes[m].phase.Prepared?
  {
  }

  /** However the pending erases are scheduled, they come to an end. */
  lemma {:induction false} EraseRunBounded(s: State, ks: seq<nat>, t: State)
    requires Quiet(s) && EraseRun(s, ks, t)
    ensures Quiet(t) && |ks| + Total(t.nodes) <= Total(s.nodes)
    decreases |ks|
  {
    hide Inv, EraseStep, Total;
    if ks != [] {
      EraseDecreases(s, ks[0]);
      QuietStep(s, ks[0]);
      EraseRunBounded(EraseStep(s, ks[0]), ks[1..], t);
    }
  }

  /** When they have, every erased node has been freed and has given back its neighbours' counts. */
  lemma StuckMeansDrained(s: State)
    requires Quiet(s) && WF(s) && forall k: nat :: !EraseEnabled(s, k)
    ensures forall n | IsUnlinked(s, n) :: s.nodes[n].phase.Gone?
  {
    hide Quiet, EraseEnabled;
    forall n | IsUnlinked(s, n) ensures s.nodes[n].phase.Gone? {
      if Pending(s.nodes[n].phase) {
        var k := SomeEraseEnabled(s, n);
      }
    }
  }

  /** And there always is such a schedule. */
  lemma {:induction false} Drains(s: State) returns (ks: seq<nat>, t: State)
    requires Quiet(s)
    ensures EraseRun(s, ks, t) && Quiet(t)
    ensures forall n | IsUnlinked(t, n) :: t.nodes[n].phase.Gone?
    decreases Total(s.nodes)
  {
    hide Inv, EraseStep, Total, EraseEnabled, IsUnlinked;
    if n :| 0 <= n < |s.nodes| && Pending(s.nodes[n].phase) {
      InvWF(s);
      var k := SomeEraseEnabled(s, n);
      EraseDecreases(s, k);
      QuietStep(s, k);
      var rest;
      rest, t := Drains(EraseStep(s, k));
      ks := [k] + rest;
      assert ks[1..] == rest;
    } else {
      ks, t := [], s;
      NonePending(s);
    }
  }

  lemma NonePending(s: State)
    requires forall n | 0 <= n < |s.nodes| :: !Pending(s.nodes[n].phase)
    ensures forall n | IsUnlinked(s, n) :: s.nodes[n].phase.Gone?
  {
  }

  // ---------------------------------------------------------------- draining while readers stay

  lemma ForemostStays(s: State, n: nat, k: nat)
    requires Foremost(s, n) && WF(s) && EraseEnabled(s, k) && k < |s.nodes|
    ensures n < |EraseStep(s, k).nodes|
    ensures EraseStep(s, k).nodes[n].phase.Gone? || Foremost(EraseStep(s, k), n)
  {
    hide Inv, EraseStep, SameNodes, SameMarks;
    InvStep(s, Erase(k));
    EraseKeeps(s, k);
    EraseIters(s, k);
    SameUnlinked(s, EraseStep(s, k));
    SameStamps(s, EraseStep(s, k));
    GoneStays(s, k);
    StillUnlinked(s, n, k);
    var t := EraseStep(s, k);
    forall m | 0 <= m < |t.nodes| && Pending(t.nodes[m].phase) ensures t.nodes[n].stamp <= t.nodes[m].stamp {
      assert IsUnlinked(t, m);
      assert Pending(s.nodes[m].phase);
    }
  }

  lemma SameStamps(s: State, t: State)
    requires SameNodes(s, t)
    ensures |s.nodes| == |t.nodes| && forall n | 0 <= n < |s.nodes| :: t.nodes[n].stamp == s.nodes[n].stamp
  {
    assert forall n | 0 <= n < |s.nodes| :: SameNode(s.nodes[n], t.nodes[n]);
  }

  lemma GoneStays(s: State, k: nat)
    requires WF(s) && EraseEnabled(s, k)
    ensures |EraseStep(s, k).nodes| == |s.nodes|
    ensures forall m | 0 <= m < |s.nodes| && s.nodes[m].phase.Gone? :: EraseStep(s, k).nodes[m].phase.Gone?
  {
  }

  lemma StillUnlinked(s: State, n: nat, k: nat)
    requires WF(s) && EraseEnabled(s, k) && IsUnlinked(s, n) && !s.nodes[n].phase.Prepared?
    ensures IsUnlinked(EraseStep(s, k), n) && !EraseStep(s, k).nodes[n].phase.Prepared?
  {
  }

  /** The earliest pending node that nobody stands on is freed, and gives back its neighbours' counts,
      while any readers stay where they are on other erased nodes. */
  lemma {:induction false} ForemostDrains(s: State, n: nat) returns (ks: seq<nat>, t: State)
    requires Foremost(s, n)
    ensures EraseRun(s, ks, t) && t.iters == s.iters && n < |t.nodes| && t.nodes[n].phase.Gone?
    decreases Total(s.nodes)
  {
    hide Inv, EraseStep, Total, EraseEnabled, Foremost;
    ForemostFacts(s, n);
    var k := ForemostMoves(s, n);
    EraseDecreases(s, k);
    ForemostStays(s, n, k);
    EraseIters(s, k);
    var s1 := EraseStep(s, k);
    if s1.nodes[n].phase.Gone? {
      ks, t := [k], s1;
      assert [k][1..] == [];
    } else {
      var rest;
      rest, t := ForemostDrains(s1, n);
      ks := [k] + rest;
      assert ks[1..] == rest;
    }
  }

  lemma ForemostFacts(s: State, n: nat)
    requires Foremost(s, n)
    ensures Inv(s) && WF(s)
  {
  }
}
