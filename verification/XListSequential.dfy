/**
  `push_back`, `xerase_prepare` and `xerase` run from start to end with no other thread in between:
  their lines one after the other, and what they amount to.
 */
module XListSequential {
  import opened XListProtocol
  import opened XListCounts
  import opened XListInvariant
  import opened XListCountSteps
  import opened XListShapeSteps
  import opened XListSafety
  import opened XListMemory
  import opened XListRefinement

  /** Between operations of the one running thread: the writer is idle, no lock is held. */
  ghost predicate Calm(s: State) {
    Inv(s) && s.w.Idle? && forall n | 0 <= n < |s.nodes| :: !s.nodes[n].phase.Checked?
  }

  // ---------------------------------------------------------------- push_back

  function PushBack(s: State): State
    requires WF(s)
  {
    CloseRing(CountNewAgain(LinkLast(CountNew(Create(s)))))
  }

  lemma WriteStep(s: State, t: State)
    requires Inv(s) && WF(s) && WriterEnabled(s) && t == WriterStep(s)
    ensures Inv(t) && WF(t) && Content(t) == Effect(s, Write)
  {
    hide Inv, WriterStep, Content, WF;
    InvStep(s, Write);
    InvWF(t);
    StepContent(s, Write);
  }

  lemma CreateStep(s: State)
    requires Calm(s)
    ensures Inv(Create(s)) && WF(Create(s)) && Content(Create(s)) == Content(s)
  {
    hide Inv, Create, Content, WF;
    InvWF(s);
    InvStep(s, StartPush);
    StepContent(s, StartPush);
    InvWF(Create(s));
  }

  /** push_back keeps the invariant and appends the node it creates. */
  lemma PushBackAppends(s: State)
    requires Calm(s) && WF(s)
    ensures Calm(PushBack(s)) && Content(PushBack(s)) == Content(s) + [|s.nodes|]
  {
    hide Inv, Content;
    var s1 := Create(s);
    CreateStep(s);
    var s2 := CountNew(s1);
    WriteStep(s1, s2);
    WriterFacts(s2);
    var s3 := LinkLast(s2);
    WriteStep(s2, s3);
    var s4 := CountNewAgain(s3);
    WriteStep(s3, s4);
    WriterFacts(s4);
    WriteStep(s4, CloseRing(s4));
  }

  // ---------------------------------------------------------------- xerase_prepare

  /** The lines of a call that finds the node not yet marked. */
  function Unmarked(s: State, n: nat): State
    requires WF(s) && n < |s.nodes|
  {
    CopyArgument(s, n).(nodes := CopyArgument(s, n).nodes[n := CopyArgument(s, n).nodes[n].(erasing := true)], w := PrepA(n))
  }

  predicate NeighboursInRange(s: State) {
    !s.w.Idle? && s.w.node < |s.nodes|
    && s.nodes[s.w.node].next < |s.nodes| && s.nodes[s.w.node].prev < |s.nodes|
  }

  /** Redirects next.prev. */
  function FirstHalf(s: State): (t: State)
    requires s.w.PrepA? && NeighboursInRange(s)
    ensures t.w == PrepD(s.w.node) && |t.nodes| == |s.nodes| && NeighboursInRange(t)
  {
    ReleaseOnce(RedirectPrev(CountPrev(s)))
  }

  /** Redirects prev.next. */
  function SecondHalf(s: State): (t: State)
    requires s.w.PrepD? && NeighboursInRange(s)
    ensures t.w == Idle && |t.nodes| == |s.nodes|
  {
    LeaveTrue(ReleaseTwice(RedirectNext(CountNext(s))))
  }

  function Prepare(s: State, n: nat): State
    requires WF(s) && n < |s.nodes|
  {
    SecondHalf(FirstHalf(Unmarked(s, n)))
  }

  lemma CopyStep(s: State, i: nat)
    requires Calm(s) && WF(s) && i < |s.iters| && s.iters[i] > 0
    ensures var t := CopyArgument(s, s.iters[i]); Inv(t) && WF(t) && Content(t) == Content(s)
  {
    hide Inv, Content, CopyArgument;
    InvStep(s, StartPrepare(i));
    InvWF(CopyArgument(s, s.iters[i]));
    StepContent(s, StartPrepare(i));
  }

  lemma TestStep(s: State, i: nat)
    requires Calm(s) && WF(s) && i < |s.iters| && s.iters[i] > 0 && !s.nodes[s.iters[i]].erasing
    ensures var t := Unmarked(s, s.iters[i]); Inv(t) && WF(t) && Content(t) == Content(s)
  {
    hide Inv, Content;
    var n := s.iters[i];
    CopyStep(s, i);
    assert TestErasing(CopyArgument(s, n)) == Unmarked(s, n);
    WriteStep(CopyArgument(s, n), Unmarked(s, n));
  }

  lemma PrepareFirstHalf(s: State)
    requires Inv(s) && WF(s) && s.w.PrepA?
    requires forall n | 0 <= n < |s.nodes| :: !s.nodes[n].phase.Checked?
    ensures var t := FirstHalf(s);
            Inv(t) && WF(t) && Content(t) == Content(s)
            && forall n | 0 <= n < |t.nodes| :: !t.nodes[n].phase.Checked?
  {
    hide Inv, Content;
    var s1 := CountPrev(s);
    WriteStep(s, s1);
    var s2 := RedirectPrev(s1);
    WriteStep(s1, s2);
    WriteStep(s2, ReleaseOnce(s2));
  }

  lemma PrepareSecondHalf(s: State)
    requires Inv(s) && WF(s) && s.w.PrepD?
    requires forall n | 0 <= n < |s.nodes| :: !s.nodes[n].phase.Checked?
    ensures var t := SecondHalf(s);
            Calm(t) && Content(t) == Without(Content(s), s.w.node)
  {
    hide Inv, Content, Without;
    var s1 := CountNext(s);
    WriteStep(s, s1);
    var s2 := RedirectNext(s1);
    WriteStep(s1, s2);
    var s3 := ReleaseTwice(s2);
    WriteStep(s2, s3);
    WriteStep(s3, LeaveTrue(s3));
  }

  /** A successful xerase_prepare keeps the invariant and removes exactly the iterator's node. */
  lemma PrepareRemoves(s: State, i: nat)
    requires Calm(s) && WF(s) && i < |s.iters| && s.iters[i] > 0 && !s.nodes[s.iters[i]].erasing
    ensures Calm(Prepare(s, s.iters[i])) && Content(Prepare(s, s.iters[i])) == Without(Content(s), s.iters[i])
  {
    hide Inv, Content, Without, FirstHalf, SecondHalf;
    TestStep(s, i);
    var s1 := Unmarked(s, s.iters[i]);
    PrepareFirstHalf(s1);
    PrepareSecondHalf(FirstHalf(s1));
  }

  // ---------------------------------------------------------------- xerase

  /** xerase up to its test of usageNO. */
  function EraseEntered(s: State, i: nat): (t: State)
    requires WF(s) && i < |s.iters| && s.iters[i] > 0
    ensures |t.nodes| == |s.nodes|
  {
    ReleaseAs(ReleaseAs(TakeOver(s, i), s.iters[i], XReleased), s.iters[i], WaitLock)
  }

  /** xerase up to where it sleeps, or to its end if nothing else uses the node. */
  function EraseCall(s: State, i: nat): (t: State)
    requires WF(s) && i < |s.iters| && s.iters[i] > 0
    ensures |t.nodes| == |s.nodes|
  {
    var n := s.iters[i];
    var s1 := EraseEntered(s, i);
    var s2 := CheckUsage(s1, n);
    if s1.nodes[n].usage > 0 then SetPhase(s2, n, Asleep)
    else GiveBack(GiveBack(s2, n, s.nodes[n].next, OwesPrev), n, s.nodes[n].prev, Gone)
  }

  lemma EraseLine(s: State, n: nat, t: State)
    requires Inv(s) && WF(s) && EraseEnabled(s, n) && t == EraseStep(s, n)
    ensures Inv(t) && WF(t) && Content(t) == Content(s) && t.w == s.w
  {
    hide Inv, Content, WF, EraseStep, SameNodes, SameMarks;
    InvStep(s, Erase(n));
    InvWF(t);
    EraseKeeps(s, n);
    StepContent(s, Erase(n));
  }

  lemma TakeOverLine(s: State, i: nat)
    requires Calm(s) && WF(s) && i < |s.iters| && s.iters[i] > 0 && s.nodes[s.iters[i]].phase.Prepared?
    ensures var t := TakeOver(s, i); Inv(t) && WF(t) && Content(t) == Content(s)
  {
    hide Inv, Content, TakeOver;
    InvStep(s, StartErase(i));
    InvWF(Step(s, StartErase(i)));
    StepContent(s, StartErase(i));
  }

  lemma EraseEnters(s: State, i: nat)
    requires Calm(s) && WF(s) && i < |s.iters| && s.iters[i] > 0 && s.nodes[s.iters[i]].phase.Prepared?
    ensures var t := EraseEntered(s, i); Calm(t) && WF(t) && Content(t) == Content(s)
  {
    hide Inv, Content;
    var n := s.iters[i];
    TakeOverLine(s, i);
    var s1 := TakeOver(s, i);
    EraseLine(s1, n, ReleaseAs(s1, n, XReleased));
    var s2 := ReleaseAs(s1, n, XReleased);
    EraseLine(s2, n, ReleaseAs(s2, n, WaitLock));
  }

  lemma EraseEnds(s: State, n: nat)
    requires Calm(s) && WF(s) && n < |s.nodes| && s.nodes[n].phase.WaitLock? && s.nodes[n].usage <= 0
    requires s.nodes[n].next != n && s.nodes[n].prev != n
    ensures var t := GiveBack(GiveBack(CheckUsage(s, n), n, s.nodes[n].next, OwesPrev), n, s.nodes[n].prev, Gone);
            Calm(t) && Content(t) == Content(s)
  {
    hide Inv, Content;
    var s1 := CheckUsage(s, n);
    EraseLine(s, n, s1);
    var s2 := GiveBack(s1, n, s.nodes[n].next, OwesPrev);
    EraseLine(s1, n, s2);
    EraseLine(s2, n, GiveBack(s2, n, s.nodes[n].prev, Gone));
  }

  lemma EraseSleeps(s: State, n: nat)
    requires Calm(s) && WF(s) && n < |s.nodes| && s.nodes[n].phase.WaitLock? && s.nodes[n].usage > 0
    ensures var t := SetPhase(CheckUsage(s, n), n, Asleep); Calm(t) && Content(t) == Content(s)
  {
    hide Inv, Content;
    var s1 := CheckUsage(s, n);
    EraseLine(s, n, s1);
    EraseLine(s1, n, SetPhase(s1, n, Asleep));
  }

  /** An unlinked node does not point at itself. */
  lemma NotSelfLinked(s: State, n: nat)
    requires Inv(s) && IsUnlinked(s, n)
    ensures s.nodes[n].next != n && s.nodes[n].prev != n
  {
  }

  /** xerase keeps the invariant and the list; the node is freed within the call exactly when the
      caller's iterator held the only count on it, and the call sleeps otherwise. */
  lemma EraseFrees(s: State, i: nat)
    requires Calm(s) && WF(s) && i < |s.iters| && s.iters[i] > 0 && s.nodes[s.iters[i]].phase.Prepared?
    ensures Calm(EraseCall(s, i)) && Content(EraseCall(s, i)) == Content(s)
    ensures EraseCall(s, i).nodes[s.iters[i]].phase == if s.nodes[s.iters[i]].usage == 1 then Gone else Asleep
  {
    hide Inv, Content;
    var n := s.iters[i];
    EraseEnters(s, i);
    var s1 := EraseEntered(s, i);
    assert IsUnlinked(s1, n) && IsUnlinked(s, n);
    NotSelfLinked(s, n);
    UsageNonNegative(s1, n);
    assert s1.nodes[n].usage == s.nodes[n].usage - 1;
    if s1.nodes[n].usage > 0 {
      EraseSleeps(s1, n);
    } else {
      EraseEnds(s1, n);
    }
  }

  // ---------------------------------------------------------------- iterator operations

  predicate ByReader(a: Action) {
    a.NewIter? || a.CopyInto? || a.Begin? || a.End? || a.Next? || a.Prev? || a.Fini?
  }

  lemma ReaderFlags(s: State, a: Action)
    requires WF(s) && Enabled(s, a) && ByReader(a)
    requires forall n | 0 <= n < |s.nodes| :: !s.nodes[n].phase.Checked?
    ensures forall n | 0 <= n < |s.nodes| :: !Step(s, a).nodes[n].phase.Checked?
  {
  }

  /** Iterator operations leave the list as it is. */
  lemma ReaderCalm(s: State, a: Action)
    requires Calm(s) && WF(s) && Enabled(s, a) && ByReader(a)
    ensures Calm(Step(s, a)) && WF(Step(s, a)) && Content(Step(s, a)) == Content(s)
    ensures SameNodes(s, Step(s, a))
  {
    hide Inv, Content, Step, Enabled, SameNodes, WF;
    InvStep(s, a);
    StepContent(s, a);
    ReaderFlags(s, a);
    OthersKeep(s, a);
    InvWF(Step(s, a));
  }

  /** Every node an iterator can stand on or move to is unlocked in a calm state. */
  lemma CalmUnlocked(s: State, n: nat)
    requires Calm(s) && n < |s.nodes|
    ensures LockFree(s, n)
  {
  }

  // ---------------------------------------------------------------- walking from begin() to end()

  /** The nodes a forward walk has passed when it stands on `p`. */
  function Passed(s: State, p: nat): seq<nat>
    requires p < |s.nodes|
  {
    Range(s.nodes, 1, if p == 0 then |s.nodes| else p)
  }

  lemma CalmLinks(s: State)
    requires Calm(s)
    ensures WF(s) && NextLinks(s)
  {
  }

  lemma WalkStarts(s: State)
    requires Calm(s) && WF(s)
    ensures IsLinked(s, s.nodes[0].next) && Passed(s, s.nodes[0].next) == []
  {
    hide Calm;
    CalmLinks(s);
    FirstLinked(s);
    GapEmpty(s, 0);
  }

  /** Advancing from a linked node passes that node and no other. */
  lemma WalkAdvances(s: State, p: nat)
    requires Calm(s) && WF(s) && IsLinked(s, p) && p > 0
    ensures IsLinked(s, s.nodes[p].next) && (s.nodes[p].next == 0 || p < s.nodes[p].next)
    ensures Passed(s, s.nodes[p].next) == Passed(s, p) + [p]
  {
    hide Calm;
    CalmLinks(s);
    var q := s.nodes[p].next;
    var stop := if q == 0 then |s.nodes| else q;
    GapEmpty(s, p);
    RangeSplit(s.nodes, 1, p, stop);
    assert Range(s.nodes, p, stop) == [p] + Range(s.nodes, p + 1, stop);
  }

  lemma SameNodesStill(s: State, t: State, u: State)
    requires SameNodes(s, t) && SameNodes(t, u)
    ensures SameNodes(s, u)
  {
    forall n | 0 <= n < |s.nodes| ensures SameNode(s.nodes[n], u.nodes[n]) {
      assert SameNode(s.nodes[n], t.nodes[n]) && SameNode(t.nodes[n], u.nodes[n]);
    }
  }

  lemma SameNodesAt(s: State, t: State, n: nat)
    requires SameNodes(s, t) && n < |s.nodes|
    ensures |t.nodes| == |s.nodes| && t.nodes[n].next == s.nodes[n].next
  {
    assert SameNode(s.nodes[n], t.nodes[n]);
  }

  lemma SameNodesPrev(s: State, t: State, n: nat)
    requires SameNodes(s, t) && n < |s.nodes|
    ensures |t.nodes| == |s.nodes| && t.nodes[n].prev == s.nodes[n].prev
  {
    assert SameNode(s.nodes[n], t.nodes[n]);
  }

  lemma ContentPassed(s: State)
    requires |s.nodes| > 0
    ensures Passed(s, 0) == Content(s)
  {
  }

  // ---------------------------------------------------------------- removing what the walk stands on

  /** From the first node of the list, next leads to the second one, or back to the sentinel. */
  lemma FirstToSecond(s: State, p: nat)
    requires Calm(s) && WF(s) && IsLinked(s, p) && p > 0 && Content(s) != [] && Content(s)[0] == p
    ensures s.nodes[p].next == if |Content(s)| == 1 then 0 else Content(s)[1]
    ensures Without(Content(s), p) == Content(s)[1..]
  {
    hide Calm;
    CalmLinks(s);
    var q, n := s.nodes[p].next, |s.nodes|;
    RangeSplit(s.nodes, 1, p, n);
    NothingBefore(s, p);
    assert Content(s) == [p] + Range(s.nodes, p + 1, n);
    GapEmpty(s, p);
    RangeSplit(s.nodes, p + 1, if q == 0 then n else q, n);
    WithoutAbsent(Content(s)[1..], p);
  }

  lemma NothingBefore(s: State, p: nat)
    requires 0 < p < |s.nodes| && Content(s) != [] && Content(s)[0] == p
    ensures Range(s.nodes, 1, p) == [] && forall i | 1 <= i < |Content(s)| :: Content(s)[i] != p
  {
    hide Content;
    ContentMembers(s, p);
    forall i | 1 <= i < p ensures !s.nodes[i].phase.Linked? {
      ContentMembers(s, i);
    }
    RangeEmpty(s.nodes, 1, p);
  }

  lemma {:induction false} WithoutAbsent(q: seq<nat>, k: nat)
    requires k !in q
    ensures Without(q, k) == q
  {
    if q != [] {
      WithoutAbsent(q[1..], k);
    }
  }

  /** Unlinking a node leaves its own next as it was. */
  lemma PrepareKeepsNext(s: State, n: nat)
    requires Calm(s) && WF(s) && IsLinked(s, n) && n > 0
    ensures |Prepare(s, n).nodes| == |s.nodes| && Prepare(s, n).nodes[n].next == s.nodes[n].next
  {
    NotOwnNeighbour(s, n);
    hide Calm;
    var s1 := Unmarked(s, n);
    FirstHalfNext(s1);
    SecondHalfNext(FirstHalf(s1));
  }

  lemma NotOwnNeighbour(s: State, n: nat)
    requires Calm(s) && WF(s) && IsLinked(s, n) && n > 0
    ensures s.nodes[n].prev != n && s.nodes[n].next != n
  {
    assert !PrevTentative(s, n);
  }

  lemma FirstHalfNext(s: State)
    requires s.w.PrepA? && NeighboursInRange(s) && s.nodes[s.w.node].next != s.w.node
    ensures var t := FirstHalf(s);
            t.nodes[s.w.node].next == s.nodes[s.w.node].next && t.nodes[s.w.node].prev == s.nodes[s.w.node].prev
  {
  }

  lemma SecondHalfNext(s: State)
    requires s.w.PrepD? && NeighboursInRange(s) && s.nodes[s.w.node].prev != s.w.node
    ensures SecondHalf(s).nodes[s.w.node].next == s.nodes[s.w.node].next
  {
  }

  /** What begin() comes to. */
  lemma BeginsAtFirst(s: State)
    requires Calm(s) && WF(s)
    ensures s.nodes[0].next == if Content(s) == [] then 0 else Content(s)[0]
  {
    hide Calm;
    CalmLinks(s);
    var q, n := s.nodes[0].next, |s.nodes|;
    GapEmpty(s, 0);
    RangeSplit(s.nodes, 1, if q == 0 then n else q, n);
  }

  lemma FirstOfContent(s: State)
    ensures Content(s) != [] ==> Content(s)[0] > 0 && IsLinked(s, Content(s)[0])
  {
    hide Content;
    if Content(s) != [] {
      assert Content(s)[0] in Content(s);
      ContentMembers(s, Content(s)[0]);
    }
  }
}
