/**
  Every step of the `XList` protocol conserves the reference counts.
 */
module XListCountSteps {
  import opened XListProtocol
  import opened XListCounts
  import opened XListInvariant

  predicate InRange(s: State) {
    |s.nodes| > 0 && (s.w.Idle? || s.w.node < |s.nodes|)
  }

  /** What `Conserved` says of one node. */
  ghost predicate At(s: State, n: nat)
    requires InRange(s) && n < |s.nodes|
  {
    Balance(s, n) == WriterCredit(s, n)
  }

  // ---------------------------------------------------------------- iterator operations

  lemma MoveCounts(s: State, i: nat, to: nat, n: nat)
    requires i < |s.iters| && 0 <= s.iters[i] < |s.nodes| && to < |s.nodes| && n < |s.nodes|
    ensures Balance(Move(s, i, to), n) == Balance(s, n)
  {
    var s1 := Drop(s, s.iters[i]);
    BalDrop(s, s.iters[i], n);
    BalBump(s1, to, n);
    BalIter(Bump(s1, to), i, to, n);
  }

  lemma EnterCounts(s: State, i: nat, to: nat, n: nat)
    requires i < |s.iters| && s.iters[i] == NULL && to < |s.nodes| && n < |s.nodes|
    ensures Balance(Enter(s, i, to), n) == Balance(s, n)
  {
    BalBump(s, to, n);
    BalIter(Bump(s, to), i, to, n);
  }

  lemma LeaveCounts(s: State, i: nat, n: nat)
    requires i < |s.iters| && s.iters[i] < |s.nodes| && n < |s.nodes|
    ensures Balance(Leave(s, i), n) == Balance(s, n)
  {
    if s.iters[i] >= 0 {
      BalDrop(s, s.iters[i], n);
      BalIter(Drop(s, s.iters[i]), i, NULL, n);
    }
  }

  // ---------------------------------------------------------------- push_back

  lemma CreateCounts(s: State, n: nat)
    requires WF(s) && s.w.Idle? && n <= |s.nodes|
    requires n < |s.nodes| ==> At(s, n)
    ensures At(Create(s), n)
  {
    FreshUnreferenced(s);
    BalCreate(s, n);
  }

  lemma CountNewCounts(s: State, n: nat)
    requires InRange(s) && s.w.PushA? && n < |s.nodes| && At(s, n)
    ensures At(CountNew(s), n)
  {
    BalBump(s, s.w.node, n);
  }

  lemma LinkLastCounts(s: State, n: nat)
    requires WF(s) && NextLinks(s) && PrevLinks(s) && WriterOK(s) && s.w.PushB?
    requires n < |s.nodes| && At(s, n)
    ensures At(LinkLast(s), n)
  {
    LastNode(s);
    LinkLastAt(s, n);
  }

  lemma LinkLastAt(s: State, n: nat)
    requires InRange(s) && s.w.PushB? && n < |s.nodes| && At(s, n)
    requires s.nodes[s.w.node].phase.New? && s.nodes[s.w.node].prev == s.nodes[0].prev < |s.nodes|
    requires s.nodes[s.nodes[0].prev].phase.Linked? && s.nodes[s.nodes[0].prev].next == 0
    ensures At(LinkLast(s), n)
  {
    var last := s.nodes[0].prev;
    var s1 := SetNext(s, last, s.w.node);
    BalNext(s, last, s.w.node, n);
    BalPhase(s1, s.w.node, Linked, n);
    assert Balance(SetPhase(s1, s.w.node, Linked), n) == Balance(LinkLast(s), n);
  }

  /** The node that push_back joins the new one to ends the list. */
  lemma LastNode(s: State)
    requires WF(s) && NextLinks(s) && PrevLinks(s) && !PushLate(s.w) && !PrepMiddle(s.w)
    ensures IsLinked(s, s.nodes[0].prev) && s.nodes[s.nodes[0].prev].next == 0
  {
    assert IsLinked(s, 0) && !PrevTentative(s, 0);
  }

  lemma CountNewAgainCounts(s: State, n: nat)
    requires InRange(s) && s.w.PushC? && n < |s.nodes| && At(s, n)
    ensures At(CountNewAgain(s), n)
  {
    BalBump(s, s.w.node, n);
  }

  lemma CloseRingCounts(s: State, n: nat)
    requires InRange(s) && s.w.PushD? && n < |s.nodes| && At(s, n)
    requires s.nodes[0].phase.Linked? && s.nodes[0].prev == s.nodes[s.w.node].prev
    ensures At(CloseRing(s), n)
  {
    BalPrev(s, 0, s.w.node, n);
  }

  // ---------------------------------------------------------------- xerase_prepare

  lemma CopyArgumentCounts(s: State, k: nat, n: nat)
    requires InRange(s) && s.w.Idle? && k < |s.nodes| && n < |s.nodes| && At(s, n)
    ensures At(CopyArgument(s, k), n)
  {
    BalBump(s, k, n);
  }

  lemma TestErasingCounts(s: State, n: nat)
    requires InRange(s) && s.w.PrepCopy? && n < |s.nodes| && At(s, n)
    ensures At(TestErasing(s), n)
  {
    BalMark(s, s.w.node, s.nodes[s.w.node].(erasing := true), n);
  }

  lemma CountPrevCounts(s: State, n: nat)
    requires InRange(s) && s.w.PrepA? && s.nodes[s.w.node].prev < |s.nodes| && n < |s.nodes| && At(s, n)
    ensures At(CountPrev(s), n)
  {
    BalBump(s, s.nodes[s.w.node].prev, n);
  }

  lemma RedirectPrevCounts(s: State, n: nat)
    requires WF(s) && NextLinks(s) && PrevLinks(s) && WriterOK(s) && s.w.PrepB?
    requires n < |s.nodes| && At(s, n)
    ensures At(RedirectPrev(s), n)
  {
    SuccessorOf(s);
    RedirectPrevAt(s, n);
  }

  lemma RedirectPrevAt(s: State, n: nat)
    requires InRange(s) && s.w.PrepB? && n < |s.nodes| && At(s, n)
    requires s.nodes[s.w.node].next < |s.nodes| && s.nodes[s.nodes[s.w.node].next].phase.Linked?
    requires s.nodes[s.nodes[s.w.node].next].prev == s.w.node && s.nodes[s.w.node].next != s.w.node
    ensures At(RedirectPrev(s), n)
  {
    BalPrev(s, s.nodes[s.w.node].next, s.nodes[s.w.node].prev, n);
  }

  /** Before next.prev is redirected it points at the node being unlinked. */
  lemma SuccessorOf(s: State)
    requires WF(s) && NextLinks(s) && PrevLinks(s) && WriterOK(s) && (s.w.PrepA? || s.w.PrepB?)
    ensures IsLinked(s, s.nodes[s.w.node].next)
    ensures s.nodes[s.nodes[s.w.node].next].prev == s.w.node
    ensures s.nodes[s.w.node].next != s.w.node
  {
    var c := s.nodes[s.w.node].next;
    assert IsLinked(s, s.w.node);
    assert IsLinked(s, c) && !PrevTentative(s, c);
    assert IsLinked(s, s.nodes[c].prev);
  }

  lemma ReleaseOnceCounts(s: State, n: nat)
    requires InRange(s) && s.w.PrepC? && n < |s.nodes| && At(s, n)
    ensures At(ReleaseOnce(s), n)
  {
    BalDrop(s, s.w.node, n);
  }

  lemma CountNextCounts(s: State, n: nat)
    requires InRange(s) && s.w.PrepD? && s.nodes[s.w.node].next < |s.nodes| && n < |s.nodes| && At(s, n)
    ensures At(CountNext(s), n)
  {
    BalBump(s, s.nodes[s.w.node].next, n);
  }

  lemma RedirectNextCounts(s: State, n: nat)
    requires WF(s) && NextLinks(s) && PrevLinks(s) && WriterOK(s) && s.w.PrepE?
    requires n < |s.nodes| && At(s, n)
    ensures At(RedirectNext(s), n)
  {
    PredecessorOf(s);
    RedirectNextAt(s, n);
  }

  lemma RedirectNextAt(s: State, n: nat)
    requires InRange(s) && s.w.PrepE? && n < |s.nodes| && At(s, n)
    requires s.nodes[s.w.node].phase.Linked? && s.nodes[s.w.node].prev < |s.nodes|
    requires s.nodes[s.nodes[s.w.node].prev].phase.Linked? && s.nodes[s.nodes[s.w.node].prev].next == s.w.node
    requires s.nodes[s.w.node].prev != s.w.node
    ensures At(RedirectNext(s), n)
  {
    var k := s.w.node;
    var p := s.nodes[k].prev;
    var s1 := SetNext(s, p, s.nodes[k].next);
    BalNext(s, p, s.nodes[k].next, n);
    var nd := s1.nodes[k].(phase := Unlinking, stamp := s.unlinks, horizon := |s.nodes|);
    BalMark(s1, k, nd, n);
    assert Balance(RedirectNext(s), n) == Balance(s1.(nodes := s1.nodes[k := nd]), n);
  }

  /** The predecessor of the node being unlinked is linked and points at it. */
  lemma PredecessorOf(s: State)
    requires WF(s) && NextLinks(s) && PrevLinks(s) && WriterOK(s) && PrepEarly(s.w)
    ensures IsLinked(s, s.nodes[s.w.node].prev)
    ensures s.nodes[s.nodes[s.w.node].prev].next == s.w.node
    ensures s.nodes[s.w.node].prev != s.w.node && s.nodes[s.w.node].next != s.w.node
  {
    assert IsLinked(s, s.w.node) && !PrevTentative(s, s.w.node);
  }

  lemma ReleaseTwiceCounts(s: State, n: nat)
    requires InRange(s) && s.w.PrepF? && n < |s.nodes| && At(s, n)
    ensures At(ReleaseTwice(s), n)
  {
    BalDrop(s, s.w.node, n);
  }

  lemma LeaveTrueCounts(s: State, n: nat)
    requires InRange(s) && s.w.PrepG? && s.nodes[s.w.node].phase.Unlinking? && n < |s.nodes| && At(s, n)
    ensures At(LeaveTrue(s), n)
  {
    BalDrop(s, s.w.node, n);
    BalPhase(Drop(s, s.w.node), s.w.node, Prepared, n);
  }

  lemma LeaveFalseCounts(s: State, n: nat)
    requires InRange(s) && s.w.PrepFalse? && n < |s.nodes| && At(s, n)
    ensures At(LeaveFalse(s), n)
  {
    BalDrop(s, s.w.node, n);
  }

  lemma WriterCounts(s: State, n: nat)
    requires WF(s) && NextLinks(s) && PrevLinks(s) && WriterOK(s) && WriterEnabled(s)
    requires n < |s.nodes| && At(s, n)
    ensures InRange(WriterStep(s)) && n < |WriterStep(s).nodes| && At(WriterStep(s), n)
  {
    WriterWF(s);
    hide At;
    match s.w
    case PushA(_) => CountNewCounts(s, n);
    case PushB(_) => LinkLastCounts(s, n);
    case PushC(_) => CountNewAgainCounts(s, n);
    case PushD(_) => CloseRingCounts(s, n);
    case PrepCopy(_) => TestErasingCounts(s, n);
    case PrepFalse(_) => LeaveFalseCounts(s, n);
    case PrepA(_) => CountPrevCounts(s, n);
    case PrepB(_) => RedirectPrevCounts(s, n);
    case PrepC(_) => ReleaseOnceCounts(s, n);
    case PrepD(_) => CountNextCounts(s, n);
    case PrepE(_) => RedirectNextCounts(s, n);
    case PrepF(_) => ReleaseTwiceCounts(s, n);
    case PrepG(_) => LeaveTrueCounts(s, n);
  }

  // ---------------------------------------------------------------- xerase

  lemma TakeOverCounts(s: State, i: nat, n: nat)
    requires i < |s.iters| && 0 <= s.iters[i] < |s.nodes| && s.nodes[s.iters[i]].phase.Prepared? && n < |s.nodes|
    ensures Balance(TakeOver(s, i), n) == Balance(s, n)
  {
    var k := s.iters[i];
    BalBump(s, k, n);
    BalPhase(Bump(s, k), k, XCopied, n);
    BalIter(SetPhase(Bump(s, k), k, XCopied), i, NULL, n);
  }

  lemma EraseCounts(s: State, k: nat, n: nat)
    requires WF(s) && EraseEnabled(s, k) && n < |s.nodes|
    ensures Balance(EraseStep(s, k), n) == Balance(s, n)
  {
    hide Balance;
    match s.nodes[k].phase
    case XCopied =>
      BalDrop(s, k, n);
      BalPhase(Drop(s, k), k, XReleased, n);
    case XReleased =>
      BalDrop(s, k, n);
      BalPhase(Drop(s, k), k, WaitLock, n);
    case WaitLock => BalPhase(s, k, if s.nodes[k].usage > 0 then Checked else OwesBoth, n);
    case Checked => BalPhase(s, k, Asleep, n);
    case OwesBoth =>
      BalDrop(s, s.nodes[k].next, n);
      BalPhase(Drop(s, s.nodes[k].next), k, OwesPrev, n);
    case OwesPrev =>
      BalDrop(s, s.nodes[k].prev, n);
      BalPhase(Drop(s, s.nodes[k].prev), k, Gone, n);
  }

  // ---------------------------------------------------------------- all steps

  lemma CreditSame(s: State, t: State, n: nat)
    requires InRange(s) && InRange(t) && SamePointers(s, t)
    ensures WriterCredit(t, n) == WriterCredit(s, n)
  {
  }

  lemma ConservedAt(s: State, a: Action, n: nat)
    requires WF(s) && NextLinks(s) && PrevLinks(s) && WriterOK(s) && Enabled(s, a)
    requires WF(Step(s, a)) && n < |Step(s, a).nodes|
    requires n < |s.nodes| ==> At(s, n)
    ensures At(Step(s, a), n)
  {
    hide WriterStep, EraseStep, NextLinks, PrevLinks, WriterOK, Move, Enter, Leave, TakeOver, At, Create, CopyArgument;
    StepWF(s, a);
    match a
    case StartPush => CreateCounts(s, n);
    case StartPrepare(i) => CopyArgumentCounts(s, s.iters[i], n);
    case Write => WriterCounts(s, n);
    case _ => OthersCount(s, a, n);
  }

  /** Iterator operations and pending erases leave every balance and the writer's credit alone. */
  lemma OthersCount(s: State, a: Action, n: nat)
    requires WF(s) && Enabled(s, a) && !a.StartPush? && !a.StartPrepare? && !a.Write?
    requires n < |s.nodes| && At(s, n)
    requires WF(Step(s, a)) && n < |Step(s, a).nodes|
    ensures At(Step(s, a), n)
  {
    PointersKept(s, a);
    hide Step, Enabled, WF;
    CreditSame(s, Step(s, a), n);
    OthersBalance(s, a, n);
  }

  lemma OthersBalance(s: State, a: Action, n: nat)
    requires WF(s) && Enabled(s, a) && !a.StartPush? && !a.StartPrepare? && !a.Write?
    requires n < |s.nodes| && n < |Step(s, a).nodes|
    ensures Balance(Step(s, a), n) == Balance(s, n)
  {
    hide Balance, EraseStep, WriterStep, Move, Enter, Leave, TakeOver;
    match a
    case NewIter => BalNewIter(s, n);
    case CopyInto(i, j) =>
      if s.iters[j] != NULL {
        EnterCounts(s, i, s.iters[j], n);
      }
    case Begin(i) => EnterCounts(s, i, s.nodes[0].next, n);
    case End(i) => EnterCounts(s, i, 0, n);
    case Next(i) => MoveCounts(s, i, s.nodes[s.iters[i]].next, n);
    case Prev(i) => MoveCounts(s, i, s.nodes[s.iters[i]].prev, n);
    case Fini(i) => LeaveCounts(s, i, n);
    case StartErase(i) => TakeOverCounts(s, i, n);
    case Erase(k) => EraseCounts(s, k, n);
    case Wake(k) => BalPhase(s, k, WaitLock, n);
  }

  ghost predicate SamePointers(s: State, t: State) {
    && |t.nodes| == |s.nodes| && t.w == s.w
    && forall m | 0 <= m < |s.nodes| :: t.nodes[m].next == s.nodes[m].next && t.nodes[m].prev == s.nodes[m].prev
  }

  /** Only the writer changes pointers. */
  lemma PointersKept(s: State, a: Action)
    requires WF(s) && Enabled(s, a) && !a.StartPush? && !a.StartPrepare? && !a.Write?
    ensures SamePointers(s, Step(s, a))
  {
    hide EraseStep;
    if a.Erase? {
      ErasePointersKept(s, a.n);
    }
  }

  lemma ErasePointersKept(s: State, n: nat)
    requires WF(s) && EraseEnabled(s, n)
    ensures SamePointers(s, EraseStep(s, n))
  {
  }

  /** Reference-count conservation is kept by every step of every thread. */
  lemma ConservedStep(s: State, a: Action)
    requires Inv(s) && Enabled(s, a)
    ensures WF(Step(s, a)) && Conserved(Step(s, a))
  {
    StepWF(s, a);
    hide Step, Enabled, NextLinks, PrevLinks, WriterOK, MarksOK, HistoryOK, WaitersOK;
    forall n | 0 <= n < |Step(s, a).nodes|
      ensures At(Step(s, a), n)
    {
      assert n < |s.nodes| ==> At(s, n);
      ConservedAt(s, a, n);
    }
    AtAll(Step(s, a));
  }

  lemma AtAll(t: State)
    requires WF(t) && forall n | 0 <= n < |t.nodes| :: At(t, n)
    ensures Conserved(t)
  {
    forall n | 0 <= n < |t.nodes| ensures Balance(t, n) == WriterCredit(t, n) {
      assert At(t, n);
    }
  }
}
