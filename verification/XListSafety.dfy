/**
  The invariant of the `XList` protocol holds in every run, and what follows from it.
 */
module XListSafety {
  import opened XListProtocol
  import opened XListCounts
  import opened XListInvariant
  import opened XListCountSteps
  import opened XListShapeSteps

  // ---------------------------------------------------------------- shape

  /** The writer's lines that only count. */
  predicate Counting(w: Writer) {
    w.PushA? || w.PushC? || w.PrepA? || w.PrepC? || w.PrepD? || w.PrepF? || w.PrepFalse?
  }

  lemma CountingShape(s: State)
    requires WF(s) && Shape(s) && Counting(s.w) && WF(WriterStep(s))
    ensures Shape(WriterStep(s))
  {
    assert s.w.PrepFalse? ==> !PushEarly(s.w);
    WriterNodeOK(s);
    hide Shape, WF;
    CountingKeeps(s);
    SameShape(s, WriterStep(s));
  }

  lemma WriterNodeOK(s: State)
    requires WF(s) && WriterOK(s)
    ensures WriterInRange(s)
  {
  }

  lemma CountingKeeps(s: State)
    requires WF(s) && Counting(s.w) && WriterInRange(s)
    ensures SameNodes(s, WriterStep(s)) && SameMarks(s, WriterStep(s))
    ensures SameStage(s.w, WriterStep(s).w) && WriterInRange(WriterStep(s))
  {
  }

  lemma LinkLastShape(s: State)
    requires WF(s) && Shape(s) && s.w.PushB? && WF(LinkLast(s))
    ensures Shape(LinkLast(s))
  {
    hide NextLinks, PrevLinks, WriterOK, MarksOK, HistoryOK, WF;
    LinkLastNext(s);
    LinkLastPrev(s);
    LinkLastWriter(s);
    LinkLastMarks(s);
    LinkLastHistory(s);
  }

  lemma CreateShape(s: State)
    requires WF(s) && Shape(s) && s.w.Idle? && WF(Create(s))
    ensures Shape(Create(s))
  {
    hide NextLinks, PrevLinks, WriterOK, MarksOK, HistoryOK, WF;
    CreateLinks(s);
    CreateMarks(s);
    CreateHistory(s);
  }

  lemma WriterShape(s: State)
    requires WF(s) && Shape(s) && WriterEnabled(s) && WF(WriterStep(s))
    ensures Shape(WriterStep(s))
  {
    hide Shape, WF;
    match s.w
    case PushB(_) => LinkLastShape(s);
    case PushD(_) => CloseRingShape(s);
    case PrepCopy(_) => TestErasingShape(s);
    case PrepB(_) => RedirectPrevShape(s);
    case PrepE(_) => RedirectNextShape(s);
    case PrepG(_) => LeaveTrueShape(s);
    case _ => CountingShape(s);
  }

  lemma OthersKeep(s: State, a: Action)
    requires WF(s) && Enabled(s, a) && !a.StartPush? && !a.StartPrepare? && !a.Write? && !a.Erase?
    ensures SameNodes(s, Step(s, a)) && SameMarks(s, Step(s, a)) && Step(s, a).w == s.w
  {
    hide WF, Enabled, Step, SameNodes, SameMarks;
    if a.Begin? || a.End? {
      BeginKeeps(s, a);
    } else if a.Next? || a.Prev? {
      MoveKeeps(s, a);
    } else {
      RestKeep(s, a);
    }
  }

  lemma BeginKeeps(s: State, a: Action)
    requires WF(s) && Enabled(s, a) && (a.Begin? || a.End?)
    ensures SameNodes(s, Step(s, a)) && SameMarks(s, Step(s, a)) && Step(s, a).w == s.w
  {
  }

  lemma MoveKeeps(s: State, a: Action)
    requires WF(s) && Enabled(s, a) && (a.Next? || a.Prev?)
    ensures SameNodes(s, Step(s, a)) && SameMarks(s, Step(s, a)) && Step(s, a).w == s.w
  {
  }

  lemma RestKeep(s: State, a: Action)
    requires WF(s) && Enabled(s, a) && (a.NewIter? || a.CopyInto? || a.Fini? || a.StartErase? || a.Wake?)
    ensures SameNodes(s, Step(s, a)) && SameMarks(s, Step(s, a)) && Step(s, a).w == s.w
  {
  }

  lemma EraseKeeps(s: State, n: nat)
    requires WF(s) && EraseEnabled(s, n)
    ensures SameNodes(s, EraseStep(s, n)) && SameMarks(s, EraseStep(s, n)) && EraseStep(s, n).w == s.w
  {
  }

  lemma CopyArgumentShape(s: State, n: nat)
    requires WF(s) && Shape(s) && s.w.Idle? && 0 < n < |s.nodes| && WF(CopyArgument(s, n))
    ensures Shape(CopyArgument(s, n))
  {
    var t := CopyArgument(s, n);
    JoinedWhenIdle(s, n);
    hide Shape, WF;
    CopyArgumentKeeps(s, n);
    SameShape(s, t);
  }

  lemma JoinedWhenIdle(s: State, n: nat)
    requires WF(s) && MarksOK(s) && s.w.Idle? && n < |s.nodes|
    ensures !s.nodes[n].phase.New?
  {
  }

  lemma CopyArgumentKeeps(s: State, n: nat)
    requires s.w.Idle? && 0 < n < |s.nodes| && !s.nodes[n].phase.New?
    ensures SameNodes(s, CopyArgument(s, n)) && SameMarks(s, CopyArgument(s, n))
    ensures SameStage(s.w, CopyArgument(s, n).w) && WriterInRange(CopyArgument(s, n))
  {
  }

  lemma WriterInRangeKept(s: State, t: State)
    requires WriterInRange(s) && SameNodes(s, t) && s.w == t.w
    ensures WriterInRange(t)
  {
    assert forall n | 0 <= n < |s.nodes| :: SameNode(s.nodes[n], t.nodes[n]);
  }

  lemma ShapeStep(s: State, a: Action)
    requires WF(s) && Shape(s) && Enabled(s, a) && WF(Step(s, a))
    ensures Shape(Step(s, a))
  {
    WriterNodeOK(s);
    hide Shape, WF, Create, CopyArgument, WriterStep, EraseStep, WriterInRange, SameNodes, SameMarks;
    match a
    case StartPush => CreateShape(s);
    case StartPrepare(i) => CopyArgumentShape(s, s.iters[i]);
    case Write => WriterShape(s);
    case Erase(n) =>
      EraseKeeps(s, n);
      WriterInRangeKept(s, EraseStep(s, n));
      SameShape(s, EraseStep(s, n));
    case _ =>
      OthersKeep(s, a);
      WriterInRangeKept(s, Step(s, a));
      SameShape(s, Step(s, a));
  }

  // ---------------------------------------------------------------- waiters

  lemma BumpWaiters(s: State, m: nat)
    requires WF(s) && WaitersOK(s) && m < |s.nodes| && !Freed(s.nodes[m].phase)
    ensures WF(Bump(s, m)) && WaitersOK(Bump(s, m))
  {
  }

  /** No count is dropped on a node whose waiter is between its test and its sleep. */
  lemma DropWaiters(s: State, m: nat)
    requires WF(s) && WaitersOK(s) && m < |s.nodes| && !Freed(s.nodes[m].phase) && LockFree(s, m)
    ensures WF(Drop(s, m)) && WaitersOK(Drop(s, m))
  {
  }

  lemma SetPhaseWaiters(s: State, m: nat, p: Phase)
    requires WF(s) && WaitersOK(s) && m < |s.nodes|
    requires Freed(p) ==> s.nodes[m].usage == 0
    requires p.Checked? || p.Asleep? ==> s.nodes[m].usage > 0
    ensures WF(SetPhase(s, m, p)) && WaitersOK(SetPhase(s, m, p))
  {
  }

  ghost predicate SameWaiters(s: State, t: State) {
    |s.nodes| == |t.nodes| && forall n | 0 <= n < |s.nodes| :: SameWaiter(s.nodes[n], t.nodes[n])
  }

  predicate SameWaiter(a: Node, b: Node) {
    a.usage == b.usage && (a.phase == b.phase || (Unwaited(a.phase) && Unwaited(b.phase)))
  }

  predicate Unwaited(p: Phase) { !Freed(p) && !p.Checked? && !p.Asleep? }

  lemma SameWaitersOK(s: State, t: State)
    requires WF(s) && WF(t) && SameWaiters(s, t) && WaitersOK(s)
    ensures WaitersOK(t)
  {
    forall n | 0 <= n < |t.nodes| ensures SameWaiter(s.nodes[n], t.nodes[n]) {}
  }

  lemma MoveWaiters(s: State, i: nat, to: nat)
    requires Inv(s) && i < |s.iters| && s.iters[i] != NULL && LockFree(s, s.iters[i]) && to < |s.nodes|
    requires Ref(s.nodes[s.iters[i]], to) > 0
    ensures WF(Move(s, i, to)) && WaitersOK(Move(s, i, to))
  {
    IterHolds(s, i);
    PointerHolds(s, s.iters[i], to);
    hide Shape, Conserved;
    var s1 := Drop(s, s.iters[i]);
    DropWaiters(s, s.iters[i]);
    assert !Freed(s1.nodes[to].phase);
    BumpWaiters(s1, to);
    SameWaitersOK(Bump(s1, to), Move(s, i, to));
  }

  lemma EnterWaiters(s: State, i: nat, to: nat)
    requires WF(s) && WaitersOK(s) && i < |s.iters| && to < |s.nodes| && !Freed(s.nodes[to].phase)
    ensures WF(Enter(s, i, to)) && WaitersOK(Enter(s, i, to))
  {
    BumpWaiters(s, to);
    SameWaitersOK(Bump(s, to), Enter(s, i, to));
  }

  lemma LeaveWaiters(s: State, i: nat)
    requires Inv(s) && i < |s.iters| && (s.iters[i] == NULL || LockFree(s, s.iters[i]))
    ensures WF(Leave(s, i)) && WaitersOK(Leave(s, i))
  {
    if s.iters[i] != NULL {
      IterHolds(s, i);
      hide Shape, Conserved;
      LeaveNodeWaiters(s, i);
    }
  }

  lemma LeaveNodeWaiters(s: State, i: nat)
    requires WF(s) && WaitersOK(s) && i < |s.iters| && s.iters[i] != NULL
    requires LockFree(s, s.iters[i]) && !Freed(s.nodes[s.iters[i]].phase)
    ensures WF(Leave(s, i)) && WaitersOK(Leave(s, i))
  {
    DropWaiters(s, s.iters[i]);
    SameWaitersOK(Drop(s, s.iters[i]), Leave(s, i));
  }

  lemma ReaderWaiters(s: State, a: Action)
    requires Inv(s) && Enabled(s, a)
    requires a.NewIter? || a.CopyInto? || a.Begin? || a.End? || a.Next? || a.Prev? || a.Fini?
    ensures WF(Step(s, a)) && WaitersOK(Step(s, a))
  {
    StepWF(s, a);
    SentinelLinked(s);
    FirstLinked(s);
    if (a.Next? || a.Prev?) {
      IterHolds(s, a.i);
    }
    if a.CopyInto? && s.iters[a.j] != NULL {
      IterHolds(s, a.j);
    }
    hide Shape, Conserved, WF, WaitersOK, Move, Enter, Leave;
    match a
    case NewIter => NewIterWaiters(s);
    case CopyInto(i, j) =>
      if s.iters[j] != NULL {
        EnterWaiters(s, i, s.iters[j]);
      }
    case Begin(i) => EnterWaiters(s, i, s.nodes[0].next);
    case End(i) => EnterWaiters(s, i, 0);
    case Next(i) => MoveWaiters(s, i, s.nodes[s.iters[i]].next);
    case Prev(i) => MoveWaiters(s, i, s.nodes[s.iters[i]].prev);
    case Fini(i) => LeaveWaiters(s, i);
  }

  lemma NewIterWaiters(s: State)
    requires WF(s) && WaitersOK(s)
    ensures WaitersOK(s.(iters := s.iters + [NULL]))
  {
  }

  lemma FirstLinked(s: State)
    requires WF(s) && NextLinks(s)
    ensures s.nodes[s.nodes[0].next].phase.Linked?
  {
    assert IsLinked(s, 0);
  }

  // ---------------------------------------------------------------- waiters and the writer

  lemma CopyArgumentWaiters(s: State, n: nat)
    requires WF(s) && WaitersOK(s) && n < |s.nodes| && !Freed(s.nodes[n].phase)
    ensures WF(CopyArgument(s, n)) && WaitersOK(CopyArgument(s, n))
  {
    BumpWaiters(s, n);
    SameWaitersOK(Bump(s, n), CopyArgument(s, n));
  }

  /** The node that each counting line of the writer touches. */
  function Touched(s: State): nat
    requires WF(s) && !s.w.Idle?
  {
    if s.w.PrepA? then s.nodes[s.w.node].prev
    else if s.w.PrepD? then s.nodes[s.w.node].next
    else s.w.node
  }

  lemma TouchedHeld(s: State)
    requires Inv(s) && !s.w.Idle? && WriterEnabled(s)
    ensures !Freed(s.nodes[Touched(s)].phase) && (s.w.PrepG? || Counting(s.w) ==> LockFree(s, Touched(s)))
  {
    if s.w.PrepA? {
      PredecessorOf(s);
    } else if s.w.PrepD? {
      assert IsLinked(s, s.w.node);
    } else if s.w.PrepCopy? || s.w.PrepFalse? {
      CountPositiveArgument(s);
    }
  }

  lemma CountPositiveArgument(s: State)
    requires Inv(s) && (s.w.PrepCopy? || s.w.PrepFalse?)
    ensures !Freed(s.nodes[s.w.node].phase)
  {
    CountPositive(s, s.w.node);
  }

  lemma WriterWaiters(s: State)
    requires Inv(s) && WriterEnabled(s) && WF(WriterStep(s))
    ensures WaitersOK(WriterStep(s))
  {
    TouchedHeld(s);
    NewNodeUnwaited(s);
    hide Shape, Conserved;
    var m := Touched(s);
    if s.w.PushA? || s.w.PushC? || s.w.PrepA? || s.w.PrepD? {
      BumpWaiters(s, m);
      SameWaitersOK(Bump(s, m), WriterStep(s));
    } else if s.w.PrepC? || s.w.PrepF? || s.w.PrepG? || s.w.PrepFalse? {
      DropWaiters(s, m);
      DroppedWaiters(s);
      SameWaitersOK(Drop(s, m), WriterStep(s));
    } else {
      RelinkedWaiters(s);
      SameWaitersOK(s, WriterStep(s));
    }
  }

  lemma NewNodeUnwaited(s: State)
    requires WF(s) && WriterOK(s)
    ensures s.w.PushB? ==> s.nodes[s.w.node].phase.New?
    ensures s.w.PrepE? ==> s.nodes[s.w.node].phase.Linked?
    ensures s.w.PrepG? ==> s.nodes[s.w.node].phase.Unlinking?
  {
  }

  lemma DroppedWaiters(s: State)
    requires WF(s) && (s.w.PrepC? || s.w.PrepF? || s.w.PrepG? || s.w.PrepFalse?)
    requires s.w.PrepG? ==> s.nodes[s.w.node].phase.Unlinking?
    ensures SameWaiters(Drop(s, s.w.node), WriterStep(s))
  {
  }

  lemma RelinkedWaiters(s: State)
    requires WF(s) && (s.w.PushB? || s.w.PushD? || s.w.PrepCopy? || s.w.PrepB? || s.w.PrepE?)
    requires s.w.PushB? ==> s.nodes[s.w.node].phase.New?
    requires s.w.PrepE? ==> s.nodes[s.w.node].phase.Linked?
    ensures SameWaiters(s, WriterStep(s))
  {
  }

  // ---------------------------------------------------------------- waiters and xerase

  lemma TakeOverWaiters(s: State, i: nat)
    requires WF(s) && WaitersOK(s) && i < |s.iters| && s.iters[i] > 0 && s.nodes[s.iters[i]].phase.Prepared?
    ensures WF(TakeOver(s, i)) && WaitersOK(TakeOver(s, i))
  {
    var k := s.iters[i];
    BumpWaiters(s, k);
    SetPhaseWaiters(Bump(s, k), k, XCopied);
    SameWaitersOK(SetPhase(Bump(s, k), k, XCopied), TakeOver(s, i));
  }

  lemma GiveBackWaiters(s: State, n: nat, m: nat, p: Phase)
    requires Inv(s) && n < |s.nodes| && m < |s.nodes| && Freed(s.nodes[n].phase) && Freed(p)
    requires Ref(s.nodes[n], m) > 0 && LockFree(s, m)
    ensures WF(GiveBack(s, n, m, p)) && WaitersOK(GiveBack(s, n, m, p))
  {
    PointerHolds(s, n, m);
    hide Shape, Conserved;
    DropWaiters(s, m);
    SetPhaseWaiters(Drop(s, m), n, p);
  }

  lemma CheckUsageWaiters(s: State, n: nat)
    requires Inv(s) && n < |s.nodes| && s.nodes[n].phase.WaitLock?
    ensures WF(CheckUsage(s, n)) && WaitersOK(CheckUsage(s, n))
  {
    assert IsUnlinked(s, n);
    UsageNonNegative(s, n);
    hide Shape, Conserved;
    SetPhaseWaiters(s, n, if s.nodes[n].usage > 0 then Checked else OwesBoth);
  }

  /** The unsigned `usageNO` of a data node never wraps below zero. */
  lemma UsageNonNegative(s: State, n: nat)
    requires Inv(s) && 0 < n < |s.nodes|
    ensures s.nodes[n].usage >= 0
  {
    RestNonNegative(s, n);
    hide Shape;
    assert Balance(s, n) == WriterCredit(s, n);
  }

  lemma ReleaseAsWaiters(s: State, n: nat, p: Phase)
    requires WF(s) && WaitersOK(s) && n < |s.nodes| && (s.nodes[n].phase.XCopied? || s.nodes[n].phase.XReleased?)
    requires Unwaited(p)
    ensures WF(ReleaseAs(s, n, p)) && WaitersOK(ReleaseAs(s, n, p))
  {
    DropWaiters(s, n);
    SetPhaseWaiters(Drop(s, n), n, p);
  }

  lemma EraseWaiters(s: State, n: nat)
    requires Inv(s) && EraseEnabled(s, n)
    ensures WF(EraseStep(s, n)) && WaitersOK(EraseStep(s, n))
  {
    hide Shape, Conserved, ReleaseAs, CheckUsage, GiveBack;
    match s.nodes[n].phase
    case XCopied => ReleaseAsWaiters(s, n, XReleased);
    case XReleased => ReleaseAsWaiters(s, n, WaitLock);
    case WaitLock => CheckUsageWaiters(s, n);
    case Checked => SetPhaseWaiters(s, n, Asleep);
    case OwesBoth => GiveBackWaiters(s, n, s.nodes[n].next, OwesPrev);
    case OwesPrev => GiveBackWaiters(s, n, s.nodes[n].prev, Gone);
  }

  lemma CreateWaiters(s: State)
    requires WF(s) && WaitersOK(s) && WF(Create(s))
    ensures WaitersOK(Create(s))
  {
  }

  lemma WaitersStep(s: State, a: Action)
    requires Inv(s) && Enabled(s, a)
    ensures WF(Step(s, a)) && WaitersOK(Step(s, a))
  {
    StepWF(s, a);
    if a.StartPrepare? {
      IterHolds(s, a.i);
    }
    hide Shape, Conserved, WaitersOK, Create, CopyArgument, WriterStep, EraseStep, TakeOver;
    match a
    case StartPush => CreateWaiters(s);
    case StartPrepare(i) => CopyArgumentWaiters(s, s.iters[i]);
    case Write => WriterWaiters(s);
    case StartErase(i) => TakeOverWaiters(s, i);
    case Erase(n) => EraseWaiters(s, n);
    case Wake(n) => SetPhaseWaiters(s, n, WaitLock);
    case _ => ReaderWaiters(s, a);
  }

  // ---------------------------------------------------------------- runs

  /** Every step of every thread keeps the invariant. */
  lemma InvStep(s: State, a: Action)
    requires Inv(s) && Enabled(s, a)
    ensures Inv(Step(s, a))
  {
    hide Shape, Conserved, WaitersOK, WF, Step, Enabled;
    StepWF(s, a);
    ShapeStep(s, a);
    ConservedStep(s, a);
    WaitersStep(s, a);
  }

  /** A run from the empty list: any interleaving of any threads' steps. */
  ghost predicate IsRun(states: seq<State>, acts: seq<Action>) {
    && |states| == |acts| + 1
    && states[0] == Init()
    && forall i | 0 <= i < |acts| :: Follows(states[i], acts[i], states[i + 1])
  }

  ghost predicate Follows(s: State, a: Action, t: State) {
    WF(s) && Enabled(s, a) && t == Step(s, a)
  }

  /** The invariant holds at every point of every run. */
  lemma {:induction false} RunInv(states: seq<State>, acts: seq<Action>, i: nat)
    requires IsRun(states, acts) && i < |states|
    ensures Inv(states[i])
  {
    if i == 0 {
      InitInv();
    } else {
      RunInv(states, acts, i - 1);
      assert Follows(states[i - 1], acts[i - 1], states[i - 1 + 1]);
      InvStep(states[i - 1], acts[i - 1]);
    }
  }
}
