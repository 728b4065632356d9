/**
  What the invariant of the `XList` protocol means for memory: freed nodes are
  referenced by nothing and touched by nothing, zero is final, no wake-up is lost,
  and unlinked nodes are frozen.
 */
module XListMemory {
  import opened XListProtocol
  import opened XListCounts
  import opened XListInvariant
  import opened XListCountSteps
  import opened XListShapeSteps
  import opened XListSafety

  /** next/prev fields of nodes that have not been freed and that point at `n`. */
  function UnfreedRefs(nodes: seq<Node>, n: nat): nat {
    if nodes == [] then 0
    else
      var last := nodes[|nodes| - 1];
      UnfreedRefs(nodes[..|nodes| - 1], n)
      + if Freed(last.phase) then 0 else (if last.next == n then 1 else 0) + (if last.prev == n then 1 else 0)
  }

  lemma {:induction false} UnfreedAtMost(nodes: seq<Node>, n: nat)
    ensures UnfreedRefs(nodes, n) <= Refs(nodes, n)
    ensures (forall i | 0 <= i < |nodes| :: !nodes[i].phase.OwesBoth? && !nodes[i].phase.OwesPrev?) ==>
              UnfreedRefs(nodes, n) == Refs(nodes, n)
  {
    if nodes != [] {
      UnfreedAtMost(nodes[..|nodes| - 1], n);
      assert forall i | 0 <= i < |nodes| - 1 :: nodes[..|nodes| - 1][i] == nodes[i];
    }
  }

  predicate AtRest(s: State) {
    && s.w.Idle?
    && forall i | 0 <= i < |s.nodes| ::
         !s.nodes[i].phase.OwesBoth? && !s.nodes[i].phase.OwesPrev?
         && !s.nodes[i].phase.XCopied? && !s.nodes[i].phase.XReleased?
  }

  /** Whenever no operation is in flight, a node's usageNO is the number of iterators on it plus the
      number of pointers to it from unfreed nodes; the sentinel's is two less. */
  lemma CountsAtRest(s: State, n: nat)
    requires Inv(s) && AtRest(s) && n < |s.nodes|
    ensures s.nodes[n].usage == Iters(s, n) + UnfreedRefs(s.nodes, n) - if n == 0 then 2 else 0
  {
    UnfreedAtMost(s.nodes, n);
    hide Shape, WaitersOK;
    assert Balance(s, n) == WriterCredit(s, n);
  }

  /** No iterator stands on a freed node and no unfreed node points at it. */
  lemma FreedUnreferenced(s: State, n: nat)
    requires Inv(s) && n < |s.nodes| && Freed(s.nodes[n].phase)
    ensures Iters(s, n) == 0 && UnfreedRefs(s.nodes, n) == 0
    ensures n !in s.iters
  {
    assert IsUnlinked(s, n);
    UnfreedAtMost(s.nodes, n);
    assert Balance(s, n) == WriterCredit(s, n);
    WriterFacts(s);
    assert PushLate(s.w) ==> s.nodes[s.w.node].prev == s.nodes[0].prev && s.nodes[s.nodes[0].prev].phase.Linked?;
    CreditNonNegative(s, n);
    hide *;
    SettledUnreferenced(s, n);
  }

  lemma SettledUnreferenced(s: State, n: nat)
    requires 0 < n < |s.nodes| && InRange(s) && Freed(s.nodes[n].phase) && s.nodes[n].usage == 0
    requires UnfreedRefs(s.nodes, n) <= Refs(s.nodes, n)
    requires WriterCredit(s, n) >= 0 && Balance(s, n) == WriterCredit(s, n)
    ensures Iters(s, n) == 0 && UnfreedRefs(s.nodes, n) == 0
    ensures n !in s.iters
  {
  }

  // ---------------------------------------------------------------- no use after free

  /** The nodes whose memory the writer's next line reads or writes. */
  function WriterTouches(s: State): set<nat>
    requires WF(s) && !s.w.Idle?
  {
    var nd := s.nodes[s.w.node];
    match s.w
    case PushB(k) => {k, 0, s.nodes[0].prev}
    case PushD(k) => {0}
    case PrepA(k) => {k, nd.prev}
    case PrepB(k) => {k, nd.next}
    case PrepD(k) => {k, nd.next}
    case PrepE(k) => {k, nd.prev}
    case _ => {s.w.node}
  }

  /** The nodes whose memory a step reads or writes.  A freed node is left alone by its own xerase,
      which kept both pointers in local variables. */
  function Touches(s: State, a: Action): set<nat>
    requires WF(s) && Enabled(s, a)
  {
    match a
    case NewIter => {}
    case CopyInto(i, j) => if s.iters[j] == NULL then {} else {s.iters[j]}
    case Begin(_) => {0, s.nodes[0].next}
    case End(_) => {0}
    case Next(i) => {s.iters[i], s.nodes[s.iters[i]].next}
    case Prev(i) => {s.iters[i], s.nodes[s.iters[i]].prev}
    case Fini(i) => if s.iters[i] == NULL then {} else {s.iters[i]}
    case StartPush => {0}
    case StartPrepare(i) => {s.iters[i]}
    case Write => WriterTouches(s)
    case StartErase(i) => {s.iters[i]}
    case Erase(n) =>
      if Freed(s.nodes[n].phase) then {Owed(s.nodes[n])} else {n}
    case Wake(n) => {n}
  }

  /** What the invariant says of the nodes the writer works on. */
  lemma WriterFacts(s: State)
    requires Inv(s)
    ensures s.nodes[0].phase.Linked? && s.nodes[s.nodes[0].next].phase.Linked?
    ensures PushEarly(s.w) ==> s.nodes[s.w.node].phase.New? && s.nodes[s.nodes[0].prev].phase.Linked?
    ensures PushLate(s.w) ==> s.nodes[s.w.node].phase.Linked?
    ensures PrepEarly(s.w) ==> s.nodes[s.w.node].phase.Linked?
    ensures PrepEarly(s.w) ==> s.nodes[s.nodes[s.w.node].prev].phase.Linked?
    ensures PrepEarly(s.w) ==> s.nodes[s.nodes[s.w.node].next].phase.Linked?
    ensures PrepLate(s.w) ==> s.nodes[s.w.node].phase.Unlinking?
    ensures s.w.PrepCopy? || s.w.PrepFalse? ==> s.nodes[s.w.node].usage > 0 && !Freed(s.nodes[s.w.node].phase)
    ensures WF(s)
  {
    SentinelLinked(s);
    FirstLinked(s);
    WriterNodeFacts(s);
    if s.w.PrepCopy? || s.w.PrepFalse? {
      CountPositive(s, s.w.node);
    }
  }

  lemma WriterNodeFacts(s: State)
    requires WF(s) && Shape(s)
    ensures PushEarly(s.w) ==> s.nodes[s.w.node].phase.New? && s.nodes[s.nodes[0].prev].phase.Linked?
    ensures PrepEarly(s.w) ==> s.nodes[s.w.node].phase.Linked?
    ensures PrepEarly(s.w) ==> s.nodes[s.nodes[s.w.node].prev].phase.Linked?
    ensures PrepEarly(s.w) ==> s.nodes[s.nodes[s.w.node].next].phase.Linked?
  {
    if PushEarly(s.w) {
      LastNode(s);
    } else if PrepEarly(s.w) {
      PredecessorOf(s);
      assert IsLinked(s, s.w.node);
    }
  }

  /** The nodes that an iterator operation starts from and arrives at are not freed, and in use
      if they are unlinked. */
  lemma IterFacts(s: State, i: nat)
    requires Inv(s) && i < |s.iters| && s.iters[i] != NULL
    ensures !Freed(s.nodes[s.iters[i]].phase)
    ensures s.iters[i] > 0 ==> s.nodes[s.iters[i]].usage > 0
    ensures !Freed(s.nodes[s.nodes[s.iters[i]].next].phase)
    ensures Unlinked(s.nodes[s.nodes[s.iters[i]].next].phase) ==> s.nodes[s.nodes[s.iters[i]].next].usage > 0
    ensures !Freed(s.nodes[s.nodes[s.iters[i]].prev].phase)
    ensures Unlinked(s.nodes[s.nodes[s.iters[i]].prev].phase) ==> s.nodes[s.nodes[s.iters[i]].prev].usage > 0
  {
    IterHolds(s, i);
    PointerHolds(s, s.iters[i], s.nodes[s.iters[i]].next);
    PointerHolds(s, s.iters[i], s.nodes[s.iters[i]].prev);
    hide Shape, Conserved, WaitersOK;
    assert IsUnlinked(s, s.nodes[s.iters[i]].next) || !Unlinked(s.nodes[s.nodes[s.iters[i]].next].phase);
    assert IsUnlinked(s, s.nodes[s.iters[i]].prev) || !Unlinked(s.nodes[s.nodes[s.iters[i]].prev].phase);
  }

  /** The old neighbour that the xerase of a freed node releases next. */
  function Owed(nd: Node): nat {
    if nd.phase.OwesBoth? then nd.next else nd.prev
  }

  /** It is not freed, and in use if it is unlinked. */
  lemma OwedFacts(s: State, n: nat)
    requires Inv(s) && n < |s.nodes| && (s.nodes[n].phase.OwesBoth? || s.nodes[n].phase.OwesPrev?)
    ensures !Freed(s.nodes[Owed(s.nodes[n])].phase)
    ensures Unlinked(s.nodes[Owed(s.nodes[n])].phase) ==> s.nodes[Owed(s.nodes[n])].usage > 0
  {
    hide Shape, Conserved, WaitersOK;
    var m := Owed(s.nodes[n]);
    PointerHolds(s, n, m);
    assert IsUnlinked(s, m) || !Unlinked(s.nodes[m].phase);
  }

  lemma WriterTouchesHeld(s: State, m: nat)
    requires Inv(s) && WriterEnabled(s) && m in WriterTouches(s)
    ensures m < |s.nodes| && !Freed(s.nodes[m].phase)
  {
    hide Inv;
    WriterFacts(s);
  }

  /** No step of any thread touches a freed node. */
  lemma NoUseAfterFree(s: State, a: Action, m: nat)
    requires Inv(s) && Enabled(s, a) && m in Touches(s, a)
    ensures m < |s.nodes| && !Freed(s.nodes[m].phase)
  {
    hide Inv, WriterTouches, WriterEnabled;
    WriterFacts(s);
    match a
    case CopyInto(i, j) => IterFacts(s, j);
    case Next(i) => IterFacts(s, i);
    case Prev(i) => IterFacts(s, i);
    case Fini(i) => IterFacts(s, i);
    case StartPrepare(i) => IterFacts(s, i);
    case Write => WriterTouchesHeld(s, m);
    case Erase(n) =>
      if Freed(s.nodes[n].phase) {
        OwedFacts(s, n);
      }
    case _ =>
  }

  // ---------------------------------------------------------------- frozen and final

  /** Once unlinked, a node's pointers never change, and it is never linked again. */
  lemma UnlinkedFrozen(s: State, a: Action, n: nat)
    requires Inv(s) && Enabled(s, a) && IsUnlinked(s, n)
    ensures IsUnlinked(Step(s, a), n)
    ensures Step(s, a).nodes[n].next == s.nodes[n].next && Step(s, a).nodes[n].prev == s.nodes[n].prev
  {
    hide Inv, WriterStep, EraseStep;
    WriterFacts(s);
    match a
    case Write => WriterFreezes(s, n);
    case Erase(k) =>
      EraseKeeps(s, k);
      assert SameNode(s.nodes[n], EraseStep(s, k).nodes[n]);
    case StartPush =>
    case StartPrepare(_) =>
    case _ =>
      OthersKeep(s, a);
      hide Step;
      assert SameNode(s.nodes[n], Step(s, a).nodes[n]);
  }

  lemma WriterFreezes(s: State, n: nat)
    requires WF(s) && WriterEnabled(s) && IsUnlinked(s, n) && s.nodes[0].phase.Linked?
    requires PushEarly(s.w) ==> s.nodes[s.nodes[0].prev].phase.Linked?
    requires PrepEarly(s.w) ==> s.nodes[s.w.node].phase.Linked?
    requires PrepEarly(s.w) ==> s.nodes[s.nodes[s.w.node].prev].phase.Linked?
    requires PrepEarly(s.w) ==> s.nodes[s.nodes[s.w.node].next].phase.Linked?
    requires PushEarly(s.w) ==> s.nodes[s.w.node].phase.New?
    ensures IsUnlinked(WriterStep(s), n)
    ensures WriterStep(s).nodes[n].next == s.nodes[n].next && WriterStep(s).nodes[n].prev == s.nodes[n].prev
  {
  }

  /** Past `fini()` in its xerase. */
  predicate Dying(p: Phase) {
    p.WaitLock? || p.Checked? || p.Asleep? || Freed(p)
  }

  predicate Drained(nd: Node) {
    nd.usage == 0 && Dying(nd.phase)
  }

  /** When the count of a node being erased is zero it stays zero, whatever any thread does. */
  lemma ZeroIsFinal(s: State, a: Action, n: nat)
    requires Inv(s) && Enabled(s, a) && n < |s.nodes| && Drained(s.nodes[n])
    ensures Drained(Step(s, a).nodes[n])
  {
    hide Inv, WriterStep, EraseStep, Create, TakeOver, CopyArgument;
    WriterFacts(s);
    match a
    case Write => WriterLeavesZero(s, n);
    case Erase(k) =>
      if s.nodes[k].phase.OwesBoth? || s.nodes[k].phase.OwesPrev? {
        OwedFacts(s, k);
      }
      EraseLeavesZero(s, k, n);
    case StartErase(i) =>
      IterFacts(s, i);
      OthersLeaveZero(s, a, n);
    case CopyInto(_, j) =>
      if s.iters[j] != NULL {
        IterFacts(s, j);
      }
      OthersLeaveZero(s, a, n);
    case Next(i) =>
      IterFacts(s, i);
      OthersLeaveZero(s, a, n);
    case Prev(i) =>
      IterFacts(s, i);
      OthersLeaveZero(s, a, n);
    case Fini(i) =>
      if s.iters[i] != NULL {
        IterFacts(s, i);
      }
      OthersLeaveZero(s, a, n);
    case StartPrepare(i) =>
      IterFacts(s, i);
      OthersLeaveZero(s, a, n);
    case _ => OthersLeaveZero(s, a, n);
  }

  lemma WriterLeavesZero(s: State, n: nat)
    requires WF(s) && WriterEnabled(s) && n < |s.nodes| && Drained(s.nodes[n])
    requires s.nodes[0].phase.Linked?
    requires PushEarly(s.w) ==> s.nodes[s.w.node].phase.New?
    requires PushLate(s.w) ==> s.nodes[s.w.node].phase.Linked?
    requires PrepEarly(s.w) ==> s.nodes[s.w.node].phase.Linked?
    requires PrepEarly(s.w) ==> s.nodes[s.nodes[s.w.node].prev].phase.Linked?
    requires PrepEarly(s.w) ==> s.nodes[s.nodes[s.w.node].next].phase.Linked?
    requires PrepLate(s.w) ==> s.nodes[s.w.node].phase.Unlinking?
    requires s.w.PrepCopy? || s.w.PrepFalse? ==> s.nodes[s.w.node].usage > 0
    ensures Drained(WriterStep(s).nodes[n])
  {
  }

  lemma EraseLeavesZero(s: State, k: nat, n: nat)
    requires WF(s) && EraseEnabled(s, k) && n < |s.nodes| && Drained(s.nodes[n])
    requires Freed(s.nodes[k].phase) && Unlinked(s.nodes[Owed(s.nodes[k])].phase) ==>
               s.nodes[Owed(s.nodes[k])].usage > 0
    ensures Drained(EraseStep(s, k).nodes[n])
  {
  }

  lemma OthersLeaveZero(s: State, a: Action, n: nat)
    requires WF(s) && Enabled(s, a) && !a.Write? && !a.Erase?
    requires n < |s.nodes| && Drained(s.nodes[n])
    requires s.nodes[0].phase.Linked? && s.nodes[s.nodes[0].next].phase.Linked?
    requires a.Next? || a.Prev? || a.Fini? || a.StartPrepare? ==>
               s.iters[a.i] > 0 ==> s.nodes[s.iters[a.i]].usage > 0
    requires a.CopyInto? ==> s.iters[a.j] > 0 ==> s.nodes[s.iters[a.j]].usage > 0
    requires a.Next? ==> var q := s.nodes[s.iters[a.i]].next; Unlinked(s.nodes[q].phase) ==> s.nodes[q].usage > 0
    requires a.Prev? ==> var q := s.nodes[s.iters[a.i]].prev; Unlinked(s.nodes[q].phase) ==> s.nodes[q].usage > 0
    ensures Drained(Step(s, a).nodes[n])
  {
  }

  /** In every run: a waiter sleeps only while its node is in use, so the decrement that reaches zero
      always finds it before its test or wakes it; and freed nodes are referenced by nothing. */
  lemma RunMemorySafe(states: seq<State>, acts: seq<Action>, i: nat, n: nat)
    requires IsRun(states, acts) && i < |states| && n < |states[i].nodes|
    ensures states[i].nodes[n].phase.Asleep? ==> states[i].nodes[n].usage > 0
    ensures Freed(states[i].nodes[n].phase) ==> n !in states[i].iters && UnfreedRefs(states[i].nodes, n) == 0
    ensures i < |acts| ==> WF(states[i]) && Enabled(states[i], acts[i])
                           && forall m | m in Touches(states[i], acts[i]) :: !Freed(states[i].nodes[m].phase)
  {
    RunInv(states, acts, i);
    var s := states[i];
    if Freed(s.nodes[n].phase) {
      FreedUnreferenced(s, n);
    }
    if i < |acts| {
      assert Follows(states[i], acts[i], states[i + 1]);
      hide Inv, Touches, Step, Enabled;
      forall m | m in Touches(s, acts[i])
        ensures m < |s.nodes| && !Freed(s.nodes[m].phase)
      {
        NoUseAfterFree(s, acts[i], m);
      }
    }
  }
}
