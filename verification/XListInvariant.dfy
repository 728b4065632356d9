/**
  The invariant of the `XList` protocol and its preservation by every step.
 */
module XListInvariant {
  import opened XListProtocol
  import opened XListCounts

  // ---------------------------------------------------------------- shape of the list

  /** The linked nodes form one chain along next, in push order, closed at the sentinel. */
  ghost predicate NextLinks(s: State)
    requires WF(s)
  {
    && IsLinked(s, 0)
    && (forall p | IsLinked(s, p) ::
          s.nodes[s.nodes[p].next].phase.Linked? && (s.nodes[p].next == 0 || p < s.nodes[p].next))
    && (forall p, x | IsLinked(s, p) && IsLinked(s, x) && p < x ::
          0 < s.nodes[p].next <= x)
  }

  /** The one prev field that the writer has changed or has yet to change. */
  predicate PrevTentative(s: State, q: int)
    requires WF(s)
  {
    (PushLate(s.w) && q == 0) || (PrepMiddle(s.w) && q == s.nodes[s.w.node].next)
  }

  /** prev mirrors next, but for the tentative field. */
  ghost predicate PrevLinks(s: State)
    requires WF(s)
  {
    forall q | IsLinked(s, q) && !PrevTentative(s, q) ::
      s.nodes[s.nodes[q].prev].phase.Linked? && s.nodes[s.nodes[q].prev].next == q
  }

  predicate PushEarly(w: Writer) { w.PushA? || w.PushB? }
  predicate PushLate(w: Writer) { w.PushC? || w.PushD? }
  predicate PrepEarly(w: Writer) { w.PrepA? || w.PrepB? || w.PrepC? || w.PrepD? || w.PrepE? }
  predicate PrepMiddle(w: Writer) { w.PrepC? || w.PrepD? || w.PrepE? }
  predicate PrepLate(w: Writer) { w.PrepF? || w.PrepG? }

  ghost predicate WriterOK(s: State)
    requires WF(s)
  {
    && (s.w.Idle? || s.w.node > 0)
    && (PushEarly(s.w) ==>
          && s.w.node == |s.nodes| - 1
          && s.nodes[s.w.node].phase.New?
          && s.nodes[s.w.node].next == 0
          && s.nodes[s.w.node].prev == s.nodes[0].prev)
    && (PushLate(s.w) ==>
          && IsLinked(s, s.w.node)
          && s.nodes[s.w.node].next == 0
          && s.nodes[s.w.node].prev == s.nodes[0].prev
          && IsLinked(s, s.nodes[0].prev))
    && (PrepEarly(s.w) ==> IsLinked(s, s.w.node) && s.nodes[s.w.node].erasing)
    && (PrepMiddle(s.w) ==> s.nodes[s.nodes[s.w.node].next].prev == s.nodes[s.w.node].prev)
    && (PrepLate(s.w) ==> s.nodes[s.w.node].phase.Unlinking?)
    && (!s.w.Idle? ==> s.nodes[s.w.node].phase.New? ==> PushEarly(s.w))
  }

  /** Which nodes are new, marked for erasing, or being unlinked is known from the writer. */
  ghost predicate MarksOK(s: State)
    requires WF(s)
  {
    && (forall n | 0 <= n < |s.nodes| && s.nodes[n].phase.New? :: PushEarly(s.w) && s.w.node == n)
    && (forall n | 0 <= n < |s.nodes| && s.nodes[n].phase.New? :: !s.nodes[n].erasing)
    && (forall n {:trigger IsLinked(s, n)} | IsLinked(s, n) && s.nodes[n].erasing :: PrepEarly(s.w) && s.w.node == n)
    && (forall n {:trigger IsUnlinked(s, n)} | IsUnlinked(s, n) :: s.nodes[n].erasing && n > 0)
    && (forall n | 0 <= n < |s.nodes| && s.nodes[n].phase.Unlinking? :: PrepLate(s.w) && s.w.node == n)
  }

  /** An unlinked node's pointers lead to nodes that were unlinked later or are still linked,
      and along next skip nothing that was there when it was unlinked. */
  ghost predicate HistoryOK(s: State)
    requires WF(s)
  {
    && (forall p {:trigger IsUnlinked(s, p)} | IsUnlinked(s, p) :: s.nodes[p].stamp < s.unlinks && s.nodes[p].horizon <= Joined(s))
    && (forall p {:trigger IsUnlinked(s, p)} | IsUnlinked(s, p) ::
          Later(s.nodes[p], s.nodes[s.nodes[p].next]) && Later(s.nodes[p], s.nodes[s.nodes[p].prev]))
    && (forall p {:trigger IsUnlinked(s, p)} | IsUnlinked(s, p) :: s.nodes[p].next == 0 || p < s.nodes[p].next)
    && (forall p, x | IsUnlinked(s, p) && IsLinked(s, x) && p < x < s.nodes[p].horizon ::
          0 < s.nodes[p].next <= x)
  }

  /** The number of nodes that were joined to the list. */
  function Joined(s: State): int {
    if PushEarly(s.w) then |s.nodes| - 1 else |s.nodes|
  }

  predicate Later(a: Node, b: Node) {
    b.phase.Linked? || (Unlinked(b.phase) && a.stamp < b.stamp)
  }

  ghost predicate Shape(s: State)
    requires WF(s)
  {
    NextLinks(s) && PrevLinks(s) && WriterOK(s) && MarksOK(s) && HistoryOK(s)
  }

  // ---------------------------------------------------------------- counts and waiters

  /** A freed node's count is zero, and a waiter sleeps only while its node's count is not. */
  ghost predicate WaitersOK(s: State)
    requires WF(s)
  {
    && (forall n | 0 <= n < |s.nodes| && Freed(s.nodes[n].phase) :: s.nodes[n].usage == 0)
    && (forall n | 0 <= n < |s.nodes| && (s.nodes[n].phase.Checked? || s.nodes[n].phase.Asleep?) ::
          s.nodes[n].usage > 0)
  }

  ghost predicate Inv(s: State) {
    WF(s) && Shape(s) && Conserved(s) && WaitersOK(s)
  }

  lemma InvWF(s: State)
    requires Inv(s)
    ensures WF(s)
  {
  }

  lemma InitInv()
    ensures Inv(Init())
  {
    InitConserved();
  }

  lemma InitConserved()
    ensures Conserved(Init())
  {
    var s := Init();
    assert s.nodes[..0] == [];
    assert Refs(s.nodes, 0) == 2;
  }

  // ---------------------------------------------------------------- held nodes

  /** A data node with anything on it has a positive `usageNO`, so it has not been freed. */
  lemma CountPositive(s: State, n: nat)
    requires WF(s) && Conserved(s) && WaitersOK(s) && 0 < n < |s.nodes|
    requires Iters(s, n) + Refs(s.nodes, n) + WriterCredit(s, n) + XCredit(s.nodes[n].phase) > 0
    ensures s.nodes[n].usage > 0
    ensures !Freed(s.nodes[n].phase)
  {
    assert Balance(s, n) == WriterCredit(s, n);
  }

  /** The writer has counts to take on a data node only while push_back joins a node behind it. */
  lemma CreditNonNegative(s: State, n: nat)
    requires WF(s) && n > 0
    requires !(PushEarly(s.w) || PushLate(s.w)) || n != s.nodes[s.w.node].prev
    ensures WriterCredit(s, n) >= 0
  {
  }

  /** Leaving iterators aside, what refers to a data node never sums below zero. */
  lemma RestNonNegative(s: State, n: nat)
    requires Inv(s) && 0 < n < |s.nodes|
    ensures Refs(s.nodes, n) + WriterCredit(s, n) >= 0
  {
    if (PushEarly(s.w) || PushLate(s.w)) && n == s.nodes[s.w.node].prev {
      RefsAtLeast(s.nodes, s.w.node, n);
    } else {
      CreditNonNegative(s, n);
    }
  }

  /** The node an iterator stands on has not been freed. */
  lemma IterHolds(s: State, i: nat)
    requires Inv(s) && i < |s.iters| && s.iters[i] != NULL
    ensures !Freed(s.nodes[s.iters[i]].phase)
    ensures s.iters[i] > 0 ==> s.nodes[s.iters[i]].usage > 0
  {
    var n := s.iters[i];
    if n > 0 {
      assert n in multiset(s.iters);
      RestNonNegative(s, n);
      CountPositive(s, n);
    }
  }

  /** The node that a counted pointer leads to has not been freed. */
  lemma PointerHolds(s: State, p: nat, q: nat)
    requires Inv(s) && p < |s.nodes| && q < |s.nodes|
    requires Ref(s.nodes[p], q) > 0
    ensures !Freed(s.nodes[q].phase)
    ensures IsUnlinked(s, q) ==> s.nodes[q].usage > 0
  {
    if IsUnlinked(s, q) {
      RefsAtLeast(s.nodes, p, q);
      assert !(PushEarly(s.w) || PushLate(s.w)) || q != s.nodes[s.w.node].prev;
      CreditNonNegative(s, q);
      CountPositive(s, q);
    }
  }
}
