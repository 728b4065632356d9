/**
  Every step of the `XList` protocol keeps the shape of the list.
 */
module XListShapeSteps {
  import opened XListProtocol
  import opened XListCounts
  import opened XListInvariant
  import opened XListCountSteps

  // ---------------------------------------------------------------- steps that change no pointer

  /** Everything that the links and the history read of a node. */
  predicate SameNode(a: Node, b: Node) {
    && a.next == b.next && a.prev == b.prev && a.stamp == b.stamp && a.horizon == b.horizon
    && a.phase.Linked? == b.phase.Linked? && a.phase.New? == b.phase.New?
  }

  ghost predicate SameNodes(s: State, t: State) {
    && |s.nodes| == |t.nodes| && s.unlinks == t.unlinks
    && forall n | 0 <= n < |s.nodes| :: SameNode(s.nodes[n], t.nodes[n])
  }

  ghost predicate SameMarks(s: State, t: State) {
    && |s.nodes| == |t.nodes|
    && forall n | 0 <= n < |s.nodes| ::
         s.nodes[n].erasing == t.nodes[n].erasing && s.nodes[n].phase.Unlinking? == t.nodes[n].phase.Unlinking?
  }

  predicate SameStage(w: Writer, v: Writer) {
    && PushEarly(w) == PushEarly(v) && PushLate(w) == PushLate(v)
    && PrepEarly(w) == PrepEarly(v) && PrepMiddle(w) == PrepMiddle(v) && PrepLate(w) == PrepLate(v)
    && (w.Idle? || v.Idle? || w.node == v.node)
  }

  predicate WriterInRange(t: State) {
    t.w.Idle? || (0 < t.w.node < |t.nodes| && (t.nodes[t.w.node].phase.New? ==> PushEarly(t.w)))
  }

  predicate SameNextField(a: Node, b: Node) {
    a.next == b.next && a.phase.Linked? == b.phase.Linked?
  }

  ghost predicate SameForward(s: State, t: State) {
    |s.nodes| == |t.nodes| && forall n | 0 <= n < |s.nodes| :: SameNextField(s.nodes[n], t.nodes[n])
  }

  lemma SameNext(s: State, t: State)
    requires WF(s) && WF(t) && SameForward(s, t) && NextLinks(s)
    ensures NextLinks(t)
  {
    forall p | IsLinked(t, p)
      ensures t.nodes[t.nodes[p].next].phase.Linked? && (t.nodes[p].next == 0 || p < t.nodes[p].next)
    {
      assert IsLinked(s, p);
      assert SameNextField(s.nodes[s.nodes[p].next], t.nodes[s.nodes[p].next]);
    }
    forall p, x | IsLinked(t, p) && IsLinked(t, x) && p < x
      ensures 0 < t.nodes[p].next <= x
    {
      assert IsLinked(s, p) && IsLinked(s, x);
    }
  }

  lemma NodesForward(s: State, t: State)
    requires SameNodes(s, t)
    ensures SameForward(s, t)
  {
    assert forall n | 0 <= n < |s.nodes| :: SameNode(s.nodes[n], t.nodes[n]);
  }

  lemma SamePrev(s: State, t: State)
    requires WF(s) && WF(t) && SameNodes(s, t) && PrevLinks(s)
    requires PushLate(s.w) ==> PushLate(t.w)
    requires PrepMiddle(s.w) ==> PrepMiddle(t.w) && s.w.node == t.w.node
    ensures PrevLinks(t)
  {
    forall q | IsLinked(t, q) && !PrevTentative(t, q)
      ensures t.nodes[t.nodes[q].prev].phase.Linked? && t.nodes[t.nodes[q].prev].next == q
    {
      assert IsLinked(s, q) && !PrevTentative(s, q);
      assert SameNode(s.nodes[s.nodes[q].prev], t.nodes[s.nodes[q].prev]);
    }
  }

  lemma SameHistory(s: State, t: State)
    requires WF(s) && WF(t) && SameNodes(s, t) && PushEarly(s.w) == PushEarly(t.w) && HistoryOK(s)
    ensures HistoryOK(t)
  {
    assert forall n | 0 <= n < |s.nodes| :: SameNode(s.nodes[n], t.nodes[n]);
    HistoryKept(s, t);
  }

  lemma SameWriter(s: State, t: State)
    requires WF(s) && WF(t) && SameNodes(s, t) && SameMarks(s, t) && SameStage(s.w, t.w) && WriterInRange(t)
    requires WriterOK(s)
    ensures WriterOK(t)
  {
    assert SameNode(s.nodes[0], t.nodes[0]);
  }

  lemma SameMarked(s: State, t: State)
    requires WF(s) && WF(t) && SameNodes(s, t) && SameMarks(s, t) && SameStage(s.w, t.w) && MarksOK(s)
    ensures MarksOK(t)
  {
    forall n | 0 <= n < |t.nodes| ensures SameNode(s.nodes[n], t.nodes[n]) {}
    forall n | IsLinked(t, n) && t.nodes[n].erasing ensures PrepEarly(t.w) && t.w.node == n {
      assert IsLinked(s, n);
    }
    forall n | IsUnlinked(t, n) ensures t.nodes[n].erasing && n > 0 {
      assert IsUnlinked(s, n);
    }
  }

  lemma SameShape(s: State, t: State)
    requires WF(s) && WF(t) && SameNodes(s, t) && SameMarks(s, t) && SameStage(s.w, t.w) && WriterInRange(t)
    requires Shape(s)
    ensures Shape(t)
  {
    hide SameNodes, SameMarks, SameForward, NextLinks, PrevLinks, WriterOK, MarksOK, HistoryOK, WF, WriterInRange;
    NodesForward(s, t);
    SameNext(s, t);
    SamePrev(s, t);
    SameWriter(s, t);
    SameMarked(s, t);
    SameHistory(s, t);
  }

  // ---------------------------------------------------------------- steps that keep unlinked nodes

  /** Unlinked nodes do not change, and nodes that become linked are newer than every horizon. */
  ghost predicate UnlinkedKept(s: State, t: State) {
    && |s.nodes| <= |t.nodes| && s.unlinks == t.unlinks && Joined(s) <= Joined(t)
    && (forall n | IsUnlinked(t, n) :: n < |s.nodes| && Unlinked(s.nodes[n].phase)
          && t.nodes[n].next == s.nodes[n].next && t.nodes[n].prev == s.nodes[n].prev
          && t.nodes[n].stamp == s.nodes[n].stamp && t.nodes[n].horizon == s.nodes[n].horizon)
    && (forall n | IsUnlinked(s, n) ::
          Unlinked(t.nodes[n].phase) && t.nodes[n].stamp == s.nodes[n].stamp)
    && (forall n | IsLinked(s, n) :: t.nodes[n].phase.Linked?)
    && (forall n | IsLinked(t, n) :: n >= Joined(s) || s.nodes[n].phase.Linked?)
  }

  lemma HistoryKept(s: State, t: State)
    requires WF(s) && WF(t) && HistoryOK(s) && UnlinkedKept(s, t)
    ensures HistoryOK(t)
  {
    forall p | IsUnlinked(t, p)
      ensures t.nodes[p].stamp < t.unlinks && t.nodes[p].horizon <= Joined(t)
      ensures Later(t.nodes[p], t.nodes[t.nodes[p].next]) && Later(t.nodes[p], t.nodes[t.nodes[p].prev])
      ensures t.nodes[p].next == 0 || p < t.nodes[p].next
    {
      assert IsUnlinked(s, p);
      LaterKept(s, t, p, s.nodes[p].next);
      LaterKept(s, t, p, s.nodes[p].prev);
    }
    forall p, x | IsUnlinked(t, p) && IsLinked(t, x) && p < x < t.nodes[p].horizon
      ensures 0 < t.nodes[p].next <= x
    {
      assert IsUnlinked(s, p) && IsLinked(s, x);
    }
  }

  lemma LaterKept(s: State, t: State, p: nat, q: nat)
    requires UnlinkedKept(s, t) && p < |s.nodes| && q < |s.nodes|
    requires IsUnlinked(s, p) && Later(s.nodes[p], s.nodes[q])
    ensures Later(t.nodes[p], t.nodes[q])
  {
    assert IsLinked(s, q) || IsUnlinked(s, q);
  }

  // ---------------------------------------------------------------- push_back

  lemma CreateLinks(s: State)
    requires WF(s) && NextLinks(s) && PrevLinks(s) && s.w.Idle? && WF(Create(s))
    ensures NextLinks(Create(s)) && PrevLinks(Create(s))
  {
    var t := Create(s);
    forall n | IsLinked(t, n) ensures IsLinked(s, n) {}
    assert IsLinked(t, 0) by { assert IsLinked(s, 0); }
  }

  lemma CreateMarks(s: State)
    requires WF(s) && NextLinks(s) && WriterOK(s) && MarksOK(s) && s.w.Idle? && WF(Create(s))
    ensures WriterOK(Create(s)) && MarksOK(Create(s))
  {
    var t := Create(s);
    assert IsLinked(s, 0);
    forall n | IsLinked(t, n) ensures IsLinked(s, n) {}
    forall n | IsUnlinked(t, n) ensures IsUnlinked(s, n) {}
  }

  lemma CreateHistory(s: State)
    requires WF(s) && HistoryOK(s) && s.w.Idle? && WF(Create(s))
    ensures HistoryOK(Create(s))
  {
    HistoryKept(s, Create(s));
  }

  lemma LinkLastNext(s: State)
    requires WF(s) && NextLinks(s) && PrevLinks(s) && WriterOK(s) && s.w.PushB? && WF(LinkLast(s))
    ensures NextLinks(LinkLast(s))
  {
    hide NextLinks, PrevLinks, WriterOK, LinkLast;
    var t := LinkLast(s);
    LastNode(s);
    SentinelLinked(s);
    NewNodeFacts(s);
    forall p | IsLinked(t, p)
      ensures p < |t.nodes| && t.nodes[p].next < |t.nodes|
      ensures t.nodes[t.nodes[p].next].phase.Linked? && (t.nodes[p].next == 0 || p < t.nodes[p].next)
    {
      LinkLastAfter(s, p);
    }
    forall p, x | IsLinked(t, p) && IsLinked(t, x) && p < x
      ensures 0 < t.nodes[p].next <= x
    {
      LinkLastBetween(s, p, x);
    }
    SentinelStays(s);
    NextLinksHold(t);
  }

  lemma NewNodeFacts(s: State)
    requires WF(s) && WriterOK(s) && s.w.PushB?
    ensures s.w.node == |s.nodes| - 1 && s.nodes[s.w.node].phase.New? && s.nodes[s.w.node].next == 0
    ensures s.nodes[s.w.node].prev == s.nodes[0].prev
  {
  }

  lemma SentinelStays(s: State)
    requires s.w.PushB? && WF(s) && WF(LinkLast(s)) && s.nodes[0].phase.Linked?
    ensures IsLinked(LinkLast(s), 0)
  {
  }

  lemma NextLinksHold(t: State)
    requires WF(t) && IsLinked(t, 0)
    requires forall p | IsLinked(t, p) ::
               t.nodes[t.nodes[p].next].phase.Linked? && (t.nodes[p].next == 0 || p < t.nodes[p].next)
    requires forall p, x | IsLinked(t, p) && IsLinked(t, x) && p < x :: 0 < t.nodes[p].next <= x
    ensures NextLinks(t)
  {
  }

  lemma LinkLastAfter(s: State, p: nat)
    requires WF(s) && NextLinks(s) && s.w.PushB? && WF(LinkLast(s)) && s.w.node == |s.nodes| - 1 && s.nodes[s.w.node].next == 0
    requires IsLinked(s, s.nodes[0].prev) && s.nodes[s.w.node].phase.New? && s.nodes[0].phase.Linked?
    requires IsLinked(LinkLast(s), p)
    ensures var t := LinkLast(s);
            p < |t.nodes| && t.nodes[p].next < |t.nodes|
            && t.nodes[t.nodes[p].next].phase.Linked? && (t.nodes[p].next == 0 || p < t.nodes[p].next)
  {
    assert p != s.w.node ==> IsLinked(s, p);
  }

  lemma LinkLastBetween(s: State, p: nat, x: nat)
    requires WF(s) && NextLinks(s) && s.w.PushB? && WF(LinkLast(s)) && s.w.node == |s.nodes| - 1
    requires IsLinked(s, s.nodes[0].prev) && s.nodes[s.nodes[0].prev].next == 0 && s.nodes[s.w.node].phase.New?
    requires IsLinked(LinkLast(s), p) && IsLinked(LinkLast(s), x) && p < x
    ensures 0 < LinkLast(s).nodes[p].next <= x
  {
    var k := s.w.node;
    assert IsLinked(s, p);
    assert x != k ==> IsLinked(s, x);
    if p != s.nodes[0].prev && x == k {
      BeforeLast(s, p);
    }
  }

  /** Only the last linked node's next leads back to the sentinel. */
  lemma BeforeLast(s: State, p: nat)
    requires WF(s) && NextLinks(s) && IsLinked(s, p)
    requires IsLinked(s, s.nodes[0].prev) && s.nodes[s.nodes[0].prev].next == 0 && p != s.nodes[0].prev
    ensures 0 < s.nodes[p].next
  {
    var last := s.nodes[0].prev;
    assert !(last < p);
  }

  lemma LinkLastPrev(s: State)
    requires WF(s) && NextLinks(s) && PrevLinks(s) && WriterOK(s) && s.w.PushB? && WF(LinkLast(s))
    ensures PrevLinks(LinkLast(s))
  {
    hide NextLinks, PrevLinks, WriterOK, LinkLast, PrevTentative;
    var t := LinkLast(s);
    LastNode(s);
    NewNodeFacts(s);
    forall q | IsLinked(t, q) && !PrevTentative(t, q)
      ensures 0 <= q < |t.nodes| && t.nodes[q].prev < |t.nodes|
      ensures t.nodes[t.nodes[q].prev].phase.Linked? && t.nodes[t.nodes[q].prev].next == q
    {
      LinkLastBefore(s, q);
    }
    PrevMirrors(t);
  }

  lemma PrevMirrors(t: State)
    requires WF(t)
    requires forall q | IsLinked(t, q) && !PrevTentative(t, q) ::
               t.nodes[t.nodes[q].prev].phase.Linked? && t.nodes[t.nodes[q].prev].next == q
    ensures PrevLinks(t)
  {
  }

  lemma LinkLastBefore(s: State, q: nat)
    requires WF(s) && PrevLinks(s) && s.w.PushB? && WF(LinkLast(s)) && IsLinked(s, s.nodes[0].prev)
    requires s.w.node == |s.nodes| - 1 && s.nodes[s.w.node].phase.New? && s.nodes[s.w.node].prev == s.nodes[0].prev
    requires s.nodes[s.nodes[0].prev].next == 0
    requires IsLinked(LinkLast(s), q) && !PrevTentative(LinkLast(s), q)
    ensures var t := LinkLast(s);
            q < |t.nodes| && t.nodes[q].prev < |t.nodes|
            && t.nodes[t.nodes[q].prev].phase.Linked? && t.nodes[t.nodes[q].prev].next == q
  {
    if q != s.w.node {
      assert IsLinked(s, q) && !PrevTentative(s, q);
    }
  }

  lemma LinkLastWriter(s: State)
    requires WF(s) && NextLinks(s) && PrevLinks(s) && WriterOK(s) && s.w.PushB? && WF(LinkLast(s))
    ensures WriterOK(LinkLast(s))
  {
    LastNode(s);
  }

  lemma LinkLastMarks(s: State)
    requires WF(s) && WriterOK(s) && MarksOK(s) && s.w.PushB? && WF(LinkLast(s))
    ensures MarksOK(LinkLast(s))
  {
    var t := LinkLast(s);
    forall n | IsLinked(t, n) && t.nodes[n].erasing ensures false {
      assert n != s.w.node ==> IsLinked(s, n);
    }
    forall n | IsUnlinked(t, n) ensures IsUnlinked(s, n) {}
  }

  lemma LinkLastHistory(s: State)
    requires WF(s) && NextLinks(s) && PrevLinks(s) && WriterOK(s) && HistoryOK(s) && s.w.PushB? && WF(LinkLast(s))
    ensures HistoryOK(LinkLast(s))
  {
    LastNode(s);
    LinkLastKeeps(s);
    HistoryKept(s, LinkLast(s));
  }

  lemma LinkLastKeeps(s: State)
    requires InRange(s) && s.w.PushB? && s.nodes[0].prev < |s.nodes|
    requires s.w.node == |s.nodes| - 1 && s.nodes[s.w.node].phase.New? && s.nodes[s.nodes[0].prev].phase.Linked?
    ensures UnlinkedKept(s, LinkLast(s))
  {
  }

  lemma CloseRingShape(s: State)
    requires WF(s) && Shape(s) && s.w.PushD? && WF(CloseRing(s))
    ensures Shape(CloseRing(s))
  {
    assert InRange(s);
    hide NextLinks, PrevLinks, WriterOK, MarksOK, HistoryOK, WF;
    SentinelLinked(s);
    CloseRingKeeps(s);
    SameNext(s, CloseRing(s));
    CloseRingPrev(s);
    CloseRingMarks(s);
    HistoryKept(s, CloseRing(s));
  }

  lemma SentinelLinked(s: State)
    requires WF(s) && NextLinks(s)
    ensures s.nodes[0].phase.Linked?
  {
    assert IsLinked(s, 0);
  }

  lemma CloseRingKeeps(s: State)
    requires InRange(s) && s.w.PushD? && s.nodes[0].phase.Linked?
    ensures SameForward(s, CloseRing(s)) && UnlinkedKept(s, CloseRing(s))
  {
  }

  lemma CloseRingPrev(s: State)
    requires WF(s) && PrevLinks(s) && WriterOK(s) && s.w.PushD? && WF(CloseRing(s))
    ensures PrevLinks(CloseRing(s))
  {
    var t := CloseRing(s);
    forall q | IsLinked(t, q)
      ensures t.nodes[t.nodes[q].prev].phase.Linked? && t.nodes[t.nodes[q].prev].next == q
    {
      assert q != 0 ==> IsLinked(s, q) && !PrevTentative(s, q);
    }
  }

  lemma CloseRingMarks(s: State)
    requires WF(s) && MarksOK(s) && s.w.PushD? && WF(CloseRing(s))
    ensures WriterOK(CloseRing(s)) && MarksOK(CloseRing(s))
  {
    var t := CloseRing(s);
    forall n | IsLinked(t, n) ensures IsLinked(s, n) {}
    forall n | IsUnlinked(t, n) ensures IsUnlinked(s, n) {}
  }

  // ---------------------------------------------------------------- xerase_prepare

  lemma TestErasingShape(s: State)
    requires WF(s) && Shape(s) && s.w.PrepCopy? && WF(TestErasing(s))
    ensures Shape(TestErasing(s))
  {
    var t := TestErasing(s);
    UnmarkedLinked(s);
    hide NextLinks, PrevLinks, WriterOK, MarksOK, HistoryOK, WF, TestErasing, SameNodes, SameMarks, SameForward;
    TestErasingKeeps(s);
    NodesForward(s, t);
    SameNext(s, t);
    SamePrev(s, t);
    SameHistory(s, t);
    if s.nodes[s.w.node].erasing {
      SameWriter(s, t);
      SameMarked(s, t);
    } else {
      TestErasingRest(s);
    }
  }

  /** A node that is not marked for erasing has not been unlinked. */
  lemma UnmarkedLinked(s: State)
    requires WF(s) && WriterOK(s) && MarksOK(s) && s.w.PrepCopy?
    ensures InRange(s) && (s.nodes[s.w.node].erasing || s.nodes[s.w.node].phase.Linked?)
    ensures s.w.node > 0 && !s.nodes[s.w.node].phase.New?
  {
    assert s.nodes[s.w.node].erasing || !IsUnlinked(s, s.w.node);
  }

  lemma TestErasingKeeps(s: State)
    requires InRange(s) && s.w.PrepCopy? && s.w.node > 0 && !s.nodes[s.w.node].phase.New?
    ensures SameNodes(s, TestErasing(s)) && WriterInRange(TestErasing(s))
    ensures !PushEarly(TestErasing(s).w) && !PushLate(TestErasing(s).w) && !PrepMiddle(TestErasing(s).w)
    ensures s.nodes[s.w.node].erasing ==> SameMarks(s, TestErasing(s)) && SameStage(s.w, TestErasing(s).w)
  {
  }

  lemma TestErasingRest(s: State)
    requires WF(s) && WriterOK(s) && MarksOK(s) && s.w.PrepCopy? && !s.nodes[s.w.node].erasing
    requires WF(TestErasing(s)) && s.nodes[s.w.node].phase.Linked?
    ensures WriterOK(TestErasing(s)) && MarksOK(TestErasing(s))
  {
    var t := TestErasing(s);
    forall n | IsLinked(t, n) ensures IsLinked(s, n) {}
    forall n | IsUnlinked(t, n) ensures IsUnlinked(s, n) {}
  }

  lemma RedirectPrevShape(s: State)
    requires WF(s) && Shape(s) && s.w.PrepB? && WF(RedirectPrev(s))
    ensures Shape(RedirectPrev(s))
  {
    SuccessorOf(s);
    hide NextLinks, PrevLinks, WriterOK, MarksOK, HistoryOK, WF;
    RedirectPrevKeeps(s);
    SameNext(s, RedirectPrev(s));
    RedirectPrevPrev(s);
    RedirectPrevMarks(s);
    HistoryKept(s, RedirectPrev(s));
  }

  lemma RedirectPrevKeeps(s: State)
    requires InRange(s) && s.w.PrepB? && s.nodes[s.w.node].next < |s.nodes|
    requires s.nodes[s.nodes[s.w.node].next].phase.Linked?
    ensures SameForward(s, RedirectPrev(s)) && UnlinkedKept(s, RedirectPrev(s))
  {
  }

  lemma RedirectPrevPrev(s: State)
    requires WF(s) && PrevLinks(s) && s.w.PrepB? && WF(RedirectPrev(s))
    requires s.nodes[s.w.node].next != s.w.node
    ensures PrevLinks(RedirectPrev(s))
  {
    var t := RedirectPrev(s);
    forall q | IsLinked(t, q) && !PrevTentative(t, q)
      ensures t.nodes[t.nodes[q].prev].phase.Linked? && t.nodes[t.nodes[q].prev].next == q
    {
      assert IsLinked(s, q) && !PrevTentative(s, q);
    }
  }

  lemma RedirectPrevMarks(s: State)
    requires WF(s) && WriterOK(s) && MarksOK(s) && s.w.PrepB? && WF(RedirectPrev(s))
    requires s.nodes[s.w.node].next != s.w.node
    ensures WriterOK(RedirectPrev(s)) && MarksOK(RedirectPrev(s))
  {
    var t := RedirectPrev(s);
    forall n | IsLinked(t, n) ensures IsLinked(s, n) {}
    forall n | IsUnlinked(t, n) ensures IsUnlinked(s, n) {}
  }

  lemma RedirectNextShape(s: State)
    requires WF(s) && Shape(s) && s.w.PrepE? && WF(RedirectNext(s))
    ensures Shape(RedirectNext(s))
  {
    PredecessorOf(s);
    RedirectNextForward(s);
    RedirectNextBackward(s);
    RedirectNextMarks(s);
    RedirectNextHistory(s);
  }

  /** Unlinked nodes keep their fields; the one being unlinked becomes the last of them. */
  ghost predicate OneMoreUnlinked(s: State, t: State, k: nat) {
    && k < |s.nodes| == |t.nodes| && t.unlinks == s.unlinks + 1
    && Joined(s) == Joined(t) == |s.nodes|
    && s.nodes[k].phase.Linked? && Unlinked(t.nodes[k].phase)
    && t.nodes[k].next == s.nodes[k].next && t.nodes[k].prev == s.nodes[k].prev
    && t.nodes[k].stamp == s.unlinks && t.nodes[k].horizon == |s.nodes|
    && (forall n | IsUnlinked(t, n) :: n == k || t.nodes[n] == s.nodes[n])
    && (forall n | IsUnlinked(s, n) :: t.nodes[n] == s.nodes[n])
    && (forall n | IsLinked(s, n) :: n == k || t.nodes[n].phase.Linked?)
    && (forall n | IsLinked(t, n) :: s.nodes[n].phase.Linked?)
  }

  lemma RedirectNextKeeps(s: State)
    requires InRange(s) && s.w.PrepE? && s.nodes[s.w.node].prev < |s.nodes|
    requires s.nodes[s.w.node].phase.Linked? && s.nodes[s.nodes[s.w.node].prev].phase.Linked?
    requires s.nodes[s.w.node].prev != s.w.node
    ensures OneMoreUnlinked(s, RedirectNext(s), s.w.node)
  {
  }

  lemma LaterGrows(s: State, t: State, k: nat, p: nat, q: nat)
    requires OneMoreUnlinked(s, t, k) && p < |s.nodes| && q < |s.nodes| && s.nodes[p].stamp < s.unlinks
    requires IsUnlinked(s, p) && Later(s.nodes[p], s.nodes[q])
    ensures Later(t.nodes[p], t.nodes[q])
  {
    assert IsLinked(s, q) || IsUnlinked(s, q);
  }

  lemma RedirectNextForward(s: State)
    requires WF(s) && NextLinks(s) && s.w.PrepE? && WF(RedirectNext(s))
    requires IsLinked(s, s.w.node) && IsLinked(s, s.nodes[s.w.node].prev) && s.w.node > 0
    requires s.nodes[s.nodes[s.w.node].prev].next == s.w.node
    requires s.nodes[s.w.node].prev != s.w.node && s.nodes[s.w.node].next != s.w.node
    ensures NextLinks(RedirectNext(s))
  {
    var t := RedirectNext(s);
    assert IsLinked(t, 0) by { assert IsLinked(s, 0); }
    forall q | IsLinked(t, q)
      ensures t.nodes[t.nodes[q].next].phase.Linked? && (t.nodes[q].next == 0 || q < t.nodes[q].next)
    {
      assert IsLinked(s, q);
      assert q != s.nodes[s.w.node].prev ==> s.nodes[q].next != s.w.node;
    }
    forall q, x | IsLinked(t, q) && IsLinked(t, x) && q < x
      ensures 0 < t.nodes[q].next <= x
    {
      RedirectNextBetween(s, q, x);
    }
  }

  lemma RedirectNextBetween(s: State, q: nat, x: nat)
    requires WF(s) && NextLinks(s) && s.w.PrepE? && WF(RedirectNext(s))
    requires IsLinked(s, s.w.node) && IsLinked(s, s.nodes[s.w.node].prev) && s.w.node > 0
    requires s.nodes[s.nodes[s.w.node].prev].next == s.w.node
    requires s.nodes[s.w.node].prev != s.w.node && s.nodes[s.w.node].next != s.w.node
    requires IsLinked(RedirectNext(s), q) && IsLinked(RedirectNext(s), x) && q < x
    ensures 0 < RedirectNext(s).nodes[q].next <= x
  {
    assert IsLinked(s, q) && IsLinked(s, x);
  }

  lemma RedirectNextBackward(s: State)
    requires WF(s) && NextLinks(s) && PrevLinks(s) && WriterOK(s) && s.w.PrepE? && WF(RedirectNext(s))
    requires IsLinked(s, s.w.node) && IsLinked(s, s.nodes[s.w.node].prev)
    requires s.nodes[s.nodes[s.w.node].prev].next == s.w.node
    requires s.nodes[s.w.node].prev != s.w.node && s.nodes[s.w.node].next != s.w.node
    ensures PrevLinks(RedirectNext(s))
  {
    hide NextLinks, WriterOK, PrevLinks;
    var t := RedirectNext(s);
    forall q | IsLinked(t, q)
      ensures t.nodes[t.nodes[q].prev].phase.Linked? && t.nodes[t.nodes[q].prev].next == q
    {
      RedirectNextPrev(s, q);
    }
    PrevLinksHold(t);
  }

  lemma PrevLinksHold(t: State)
    requires WF(t)
    requires forall q | IsLinked(t, q) :: t.nodes[t.nodes[q].prev].phase.Linked? && t.nodes[t.nodes[q].prev].next == q
    ensures PrevLinks(t)
  {
  }

  lemma RedirectNextPrev(s: State, q: nat)
    requires WF(s) && NextLinks(s) && PrevLinks(s) && WriterOK(s) && s.w.PrepE? && WF(RedirectNext(s))
    requires IsLinked(s, s.w.node) && IsLinked(s, s.nodes[s.w.node].prev)
    requires s.nodes[s.nodes[s.w.node].prev].next == s.w.node
    requires s.nodes[s.w.node].prev != s.w.node && s.nodes[s.w.node].next != s.w.node
    requires IsLinked(RedirectNext(s), q)
    ensures var t := RedirectNext(s); t.nodes[t.nodes[q].prev].phase.Linked? && t.nodes[t.nodes[q].prev].next == q
  {
    assert IsLinked(s, q);
    if q != s.nodes[s.w.node].next {
      assert !PrevTentative(s, q);
    }
  }

  lemma RedirectNextMarks(s: State)
    requires WF(s) && WriterOK(s) && MarksOK(s) && s.w.PrepE? && WF(RedirectNext(s))
    requires s.nodes[s.w.node].prev != s.w.node
    ensures WriterOK(RedirectNext(s)) && MarksOK(RedirectNext(s))
  {
    var t := RedirectNext(s);
    forall n | IsLinked(t, n) ensures IsLinked(s, n) {}
    forall n | IsUnlinked(t, n) && n != s.w.node ensures IsUnlinked(s, n) {}
  }

  lemma RedirectNextHistory(s: State)
    requires WF(s) && NextLinks(s) && HistoryOK(s) && s.w.PrepE? && WF(RedirectNext(s))
    requires IsLinked(s, s.w.node) && IsLinked(s, s.nodes[s.w.node].prev)
    requires s.nodes[s.w.node].prev != s.w.node && s.nodes[s.w.node].next != s.w.node
    ensures HistoryOK(RedirectNext(s))
  {
    RedirectNextKeeps(s);
    UnlinkHistory(s, RedirectNext(s), s.w.node);
  }

  lemma UnlinkHistory(s: State, t: State, k: nat)
    requires WF(s) && WF(t) && NextLinks(s) && HistoryOK(s) && OneMoreUnlinked(s, t, k)
    requires s.nodes[s.nodes[k].prev].phase.Linked? && s.nodes[k].prev != k && s.nodes[k].next != k
    ensures HistoryOK(t)
  {
    assert IsLinked(s, k);
    assert IsLinked(s, s.nodes[k].next) && IsLinked(s, s.nodes[k].prev);
    forall p | IsUnlinked(t, p)
      ensures t.nodes[p].stamp < t.unlinks && t.nodes[p].horizon <= Joined(t)
      ensures t.nodes[p].next == 0 || p < t.nodes[p].next
      ensures Later(t.nodes[p], t.nodes[t.nodes[p].next]) && Later(t.nodes[p], t.nodes[t.nodes[p].prev])
    {
      if p != k {
        assert IsUnlinked(s, p);
        LaterGrows(s, t, k, p, s.nodes[p].next);
        LaterGrows(s, t, k, p, s.nodes[p].prev);
      }
    }
    forall p, x | IsUnlinked(t, p) && IsLinked(t, x) && p < x < t.nodes[p].horizon
      ensures 0 < t.nodes[p].next <= x
    {
      assert p != k ==> IsUnlinked(s, p);
      assert IsLinked(s, x);
    }
  }

  lemma LeaveTrueShape(s: State)
    requires WF(s) && Shape(s) && s.w.PrepG? && WF(LeaveTrue(s))
    ensures Shape(LeaveTrue(s))
  {
    hide NextLinks, PrevLinks, HistoryOK, WriterOK, MarksOK, LeaveTrue, SameNodes;
    var t := LeaveTrue(s);
    WriterUnlinks(s);
    LeaveTrueSame(s);
    NodesForward(s, t);
    SameNext(s, t);
    SamePrev(s, t);
    SameHistory(s, t);
    LeaveTrueMarks(s);
  }

  lemma WriterUnlinks(s: State)
    requires WF(s) && WriterOK(s) && s.w.PrepG?
    ensures 0 < s.w.node < |s.nodes| && s.nodes[s.w.node].phase.Unlinking?
  {
  }

  lemma LeaveTrueSame(s: State)
    requires InRange(s) && s.w.PrepG? && s.nodes[s.w.node].phase.Unlinking?
    ensures SameNodes(s, LeaveTrue(s)) && LeaveTrue(s).w == Idle
  {
  }

  lemma LeaveTrueMarks(s: State)
    requires WF(s) && WriterOK(s) && MarksOK(s) && s.w.PrepG? && WF(LeaveTrue(s))
    ensures WriterOK(LeaveTrue(s)) && MarksOK(LeaveTrue(s))
  {
    var t := LeaveTrue(s);
    forall n | IsLinked(t, n) ensures IsLinked(s, n) {}
    forall n | IsUnlinked(t, n) ensures IsUnlinked(s, n) {}
  }
}
