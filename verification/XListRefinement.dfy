/**
  The list that `XList` represents: a sequence that `push_back` appends to and a successful
  `xerase_prepare` removes one node from, each at one atomic step.
 */
module XListRefinement {
  import opened XListProtocol
  import opened XListCounts
  import opened XListInvariant
  import opened XListCountSteps
  import opened XListShapeSteps
  import opened XListSafety
  import opened XListMemory

  /** The linked nodes numbered from `lo` up to but not including `hi`, in push order. */
  function Range(nodes: seq<Node>, lo: nat, hi: nat): seq<nat>
    requires hi <= |nodes|
    decreases hi - lo
  {
    if lo >= hi then [] else (if nodes[lo].phase.Linked? then [lo] else []) + Range(nodes, lo + 1, hi)
  }

  /** The abstract value of the list. */
  function Content(s: State): seq<nat> {
    Range(s.nodes, 1, |s.nodes|)
  }

  function Without(q: seq<nat>, k: nat): seq<nat> {
    if q == [] then [] else (if q[0] == k then [] else [q[0]]) + Without(q[1..], k)
  }

  // ---------------------------------------------------------------- ranges

  lemma {:induction false} RangeSplit(nodes: seq<Node>, lo: nat, mid: nat, hi: nat)
    requires lo <= mid <= hi <= |nodes|
    ensures Range(nodes, lo, hi) == Range(nodes, lo, mid) + Range(nodes, mid, hi)
    decreases mid - lo
  {
    if lo < mid {
      RangeSplit(nodes, lo + 1, mid, hi);
    }
  }

  lemma {:induction false} RangeEmpty(nodes: seq<Node>, lo: nat, hi: nat)
    requires hi <= |nodes| && forall i | lo <= i < hi :: !nodes[i].phase.Linked?
    ensures Range(nodes, lo, hi) == []
    decreases hi - lo
  {
    if lo < hi {
      RangeEmpty(nodes, lo + 1, hi);
    }
  }

  lemma {:induction false} RangeSame(a: seq<Node>, b: seq<Node>, lo: nat, hi: nat)
    requires hi <= |a| && hi <= |b|
    requires forall i | lo <= i < hi :: a[i].phase.Linked? == b[i].phase.Linked?
    ensures Range(a, lo, hi) == Range(b, lo, hi)
    decreases hi - lo
  {
    if lo < hi {
      assert a[lo].phase.Linked? == b[lo].phase.Linked?;
      RangeSame(a, b, lo + 1, hi);
    }
  }

  lemma {:induction false} RangeMembers(nodes: seq<Node>, lo: nat, hi: nat, x: nat)
    requires hi <= |nodes|
    ensures x in Range(nodes, lo, hi) <==> lo <= x < hi && nodes[x].phase.Linked?
    decreases hi - lo
  {
    if lo < hi {
      RangeMembers(nodes, lo + 1, hi, x);
    }
  }

  lemma {:induction false} RangeSorted(nodes: seq<Node>, lo: nat, hi: nat)
    requires hi <= |nodes|
    ensures forall i, j | 0 <= i < j < |Range(nodes, lo, hi)| :: Range(nodes, lo, hi)[i] < Range(nodes, lo, hi)[j]
    decreases hi - lo
  {
    if lo < hi {
      RangeSorted(nodes, lo + 1, hi);
      var rest := Range(nodes, lo + 1, hi);
      forall j | 0 <= j < |rest| ensures lo < rest[j] {
        RangeMembers(nodes, lo + 1, hi, rest[j]);
      }
    }
  }

  /** The list holds exactly the linked nodes, each once, in push order. */
  lemma ContentMembers(s: State, x: nat)
    ensures x in Content(s) <==> x > 0 && IsLinked(s, x)
    ensures forall i, j | 0 <= i < j < |Content(s)| :: Content(s)[i] < Content(s)[j]
  {
    RangeMembers(s.nodes, 1, |s.nodes|, x);
    RangeSorted(s.nodes, 1, |s.nodes|);
  }

  lemma {:induction false} RangeWithout(a: seq<Node>, b: seq<Node>, k: nat, lo: nat, hi: nat)
    requires hi <= |a| && hi <= |b| && (k >= hi || !b[k].phase.Linked?)
    requires forall i | lo <= i < hi && i != k :: a[i].phase.Linked? == b[i].phase.Linked?
    ensures Range(b, lo, hi) == Without(Range(a, lo, hi), k)
    decreases hi - lo
  {
    if lo < hi {
      RangeWithout(a, b, k, lo + 1, hi);
      var rest := Range(a, lo + 1, hi);
      if a[lo].phase.Linked? {
        assert ([lo] + rest)[1..] == rest;
      } else {
        assert [] + rest == rest;
      }
    }
  }

  // ---------------------------------------------------------------- what each step does to the list

  lemma AppendContent(s: State)
    requires WF(s) && WriterOK(s) && s.w.PushB?
    requires s.nodes[0].prev < s.w.node && s.nodes[s.nodes[0].prev].phase.Linked?
    ensures Content(LinkLast(s)) == Content(s) + [s.w.node]
  {
    var t := LinkLast(s);
    var k := s.w.node;
    RangeSplit(s.nodes, 1, k, k + 1);
    RangeSplit(t.nodes, 1, k, k + 1);
    RangeSame(s.nodes, t.nodes, 1, k);
    assert Range(t.nodes, k, k + 1) == [k] + Range(t.nodes, k + 1, k + 1);
    assert Range(s.nodes, k, k + 1) == Range(s.nodes, k + 1, k + 1);
  }

  lemma RemoveContent(s: State)
    requires InRange(s) && s.w.PrepE? && s.nodes[s.w.node].prev < |s.nodes|
    requires s.nodes[s.w.node].prev != s.w.node
    ensures Content(RedirectNext(s)) == Without(Content(s), s.w.node)
  {
    RangeWithout(s.nodes, RedirectNext(s).nodes, s.w.node, 1, |s.nodes|);
  }

  lemma SameContent(s: State, t: State)
    requires |s.nodes| == |t.nodes|
    requires forall n | 0 <= n < |s.nodes| :: s.nodes[n].phase.Linked? == t.nodes[n].phase.Linked?
    ensures Content(t) == Content(s)
  {
    RangeSame(s.nodes, t.nodes, 1, |s.nodes|);
  }

  lemma CreateContent(s: State)
    requires WF(s)
    ensures Content(Create(s)) == Content(s)
  {
    var t := Create(s);
    RangeSplit(t.nodes, 1, |s.nodes|, |t.nodes|);
    RangeSame(s.nodes, t.nodes, 1, |s.nodes|);
    RangeEmpty(t.nodes, |s.nodes|, |t.nodes|);
  }

  predicate Relinks(w: Writer) { w.PushB? || w.PrepE? }

  lemma WriterFlags(s: State)
    requires WF(s) && WriterEnabled(s) && !Relinks(s.w)
    requires s.w.PrepG? ==> s.nodes[s.w.node].phase.Unlinking?
    ensures forall n | 0 <= n < |s.nodes| :: s.nodes[n].phase.Linked? == WriterStep(s).nodes[n].phase.Linked?
  {
  }

  /** The list after a step: joining appends the new node, unlinking removes exactly the node at hand,
      and no other step of any thread changes the list. */
  function Effect(s: State, a: Action): seq<nat> {
    if a.Write? && s.w.PushB? then Content(s) + [s.w.node]
    else if a.Write? && s.w.PrepE? then Without(Content(s), s.w.node)
    else Content(s)
  }

  lemma WriterContent(s: State)
    requires Inv(s) && WriterEnabled(s)
    ensures Content(WriterStep(s)) == Effect(s, Write)
  {
    hide Inv, Content, Without;
    WriterFacts(s);
    if s.w.PushB? {
      NewIsLast(s);
      AppendContent(s);
    } else if s.w.PrepE? {
      NotOwnPrev(s);
      RemoveContent(s);
    } else {
      WriterFlags(s);
      SameContent(s, WriterStep(s));
    }
  }

  lemma NewIsLast(s: State)
    requires Inv(s) && s.w.PushB?
    ensures WriterOK(s) && s.nodes[0].prev < s.w.node
  {
    LastNode(s);
  }

  lemma NotOwnPrev(s: State)
    requires Inv(s) && s.w.PrepE?
    ensures s.nodes[s.w.node].prev != s.w.node && InRange(s)
  {
    PredecessorOf(s);
  }

  /** Each step of each thread has its atomic effect on the abstract list. */
  lemma StepContent(s: State, a: Action)
    requires Inv(s) && Enabled(s, a)
    ensures Content(Step(s, a)) == Effect(s, a)
  {
    hide Inv, Content, WriterStep, EraseStep, Create, SameNodes;
    WriterFacts(s);
    match a
    case Write => WriterContent(s);
    case StartPush => CreateContent(s);
    case StartPrepare(i) => SameContent(s, CopyArgument(s, s.iters[i]));
    case Erase(n) =>
      EraseKeeps(s, n);
      LinkedFlags(s, EraseStep(s, n));
      SameContent(s, EraseStep(s, n));
    case _ =>
      OthersKeep(s, a);
      LinkedFlags(s, Step(s, a));
      SameContent(s, Step(s, a));
  }

  lemma LinkedFlags(s: State, t: State)
    requires SameNodes(s, t)
    ensures |s.nodes| == |t.nodes|
    ensures forall n | 0 <= n < |s.nodes| :: s.nodes[n].phase.Linked? == t.nodes[n].phase.Linked?
  {
    assert forall n | 0 <= n < |s.nodes| :: SameNode(s.nodes[n], t.nodes[n]);
  }

  // ---------------------------------------------------------------- what walking the list reads

  /** The nodes met along next from `p` until the sentinel. */
  ghost function Forward(s: State, p: nat): seq<nat>
    requires WF(s) && NextLinks(s) && IsLinked(s, p)
    decreases |s.nodes| - p
  {
    var q := s.nodes[p].next;
    if q == 0 then [] else [q] + Forward(s, q)
  }

  /** No linked node lies between a linked node and its successor. */
  lemma GapEmpty(s: State, p: nat)
    requires WF(s) && NextLinks(s) && IsLinked(s, p)
    ensures var q := s.nodes[p].next; Range(s.nodes, p + 1, if q == 0 then |s.nodes| else q) == []
  {
    var stop := if s.nodes[p].next == 0 then |s.nodes| else s.nodes[p].next;
    forall i | p + 1 <= i < stop ensures !s.nodes[i].phase.Linked? {
      assert !IsLinked(s, i);
    }
    RangeEmpty(s.nodes, p + 1, stop);
  }

  lemma {:induction false} ForwardIs(s: State, p: nat)
    requires WF(s) && NextLinks(s) && IsLinked(s, p)
    ensures Forward(s, p) == Range(s.nodes, p + 1, |s.nodes|)
    decreases |s.nodes| - p
  {
    var q := s.nodes[p].next;
    var stop := if q == 0 then |s.nodes| else q;
    GapEmpty(s, p);
    RangeSplit(s.nodes, p + 1, stop, |s.nodes|);
    if q != 0 {
      ForwardIs(s, q);
    }
  }

  /** At every moment, even between two lines of a writer, next leads from the sentinel through
      exactly the abstract list and back. */
  lemma ForwardReadsContent(s: State)
    requires Inv(s)
    ensures IsLinked(s, 0) && Forward(s, 0) == Content(s)
  {
    ForwardIs(s, 0);
  }

  predicate Mirrored(w: Writer) { !PushLate(w) && !PrepMiddle(w) }

  /** The nodes met along prev from `q` until the sentinel, last met first. */
  ghost function Backward(s: State, q: nat): seq<nat>
    requires WF(s) && NextLinks(s) && PrevLinks(s) && Mirrored(s.w) && IsLinked(s, q)
    decreases if q == 0 then |s.nodes| else q
  {
    PrevIsBelow(s, q);
    var p := s.nodes[q].prev;
    if p == 0 then [] else Backward(s, p) + [p]
  }

  lemma PrevIsBelow(s: State, q: nat)
    requires WF(s) && NextLinks(s) && PrevLinks(s) && Mirrored(s.w) && IsLinked(s, q)
    ensures IsLinked(s, s.nodes[q].prev) && s.nodes[s.nodes[q].prev].next == q
    ensures q == 0 || s.nodes[q].prev < q
  {
    assert !PrevTentative(s, q);
    assert IsLinked(s, s.nodes[q].prev);
  }

  lemma {:induction false} BackwardIs(s: State, q: nat)
    requires WF(s) && NextLinks(s) && PrevLinks(s) && Mirrored(s.w) && IsLinked(s, q)
    ensures Backward(s, q) == Range(s.nodes, 1, if q == 0 then |s.nodes| else q)
    decreases if q == 0 then |s.nodes| else q
  {
    hide NextLinks, PrevLinks, Mirrored;
    PrevIsBelow(s, q);
    var p := s.nodes[q].prev;
    var stop := if q == 0 then |s.nodes| else q;
    GapEmpty(s, p);
    RangeSplit(s.nodes, 1, p + 1, stop);
    if p != 0 {
      BackwardIs(s, p);
      RangeSplit(s.nodes, 1, p, p + 1);
      assert Range(s.nodes, p, p + 1) == [p] + Range(s.nodes, p + 1, p + 1);
    }
  }

  /** Outside the writer's tentative moments prev reads the same list. */
  lemma BackwardReadsContent(s: State)
    requires Inv(s) && Mirrored(s.w)
    ensures IsLinked(s, 0) && Backward(s, 0) == Content(s)
  {
    BackwardIs(s, 0);
  }

  // ---------------------------------------------------------------- a second prepare

  /** `xerase_prepare` on a node that another one has unlinked answers false and leaves everything as it was. */
  lemma SecondPrepare(s: State, n: nat)
    requires Inv(s) && s.w.Idle? && IsUnlinked(s, n)
    ensures TestErasing(CopyArgument(s, n)).w == PrepFalse(n)
    ensures LeaveFalse(TestErasing(CopyArgument(s, n))) == s
  {
    hide Inv;
    UnlinkedMarked(s, n);
    assert s.nodes[n := s.nodes[n]] == s.nodes;
  }

  lemma UnlinkedMarked(s: State, n: nat)
    requires Inv(s) && IsUnlinked(s, n)
    ensures n < |s.nodes| && s.nodes[n].erasing && (s.nodes[n].phase.Asleep? ==> s.nodes[n].usage > 0)
  {
  }
}
