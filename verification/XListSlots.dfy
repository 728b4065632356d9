/**
  The data of a list: how its value changes when nodes come and go.
 */
module XListSlots {
  import opened XListProtocol
  import opened XListInvariant
  import opened XListShapeSteps
  import opened XListRefinement
  import opened XListSequential
  import opened XLists

  lemma {:induction false} SlotsConcat<T>(nodes: seq<XListNode<T>>, q: seq<nat>, r: seq<nat>)
    ensures Slots(nodes, q + r) == Slots(nodes, q) + Slots(nodes, r)
  {
    if r == [] {
      assert q + r == q;
    } else {
      SlotsConcat(nodes, q, r[..|r| - 1]);
      assert (q + r)[..|q + r| - 1] == q + r[..|r| - 1];
    }
  }

  predicate Within(q: seq<nat>, n: nat) {
    forall j | 0 <= j < |q| :: q[j] < n
  }

  /** Nodes created later do not change what the earlier ones hold. */
  lemma {:induction false} SlotsGrow<T>(nodes: seq<XListNode<T>>, more: seq<XListNode<T>>, q: seq<nat>)
    requires |nodes| <= |more| && more[..|nodes|] == nodes && Within(q, |nodes|)
    ensures Slots(more, q) == Slots(nodes, q)
  {
    if q != [] {
      SlotsGrow(nodes, more, q[..|q| - 1]);
      assert more[q[|q| - 1]] == more[..|nodes|][q[|q| - 1]];
    }
  }

  /** Where a member of an increasing sequence stands, and what removing it leaves. */
  lemma {:induction false} WithoutSplits(q: seq<nat>, k: nat) returns (i: nat)
    requires k in q && forall i, j | 0 <= i < j < |q| :: q[i] < q[j]
    ensures i < |q| && q[i] == k && Without(q, k) == q[..i] + q[i + 1..]
  {
    if q[0] == k {
      i := 0;
      WithoutAbsent(q[1..], k);
    } else {
      i := WithoutSplits(q[1..], k);
      assert q[1..][..i] == q[1..i + 1] && q[1..][i + 1..] == q[i + 2..];
      assert [q[0]] + q[1..i + 1] == q[..i + 1];
      i := i + 1;
    }
  }

  lemma SlotsAround<T>(nodes: seq<XListNode<T>>, q: seq<nat>, i: nat)
    requires i < |q| && q[i] < |nodes|
    ensures |Slots(nodes, q)| == |q| && Slots(nodes, q)[i] == nodes[q[i]].slot
    ensures Slots(nodes, q[..i]) == Slots(nodes, q)[..i] && Slots(nodes, q[i + 1..]) == Slots(nodes, q)[i + 1..]
  {
    assert q == q[..i] + [q[i]] + q[i + 1..];
    assert Slots(nodes, [q[i]]) == [nodes[q[i]].slot] by {
      assert [] + [q[i]] == [q[i]];
      SlotsAppend(nodes, [], q[i]);
    }
    hide Slots;
    SlotsConcat(nodes, q[..i] + [q[i]], q[i + 1..]);
    SlotsConcat(nodes, q[..i], [q[i]]);
    SlotsLength(nodes, q);
    SlotsLength(nodes, q[..i]);
  }

  lemma {:induction false} SlotsLength<T>(nodes: seq<XListNode<T>>, q: seq<nat>)
    ensures |Slots(nodes, q)| == |q|
  {
    if q != [] {
      SlotsLength(nodes, q[..|q| - 1]);
    }
  }

  /** What the list's value says about its nodes. */
  lemma ListedFacts(s: State)
    ensures Within(Content(s), |s.nodes|)
    ensures forall i, j | 0 <= i < j < |Content(s)| :: Content(s)[i] < Content(s)[j]
  {
    hide Content;
    forall j | 0 <= j < |Content(s)| ensures Content(s)[j] < |s.nodes| {
      assert Content(s)[j] in Content(s);
      ContentMembers(s, Content(s)[j]);
    }
    ContentMembers(s, 0);
  }

  lemma ListedUnmarked(s: State, n: nat)
    requires Calm(s) && WF(s) && IsLinked(s, n)
    ensures !s.nodes[n].erasing && (n > 0 ==> n in Content(s))
  {
    ContentMembers(s, n);
  }

  lemma SameNodesContent(s: State, t: State)
    requires SameNodes(s, t)
    ensures Content(t) == Content(s)
  {
    forall n | 0 <= n < |s.nodes| ensures s.nodes[n].phase.Linked? == t.nodes[n].phase.Linked? {
      assert SameNode(s.nodes[n], t.nodes[n]);
    }
    SameContent(s, t);
  }

  /** Removing a node from the list removes its data, once. */
  lemma SlotsRemoved<T>(nodes: seq<XListNode<T>>, q: seq<nat>, k: nat) returns (i: nat)
    requires k in q && k < |nodes| && forall i, j | 0 <= i < j < |q| :: q[i] < q[j]
    ensures i < |q| == |Slots(nodes, q)| && q[i] == k && Slots(nodes, q)[i] == nodes[k].slot
    ensures Slots(nodes, Without(q, k)) == Slots(nodes, q)[..i] + Slots(nodes, q)[i + 1..]
  {
    hide Slots, Without;
    i := WithoutSplits(q, k);
    SlotsAround(nodes, q, i);
    SlotsConcat(nodes, q[..i], q[i + 1..]);
  }

  lemma SlotsAppended<T>(nodes: seq<XListNode<T>>, more: seq<XListNode<T>>, q: seq<nat>)
    requires |more| == |nodes| + 1 && more[..|nodes|] == nodes && Within(q, |nodes|)
    ensures Slots(more, q + [|nodes|]) == Slots(nodes, q) + [more[|nodes|].slot]
  {
    SlotsGrow(nodes, more, q);
    SlotsAppend(more, q, |nodes|);
  }

  /** A node that an iterator stands on and that is not marked is in the list. */
  lemma IteratorListed(s: State, i: nat)
    requires Calm(s) && WF(s) && i < |s.iters| && s.iters[i] > 0 && !s.nodes[s.iters[i]].erasing
    ensures s.iters[i] in Content(s)
  {
    hide Content;
    var n := s.iters[i];
    assert IsLinked(s, n) || IsUnlinked(s, n) || s.nodes[n].phase.New?;
    IteratorJoined(s, i);
    ContentMembers(s, n);
  }

  lemma IteratorJoined(s: State, i: nat)
    requires Calm(s) && WF(s) && i < |s.iters| && s.iters[i] > 0
    ensures !s.nodes[s.iters[i]].phase.New?
  {
  }

  /** Letting an iterator go marks nothing. */
  lemma FiniMarksAll(s: State, i: nat)
    requires WF(s) && Enabled(s, Action.Fini(i))
    ensures |Step(s, Action.Fini(i)).nodes| == |s.nodes|
    ensures forall n | 0 <= n < |s.nodes| :: Step(s, Action.Fini(i)).nodes[n].erasing == s.nodes[n].erasing
  {
  }

  lemma SamePassed(s: State, t: State, p: nat)
    requires SameNodes(s, t) && p < |s.nodes|
    ensures p < |t.nodes| && Passed(t, p) == Passed(s, p) && IsLinked(t, p) == IsLinked(s, p)
  {
    forall n | 0 <= n < |s.nodes| ensures s.nodes[n].phase.Linked? == t.nodes[n].phase.Linked? {
      assert SameNode(s.nodes[n], t.nodes[n]);
    }
    RangeSame(s.nodes, t.nodes, 1, if p == 0 then |s.nodes| else p);
  }

  lemma ListedSplit(s: State, k: nat)
    requires k > 0 && IsLinked(s, k)
    ensures Content(s) == Passed(s, k) + [k] + Range(s.nodes, k + 1, |s.nodes|)
  {
    RangeSplit(s.nodes, 1, k, |s.nodes|);
    assert Range(s.nodes, k, |s.nodes|) == [k] + Range(s.nodes, k + 1, |s.nodes|);
  }

  lemma SameNodesSelf(s: State)
    ensures SameNodes(s, s)
  {
  }
}
