/**
  `XList` as objects: nodes whose fields are updated in place and iterators that count.
  Every line of every method is one step of the protocol on the values the objects hold.
 */
module XLists {
  import opened XListProtocol
  import opened XListCounts
  import opened XListInvariant
  import opened XListCountSteps
  import opened XListShapeSteps
  import opened XListMemory
  import opened XListRefinement
  import opened XListSequential

  predicate Below(i: int, n: nat) {
    0 <= i < n
  }

  /** The sentinel carries no data. */
  datatype Slot<T> = Sentinel | Data(value: T)

  predicate SameFields(s: State, t: State) {
    && |s.nodes| == |t.nodes| && s.iters == t.iters
    && forall i | 0 <= i < |s.nodes| ::
         s.nodes[i].next == t.nodes[i].next && s.nodes[i].prev == t.nodes[i].prev
         && s.nodes[i].usage == t.nodes[i].usage && s.nodes[i].erasing == t.nodes[i].erasing
  }

  lemma CalmWF(s: State)
    requires Calm(s)
    ensures WF(s)
  {
  }

  lemma MarkedUnlinked(s: State, n: nat)
    requires Calm(s) && n < |s.nodes| && s.nodes[n].erasing
    ensures IsUnlinked(s, n)
  {
    assert !IsLinked(s, n);
  }

  lemma SecondPrepareCalm(s: State, n: nat)
    requires Calm(s) && IsUnlinked(s, n)
    ensures WF(s) && TestErasing(CopyArgument(s, n)).w == PrepFalse(n)
    ensures LeaveFalse(TestErasing(CopyArgument(s, n))) == s
  {
    hide Inv;
    InvWF(s);
    SecondPrepare(s, n);
  }

  class XListNode<T> {
    var next: XListNode<T>
    var prev: XListNode<T>
    var usageNO: int
    var isErasing: bool
    const slot: Slot<T>
    ghost const id: nat

    /** A node is created pointing at itself. */
    constructor (slot: Slot<T>, ghost id: nat)
      ensures this.slot == slot && this.id == id
      ensures next == this && prev == this && usageNO == 0 && !isErasing
    {
      this.next, this.prev, this.usageNO, this.isErasing := this, this, 0, false;
      this.slot, this.id := slot, id;
    }

    ghost predicate Shows(m: Node)
      reads this
    {
      next.id == m.next && prev.id == m.prev && usageNO == m.usage && isErasing == m.erasing
    }
  }

  /** The data of the nodes that `q` lists. */
  ghost function Slots<T>(nodes: seq<XListNode<T>>, q: seq<nat>): seq<Slot<T>> {
    if q == [] then []
    else Slots(nodes, q[..|q| - 1]) + [if q[|q| - 1] < |nodes| then nodes[q[|q| - 1]].slot else Sentinel]
  }

  lemma SlotsAppend<T>(nodes: seq<XListNode<T>>, q: seq<nat>, n: nat)
    requires n < |nodes|
    ensures Slots(nodes, q + [n]) == Slots(nodes, q) + [nodes[n].slot]
  {
    assert (q + [n])[..|q|] == q;
  }

  class XListIterator<T> {
    var node: XListNode?<T>
    ghost const id: nat

    constructor (ghost id: nat)
      ensures node == null && this.id == id
    {
      node, this.id := null, id;
    }

    ghost predicate Shows(m: int)
      reads this
    {
      m == if node == null then NULL else node.id
    }
  }

  class XList<T> {
    const sentinel: XListNode<T>
    ghost var nodes: seq<XListNode<T>>      // every node ever created, freed ones included
    ghost var iters: seq<XListIterator<T>>  // every iterator object ever created
    ghost var model: State                  // the protocol state that the objects hold

    ghost predicate Valid()
      reads this, nodes, iters
    {
      && |model.nodes| == |nodes| > 0 && nodes[0] == sentinel
      && |model.iters| == |iters|
      && (forall i {:trigger Below(i, |nodes|)} | Below(i, |nodes|) ::
            nodes[i].id == i && (nodes[i].slot.Sentinel? <==> i == 0)
            && nodes[i].Shows(model.nodes[i]) && Holds(nodes[i].next) && Holds(nodes[i].prev))
      && (forall i {:trigger Below(i, |iters|)} | Below(i, |iters|) ::
            iters[i].id == i && iters[i].Shows(model.iters[i]) && (iters[i].node == null || Holds(iters[i].node)))
    }

    /** The node is one of this list's. */
    ghost predicate Holds(nd: XListNode?<T>)
      reads this
    {
      nd != null && nd.id < |nodes| && nodes[nd.id] == nd
    }

    ghost predicate HoldsIterator(it: XListIterator<T>)
      reads this
    {
      it.id < |iters| && iters[it.id] == it
    }

    constructor ()
      ensures Valid() && fresh(nodes) && iters == []
      ensures model == Init() && Calm(model)
    {
      var nd := new XListNode(Sentinel, 0);
      sentinel := nd;
      nodes, iters, model := [nd], [], Init();
      new;
      InitInv();
    }

    // -------------------------------------------------------------- single field updates

    /** access(): one more use of the node. */
    method Access(nd: XListNode<T>)
      requires Valid() && Holds(nd)
      modifies this`model, nd`usageNO
      ensures Valid() && model == Bump(old(model), nd.id)
    {
      nd.usageNO := nd.usageNO + 1;
      model := Bump(model, nd.id);
    }

    /** release(): one use less; reaching zero signals a waiter. */
    method Release(nd: XListNode<T>)
      requires Valid() && Holds(nd)
      modifies this`model, nd`usageNO
      ensures Valid() && model == Drop(old(model), nd.id)
    {
      nd.usageNO := nd.usageNO - 1;
      model := Drop(model, nd.id);
    }

    /** chNextPrev(to, NULL) */
    method ChNext(nd: XListNode<T>, to: XListNode<T>)
      requires Valid() && Holds(nd) && Holds(to)
      modifies this`model, nd`next
      ensures Valid() && model == SetNext(old(model), nd.id, to.id)
    {
      nd.next := to;
      model := SetNext(model, nd.id, to.id);
    }

    /** chNextPrev(NULL, to) */
    method ChPrev(nd: XListNode<T>, to: XListNode<T>)
      requires Valid() && Holds(nd) && Holds(to)
      modifies this`model, nd`prev
      ensures Valid() && model == SetPrev(old(model), nd.id, to.id) && nd.prev == to
    {
      nd.prev := to;
      model := SetPrev(model, nd.id, to.id);
    }

    method MarkErasing(nd: XListNode<T>)
      requires Valid() && Holds(nd)
      modifies this`model, nd`isErasing
      ensures Valid() && model == old(model).(nodes := old(model).nodes[nd.id := old(model).nodes[nd.id].(erasing := true)])
    {
      nd.isErasing := true;
      model := model.(nodes := model.nodes[nd.id := model.nodes[nd.id].(erasing := true)]);
    }

    method PutIterator(it: XListIterator<T>, nd: XListNode?<T>)
      requires Valid() && HoldsIterator(it) && (nd == null || Holds(nd))
      modifies this`model, it
      ensures Valid() && it.node == nd
      ensures model == SetIter(old(model), it.id, if nd == null then NULL else nd.id)
    {
      it.node := nd;
      model := SetIter(model, it.id, if nd == null then NULL else nd.id);
    }

    /** History that no object field shows. */
    ghost method Recall(m: State)
      requires Valid() && SameFields(model, m)
      modifies this`model
      ensures Valid() && model == m
    {
      model := m;
    }

    /** The neighbours of a node belong to the list and are the ones the model names. */
    lemma Neighbours(nd: XListNode<T>)
      requires Valid() && Holds(nd)
      ensures Holds(nd.next) && Holds(nd.prev) && nd.Shows(model.nodes[nd.id])
    {
      assert Below(nd.id, |nodes|);
    }

    lemma SentinelHeld()
      requires Valid()
      ensures Holds(sentinel) && sentinel.id == 0
    {
      assert Below(0, |nodes|);
    }

    // -------------------------------------------------------------- push_back

    method NewNode(val: T) returns (nd: XListNode<T>)
      requires Valid()
      modifies this`nodes, this`model
      ensures Valid() && fresh(nd) && nd.slot == Data(val) && Holds(nd) && nd.id == |old(nodes)| > 0 && nd.prev == sentinel.prev
      ensures nodes == old(nodes) + [nd] && iters == old(iters)
      ensures model == Create(old(model))
    {
      nd := new XListNode(Data(val), |nodes|);
      SentinelHeld();
      Neighbours(sentinel);
      nd.next := sentinel;
      nd.prev := sentinel.prev;
      nodes := nodes + [nd];
      model := Create(model);
      assert forall i | Below(i, |nodes|) && i < |old(nodes)| :: Below(i, |old(nodes)|);
    }

    method PushBack(val: T)
      requires Valid() && Calm(model)
      modifies this`nodes, this`model, nodes
      ensures Valid() && Calm(model)
      ensures |nodes| == |old(nodes)| + 1 && nodes[..|old(nodes)|] == old(nodes) && iters == old(iters)
      ensures fresh(nodes[|old(nodes)|]) && nodes[|old(nodes)|].slot == Data(val)
      ensures model == XListSequential.PushBack(old(model))
      ensures Content(model) == Content(old(model)) + [|old(nodes)|] && sentinel.prev == nodes[|old(nodes)|]
    {
      hide Calm, Content, CountNew, LinkLast, CountNewAgain, CloseRing, Create;
      CalmWF(model);
      PushBackAppends(model);
      ghost var before := model;
      var nd := NewNode(val);
      LinkIn(nd, before);
    }

    /** The lines of push_back that link the new node in. */
    method LinkIn(nd: XListNode<T>, ghost before: State)
      requires Valid() && Holds(nd) && nd.id == |before.nodes| > 0 && nd.prev == sentinel.prev && WF(before) && model == Create(before)
      modifies this`model, nodes
      ensures Valid() && model == XListSequential.PushBack(before) && sentinel.prev == nd
    {
      SentinelHeld();
      Access(nd);
      Recall(model.(w := PushB(nd.id)));
      Neighbours(sentinel);
      ChNext(sentinel.prev, nd);
      Recall(SetPhase(model, nd.id, Linked).(w := PushC(nd.id)));
      Access(nd);
      Recall(model.(w := PushD(nd.id)));
      ChPrev(sentinel, nd);
      Recall(model.(w := Idle));
    }

    // -------------------------------------------------------------- xerase_prepare

    /** False leaves everything as it was; true removes exactly the iterator's node from the list. */
    method XErasePrepare(pos: XListIterator<T>) returns (ok: bool)
      requires Valid() && WF(model) && Calm(model) && HoldsIterator(pos) && pos.node != null && pos.node != sentinel
      requires Holds(pos.node)
      modifies this`model, nodes
      ensures Valid() && Calm(model)
      ensures ok == !old(pos.node.isErasing)
      ensures model == if ok then Prepare(old(model), pos.node.id) else old(model)
      ensures Content(model) == if ok then Without(Content(old(model)), pos.node.id) else Content(old(model))
    {
      hide Calm, Content, Without, FirstHalf, SecondHalf;
      SentinelHeld();
      IteratorHeld(pos);
      var k := pos.node;
      Neighbours(k);
      Access(k);
      Recall(model.(w := PrepCopy(k.id)));
      if k.isErasing {
        Recall(model.(w := PrepFalse(k.id)));
        Release(k);
        Recall(model.(w := Idle));
        MarkedUnlinked(old(model), k.id);
        SecondPrepareCalm(old(model), k.id);
        return false;
      }
      MarkErasing(k);
      Recall(model.(w := PrepA(k.id)));
      assert model == Unmarked(old(model), k.id);
      UnlinkFirstHalf(k);
      UnlinkSecondHalf(k);
      PrepareRemoves(old(model), pos.id);
      ok := true;
    }

    method UnlinkFirstHalf(k: XListNode<T>)
      requires Valid() && Holds(k) && model.w == PrepA(k.id) && NeighboursInRange(model)
      modifies this`model, nodes
      ensures Valid() && model == FirstHalf(old(model))
    {
      Neighbours(k);
      Access(k.prev);
      Recall(model.(w := PrepB(k.id)));
      Neighbours(k);
      ChPrev(k.next, k.prev);
      Recall(model.(w := PrepC(k.id)));
      Release(k);
      Recall(model.(w := PrepD(k.id)));
    }

    method UnlinkSecondHalf(k: XListNode<T>)
      requires Valid() && Holds(k) && model.w == PrepD(k.id) && NeighboursInRange(model)
      modifies this`model, nodes
      ensures Valid() && model == SecondHalf(old(model))
    {
      Neighbours(k);
      Access(k.next);
      Recall(model.(w := PrepE(k.id)));
      Neighbours(k);
      ChNext(k.prev, k.next);
      Recall(MarkUnlinked(model, k.id).(w := PrepF(k.id)));
      Release(k);
      Recall(model.(w := PrepG(k.id)));
      Release(k);
      Recall(SetPhase(model, k.id, Prepared).(w := Idle));
    }

    lemma IteratorHeld(it: XListIterator<T>)
      requires Valid() && HoldsIterator(it)
      ensures it.Shows(model.iters[it.id]) && (it.node == null || Holds(it.node))
    {
      assert Below(it.id, |iters|);
    }

    // -------------------------------------------------------------- xerase

    /** Frees the iterator's node if its count was the only one, and otherwise goes to sleep. */
    method XErase(pos: XListIterator<T>) returns (freed: bool)
      requires Valid() && WF(model) && Calm(model) && HoldsIterator(pos) && pos.node != null && pos.node != sentinel
      requires Holds(pos.node) && model.iters[pos.id] > 0 && model.nodes[model.iters[pos.id]].phase.Prepared?
      modifies this`model, nodes, pos
      ensures Valid() && Calm(model)
      ensures freed == (old(pos.node.usageNO) == 1)
      ensures pos.node == null && model == EraseCall(old(model), pos.id)
      ensures Content(model) == Content(old(model))
    {
      hide Calm, Content;
      IteratorHeld(pos);
      var n, next, prev := EraseEntry(pos);
      EraseFrees(old(model), pos.id);
      freed := EraseExit(n, next, prev);
    }

    /** The lines of xerase from the test of usageNO on. */
    method EraseExit(n: XListNode<T>, next: XListNode<T>, prev: XListNode<T>) returns (freed: bool)
      requires Valid() && Holds(n) && Holds(next) && Holds(prev)
      modifies this`model, nodes
      ensures Valid() && freed == !(old(n.usageNO) > 0)
      ensures var s2 := CheckUsage(old(model), n.id);
              model == if freed then GiveBack(GiveBack(s2, n.id, next.id, OwesPrev), n.id, prev.id, Gone)
                       else SetPhase(s2, n.id, Asleep)
    {
      if n.usageNO > 0 {
        Recall(SetPhase(CheckUsage(model, n.id), n.id, Asleep));
        return false;
      }
      Recall(CheckUsage(model, n.id));
      Release(next);
      Recall(SetPhase(model, n.id, OwesPrev));
      Release(prev);
      Recall(SetPhase(model, n.id, Gone));
      freed := true;
    }

    /** The lines of xerase up to the test of usageNO. */
    method EraseEntry(pos: XListIterator<T>) returns (n: XListNode<T>, next: XListNode<T>, prev: XListNode<T>)
      requires Valid() && WF(model) && HoldsIterator(pos) && pos.node != null && model.iters[pos.id] > 0
      requires Holds(pos.node)
      modifies this`model, nodes, pos
      ensures Valid() && pos.node == null
      ensures Holds(n) && Holds(next) && Holds(prev) && n == old(pos.node) && n.Shows(model.nodes[n.id])
      ensures old(model).iters[pos.id] == n.id && n.usageNO == old(pos.node.usageNO) - 1
      ensures next.id == old(model).nodes[n.id].next && prev.id == old(model).nodes[n.id].prev
      ensures model == EraseEntered(old(model), pos.id)
    {
      IteratorHeld(pos);
      n := pos.node;
      Neighbours(n);
      next, prev := n.next, n.prev;
      Access(n);
      Recall(SetPhase(model, n.id, XCopied));
      PutIterator(pos, null);
      Release(n);
      Recall(SetPhase(model, n.id, XReleased));
      Release(n);
      Recall(SetPhase(model, n.id, WaitLock));
      Neighbours(n);
    }

    // -------------------------------------------------------------- iterators

    method NewIterator() returns (it: XListIterator<T>)
      requires Valid() && WF(model) && Calm(model)
      modifies this`iters, this`model
      ensures Valid() && WF(model) && Calm(model) && fresh(it) && it.node == null
      ensures iters == old(iters) + [it] && HoldsIterator(it)
      ensures model == Step(old(model), NewIter) && Content(model) == Content(old(model))
      ensures SameNodes(old(model), model)
    {
      hide Calm, Content;
      ReaderCalm(model, NewIter);
      it := new XListIterator(|iters|);
      iters := iters + [it];
      model := model.(iters := model.iters + [NULL]);
      assert forall i | Below(i, |iters|) && i < |old(iters)| :: Below(i, |old(iters)|);
    }

    /** begin() */
    method Begin(it: XListIterator<T>)
      requires Valid() && WF(model) && Calm(model) && HoldsIterator(it) && it.node == null
      modifies this`model, nodes, it
      ensures Valid() && WF(model) && Calm(model) && it.node == old(sentinel.next)
      ensures Holds(it.node) && SameNodes(old(model), model)
      ensures Enabled(old(model), Action.Begin(it.id)) && model == Step(old(model), Action.Begin(it.id))
      ensures Content(model) == Content(old(model))
    {
      hide Calm, Content;
      SentinelHeld();
      IteratorHeld(it);
      Neighbours(sentinel);
      CalmUnlocked(model, 0);
      ReaderCalm(model, Action.Begin(it.id));
      var first := sentinel.next;
      Access(first);
      PutIterator(it, first);
    }

    /** end() */
    method End(it: XListIterator<T>)
      requires Valid() && WF(model) && Calm(model) && HoldsIterator(it) && it.node == null
      modifies this`model, nodes, it
      ensures Valid() && WF(model) && Calm(model) && it.node == sentinel
      ensures Enabled(old(model), Action.End(it.id)) && model == Step(old(model), Action.End(it.id))
      ensures Content(model) == Content(old(model)) && SameNodes(old(model), model)
    {
      hide Calm, Content;
      SentinelHeld();
      IteratorHeld(it);
      ReaderCalm(model, Action.End(it.id));
      Access(sentinel);
      PutIterator(it, sentinel);
    }

    /** --end() */
    method ToLast(it: XListIterator<T>)
      requires Valid() && WF(model) && Calm(model) && HoldsIterator(it) && it.node == null
      modifies this`model, nodes, it
      ensures Valid() && WF(model) && Calm(model) && Holds(it.node) && it.node.id == old(model).nodes[0].prev
      ensures Content(model) == Content(old(model)) && SameNodes(old(model), model)
    {
      hide Calm, Content, SameNodes, Step, Enabled;
      ghost var m0 := model;
      End(it);
      ghost var m1 := model;
      SentinelHeld();
      Neighbours(sentinel);
      SameNodesPrev(m0, m1, 0);
      Prev(it);
      SameNodesStill(m0, m1, model);
    }

    /** operator++ */
    method Next(it: XListIterator<T>)
      requires Valid() && WF(model) && Calm(model) && HoldsIterator(it) && it.node != null
      modifies this`model, nodes, it
      ensures Valid() && WF(model) && Calm(model) && it.node == old(it.node.next)
      ensures Holds(it.node) && SameNodes(old(model), model)
      ensures Enabled(old(model), Action.Next(it.id)) && model == Step(old(model), Action.Next(it.id))
      ensures Content(model) == Content(old(model))
    {
      hide Calm, Content;
      IteratorHeld(it);
      Neighbours(it.node);
      CalmUnlocked(model, it.node.id);
      ReaderCalm(model, Action.Next(it.id));
      var to := it.node.next;
      Release(it.node);
      Access(to);
      PutIterator(it, to);
    }

    /** operator-- */
    method Prev(it: XListIterator<T>)
      requires Valid() && WF(model) && Calm(model) && HoldsIterator(it) && it.node != null
      modifies this`model, nodes, it
      ensures Valid() && WF(model) && Calm(model) && it.node == old(it.node.prev) && Holds(it.node)
      ensures Enabled(old(model), Action.Prev(it.id)) && model == Step(old(model), Action.Prev(it.id))
      ensures Content(model) == Content(old(model)) && SameNodes(old(model), model)
    {
      hide Calm, Content;
      IteratorHeld(it);
      Neighbours(it.node);
      CalmUnlocked(model, it.node.id);
      ReaderCalm(model, Action.Prev(it.id));
      var to := it.node.prev;
      Release(it.node);
      Access(to);
      PutIterator(it, to);
    }

    /** fini() */
    method Fini(it: XListIterator<T>)
      requires Valid() && WF(model) && Calm(model) && HoldsIterator(it)
      modifies this`model, nodes, it
      ensures Valid() && WF(model) && Calm(model) && it.node == null
      ensures Enabled(old(model), Action.Fini(it.id)) && model == Step(old(model), Action.Fini(it.id))
      ensures Content(model) == Content(old(model)) && SameNodes(old(model), model)
    {
      hide Calm, Content;
      IteratorHeld(it);
      if it.node != null {
        CalmUnlocked(model, it.node.id);
        ReaderCalm(model, Action.Fini(it.id));
        Release(it.node);
        PutIterator(it, null);
      }
    }

    /** operator=: releases the node it stands on, then counts the one it is assigned. */
    method Assign(it: XListIterator<T>, from: XListIterator<T>)
      requires Valid() && WF(model) && Calm(model) && HoldsIterator(it) && HoldsIterator(from) && it != from
      modifies this`model, nodes, it
      ensures Valid() && WF(model) && Calm(model) && it.node == from.node
      ensures Enabled(old(model), Action.Fini(it.id)) && WF(Step(old(model), Action.Fini(it.id)))
      ensures Enabled(Step(old(model), Action.Fini(it.id)), CopyInto(it.id, from.id))
      ensures model == Step(Step(old(model), Action.Fini(it.id)), CopyInto(it.id, from.id))
      ensures Content(model) == Content(old(model)) && SameNodes(old(model), model)
    {
      hide Calm, Content, SameNodes;
      Fini(it);
      IteratorHeld(from);
      IteratorHeld(it);
      ReaderCalm(model, CopyInto(it.id, from.id));
      SameNodesStill(old(model), model, Step(model, CopyInto(it.id, from.id)));
      if from.node != null {
        Access(from.node);
        PutIterator(it, from.node);
      }
    }

    /** A loop from begin() to end(), as in the copy constructor: it reads the data of the list in order. */
    method ReadAll(it: XListIterator<T>) returns (vals: seq<Slot<T>>)
      requires Valid() && WF(model) && Calm(model) && HoldsIterator(it) && it.node == null
      modifies this`model, nodes, it
      ensures Valid() && WF(model) && Calm(model) && it.node == sentinel
      ensures vals == Slots(nodes, Content(old(model))) && SameNodes(old(model), model)
    {
      hide Calm, Content, SameNodes, Enabled, Step, WF;
      ghost var m0 := model;
      SentinelHeld();
      Neighbours(sentinel);
      Begin(it);
      WalkStarts(m0);
      vals := [];
      while it.node != sentinel
        invariant Valid() && WF(model) && Calm(model) && HoldsIterator(it) && Holds(it.node)
        invariant SameNodes(m0, model) && IsLinked(m0, it.node.id)
        invariant vals == Slots(nodes, Passed(m0, it.node.id))
        decreases if it.node == sentinel then 0 else |m0.nodes| - it.node.id
      {
        ghost var p, m1 := it.node.id, model;
        vals := vals + [it.node.slot];
        SlotsAppend(nodes, Passed(m0, p), p);
        WalkAdvances(m0, p);
        SameNodesAt(m0, m1, p);
        Neighbours(it.node);
        Next(it);
        SameNodesStill(m0, m1, model);
        SentinelHeld();
      }
      SentinelHeld();
      ContentPassed(m0);
    }
  }
}
