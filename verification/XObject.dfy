/**
  `XObject` as an object: its status, use count and list of connections, updated in place by the
  sections that run under its lock.
 */
module XObjects {
  import opened XObjectStatus
  import P = XObjectProtocol
  import opened XListProtocol
  import opened XListInvariant
  import opened XListShapeSteps
  import opened XListRefinement
  import opened XListSequential
  import opened XLists
  import opened XListSlots

  datatype Connection = Connection(cid: string, oside: nat, strong: bool)

  // ---------------------------------------------------------------- counting strong connections

  predicate IsStrong(c: Slot<Connection>) {
    c.Data? && c.value.strong
  }

  predicate HasCid(c: Slot<Connection>, cid: string) {
    c.Data? && c.value.cid == cid
  }

  function StrongIn(list: seq<Slot<Connection>>): nat {
    if list == [] then 0 else StrongIn(list[..|list| - 1]) + if IsStrong(list[|list| - 1]) then 1 else 0
  }

  lemma {:induction false} StrongConcat(a: seq<Slot<Connection>>, b: seq<Slot<Connection>>)
    ensures StrongIn(a + b) == StrongIn(a) + StrongIn(b)
  {
    if b == [] {
      assert a + b == a;
    } else {
      StrongConcat(a, b[..|b| - 1]);
      assert (a + b)[..|a + b| - 1] == a + b[..|b| - 1];
    }
  }

  lemma OriginsRest(op: Status)
    ensures !Resting(op) ==> forall st | st in Origins(op) :: Resting(st)
  {
  }

  /** What the table says, without the table. */
  lemma TableRows(from: Status, to: Status)
    ensures CanTransit(from, to).W? <==> !Resting(from) && !Resting(to) && WorthWaiting(from, to)
    ensures !Resting(to) ==> (CanTransit(from, to).D? <==> from in Origins(to))
    ensures Resting(to) ==> (CanTransit(from, to).D? <==> !Resting(from) && to in EndsIn(from) && !(from.DELETING? && to.LOADED?))
    ensures !Resting(to) && CanTransit(from, to).D? ==> Resting(from)
  {
    hide CanTransit, Origins, EndsIn, WorthWaiting;
    RestingRows(from, to);
    if !Resting(to) {
      ReturnsAreDirect(from, to);
      if !Resting(from) {
        WaitingIsWorthwhile(from, to);
      }
    } else if !Resting(from) {
      EndsAreDirect(from, to);
    }
  }

  /** None of the nodes holds a connection with the id. */
  predicate NoneHas(nodes: seq<XListNode<Connection>>, q: seq<nat>, cid: string) {
    forall j | 0 <= j < |q| :: q[j] < |nodes| && !HasCid(nodes[q[j]].slot, cid)
  }

  /** Removing a node from the list removes its data, once. */
  lemma StrongWithout(nodes: seq<XListNode<Connection>>, q: seq<nat>, k: nat) returns (i: nat)
    requires k in q && k < |nodes| && forall i, j | 0 <= i < j < |q| :: q[i] < q[j]
    ensures i < |q| == |Slots(nodes, q)| && q[i] == k && Slots(nodes, q)[i] == nodes[k].slot
    ensures Slots(nodes, Without(q, k)) == Slots(nodes, q)[..i] + Slots(nodes, q)[i + 1..]
    ensures StrongIn(Slots(nodes, Without(q, k))) == StrongIn(Slots(nodes, q)) - if IsStrong(nodes[k].slot) then 1 else 0
  {
    hide Slots, StrongIn, Without;
    i := SlotsRemoved(nodes, q, k);
    StrongAround(Slots(nodes, q), i);
  }

  lemma StrongAround(list: seq<Slot<Connection>>, i: nat)
    requires i < |list|
    ensures StrongIn(list) == StrongIn(list[..i] + list[i + 1..]) + if IsStrong(list[i]) then 1 else 0
  {
    hide StrongIn;
    assert list == list[..i] + [list[i]] + list[i + 1..];
    StrongConcat(list[..i] + [list[i]], list[i + 1..]);
    StrongConcat(list[..i], [list[i]]);
    StrongConcat(list[..i], list[i + 1..]);
    StrongOne(list[i]);
  }

  lemma StrongOne(c: Slot<Connection>)
    ensures StrongIn([c]) == if IsStrong(c) then 1 else 0
  {
    assert StrongIn([c][..0]) == 0;
  }

  lemma SlotsPushed(nodes: seq<XListNode<Connection>>, more: seq<XListNode<Connection>>, q: seq<nat>, c: Connection)
    requires |more| == |nodes| + 1 && more[..|nodes|] == nodes && more[|nodes|].slot == Data(c)
    requires Within(q, |nodes|)
    ensures Slots(more, q + [|nodes|]) == Slots(nodes, q) + [Data(c)]
    ensures StrongIn(Slots(nodes, q) + [Data(c)]) == StrongIn(Slots(nodes, q)) + if c.strong then 1 else 0
  {
    SlotsAppended(nodes, more, q);
  }

  // ---------------------------------------------------------------- the object

  class XObject {
    var xoStatus: Status
    var xoStatusPrev: Status
    var ruse: int
    var cListVersion: nat
    const cList: XList<Connection>
    ghost var holds: nat

    /** The fields that the status steps work on. */
    ghost function Mon(): P.Monitor
      reads this
    {
      P.Monitor(xoStatus, xoStatusPrev, ruse)
    }

    /** The connections, in order. */
    ghost function Connections(): seq<Slot<Connection>>
      reads cList
    {
      Slots(cList.nodes, Content(cList.model))
    }

    ghost predicate ListOK()
      reads cList, cList.nodes, cList.iters
    {
      cList.Valid() && WF(cList.model) && Calm(cList.model)
    }

    /** In an operation the saved status is one that the operation is entered from. */
    ghost predicate StatusOK()
      reads this
    {
      !Resting(xoStatus) ==> xoStatusPrev in Origins(xoStatus)
    }

    /** The use count is the number of strong connections and of outstanding holds. */
    ghost predicate CountOK()
      reads this, cList
    {
      ruse == StrongIn(Connections()) + holds
    }

    ghost predicate Valid()
      reads this, cList, cList.nodes, cList.iters
    {
      ListOK() && StatusOK() && CountOK()
    }

    constructor ()
      ensures Valid() && fresh(cList) && Mon() == P.Monitor(LOADED, LOADED, 0)
      ensures Connections() == [] && holds == 0 && cListVersion == 0
    {
      xoStatus, xoStatusPrev, ruse, cListVersion, holds := LOADED, LOADED, 0, 0, 0;
      cList := new XList();
      new;
      CalmWF(cList.model);
      assert Content(cList.model) == [];
    }

    // -------------------------------------------------------------- status

    method SetStatus(st: Status)
      modifies this`xoStatus, this`xoStatusPrev
      ensures Mon() == P.SetStatus(old(Mon()), st)
    {
      xoStatusPrev := xoStatus;
      xoStatus := st;
    }

    /** One pass of the loop of chStatus: enter, wait, or give up.  Entering an operation keeps in mind what
        the object rested in; only the end of an operation can change that. */
    method ChStatus(st: Status) returns (tr: Transition)
      requires Valid()
      modifies this`xoStatus, this`xoStatusPrev
      ensures Valid() && tr == CanTransit(old(xoStatus), st)
      ensures !tr.D? ==> Mon() == old(Mon())
      ensures tr.D? ==> xoStatus == st && ruse == old(ruse)
      ensures tr.D? && !Resting(st) ==> Resting(old(xoStatus)) && P.Rest(Mon()) == old(P.Rest(Mon()))
      ensures tr.W? <==> !Resting(old(xoStatus)) && !Resting(st) && WorthWaiting(old(xoStatus), st)
      ensures !Resting(st) ==> (tr.D? <==> old(xoStatus) in Origins(st))
      ensures Resting(st) ==> (tr.D? <==> old(!Resting(xoStatus)) && st in EndsIn(old(xoStatus))
                                          && !(old(xoStatus).DELETING? && st.LOADED?))
      ensures Mon() == if tr.D? then P.SetStatus(old(Mon()), st) else old(Mon())
    {
      TableRows(xoStatus, st);
      tr := CanTransit(xoStatus, st);
      if tr.D? {
        SetStatus(st);
      }
    }

    /** Ends an operation: the object rests again in the status it was in before the operation began. */
    method BkStatus()
      requires Valid()
      modifies this`xoStatus, this`xoStatusPrev
      ensures Mon() == P.BackStatus(old(Mon()))
      ensures old(!Resting(xoStatus)) ==>
                Valid() && Resting(xoStatus) && xoStatus == old(P.Rest(Mon())) && xoStatus in Origins(old(xoStatus))
    {
      hide Calm, WF, Origins, StrongIn, Slots, Content;
      OriginsRest(xoStatus);
      SetStatus(xoStatusPrev);
    }

    /** An operation that is entered and gone back from leaves the object in the status it had. */
    method EnterAndBack(op: Status) returns (entered: bool)
      requires Valid() && !Resting(op)
      modifies this`xoStatus, this`xoStatusPrev
      ensures Valid() && xoStatus == old(xoStatus) && ruse == old(ruse)
      ensures entered <==> CanTransit(old(xoStatus), op).D?
    {
      var tr := ChStatus(op);
      entered := tr.D?;
      if entered {
        BkStatus();
      }
    }

    // -------------------------------------------------------------- uses

    method IncRuse()
      requires Valid()
      modifies this`ruse, this`holds
      ensures Valid() && ruse == old(ruse) + 1 && holds == old(holds) + 1
    {
      ruse := ruse + 1;
      holds := holds + 1;
    }

    /** Undoes a hold; a call that undoes none takes the count of a strong connection away, if there is one. */
    method DecRuse()
      requires Valid()
      modifies this`ruse, this`holds
      ensures ruse == (if old(ruse) > 0 then old(ruse) - 1 else 0)
      ensures holds == if old(holds) > 0 then old(holds) - 1 else 0
      ensures Valid() <==> old(holds) > 0 || !exists i :: 0 <= i < |Connections()| && IsStrong(Connections()[i])
    {
      hide Calm, WF, Content, Slots, StrongIn;
      StrongZero(Connections());
      if ruse != 0 {
        ruse := ruse - 1;
      }
      holds := if holds > 0 then holds - 1 else 0;
    }

    /** A delete may go on exactly if no strong connection and no hold is left. */
    method IsBusy() returns (busy: bool)
      requires Valid()
      ensures busy <==> holds > 0 || exists i :: 0 <= i < |Connections()| && IsStrong(Connections()[i])
    {
      busy := ruse != 0;
      StrongZero(Connections());
    }

    // -------------------------------------------------------------- connections

    /** One pass of addConnection: the connection is appended and counted, or nothing changes. */
    method AddConnection(c: Connection, mayConnect: bool) returns (reply: P.Reply)
      requires Valid()
      modifies this`ruse, this`cListVersion, cList`nodes, cList`model, cList.nodes
      ensures Valid() && holds == old(holds)
      ensures reply.Refused? <==> !mayConnect || xoStatus.DELETED?
      ensures reply.MustWait? <==> mayConnect && xoStatus.DELETING?
      ensures reply.Accepted? ==>
                Connections() == old(Connections()) + [Data(c)] && Mon() == P.Count(old(Mon()), c.strong, old(ruse))
                && cListVersion == old(cListVersion) + 1
      ensures !reply.Accepted? ==>
                Connections() == old(Connections()) && Mon() == old(Mon()) && cListVersion == old(cListVersion)
    {
      hide Calm, Content, Slots, StrongIn, WF;
      if !mayConnect {
        return P.Refused;
      }
      if xoStatus == DELETING {
        return P.MustWait;
      }
      if xoStatus == DELETED {
        return P.Refused;
      }
      PushConnection(c);
      if c.strong {
        ruse := ruse + 1;
      }
      cListVersion := cListVersion + 1;
      return P.Accepted;
    }

    method PushConnection(c: Connection)
      requires ListOK()
      modifies cList`nodes, cList`model, cList.nodes
      ensures ListOK() && Connections() == old(Connections()) + [Data(c)]
      ensures StrongIn(Connections()) == StrongIn(old(Connections())) + if c.strong then 1 else 0
    {
      hide Calm, Content;
      ListedFacts(cList.model);
      ghost var nodes, q := cList.nodes, Content(cList.model);
      cList.PushBack(c);
      CalmWF(cList.model);
      SlotsPushed(nodes, cList.nodes, q, c);
    }

    /** True removes exactly the connection that the iterator stands on, false leaves the list as it was;
        either way the version counts. */
    method XDelConnectionPrepare(iter: XListIterator<Connection>) returns (ret: bool)
      requires Valid() && cList.HoldsIterator(iter) && iter.node != null && iter.node != cList.sentinel
      requires cList.Holds(iter.node)
      modifies this`ruse, this`cListVersion, cList`model, cList.nodes
      ensures Valid() && holds == old(holds) && cListVersion == old(cListVersion) + 1
      ensures ret == !old(iter.node.isErasing)
      ensures Mon() == if ret then P.Uncount(old(Mon()), IsStrong(iter.node.slot), old(ruse)) else old(Mon())
      ensures !ret ==> Connections() == old(Connections())
      ensures ret ==> exists i :: 0 <= i < |old(Connections())| && old(Connections())[i] == iter.node.slot
                        && Connections() == old(Connections())[..i] + old(Connections())[i + 1..]
      ensures Content(cList.model) == if ret then Without(old(Content(cList.model)), iter.node.id) else old(Content(cList.model))
      ensures cList.model == if ret then Prepare(old(cList.model), iter.node.id) else old(cList.model)
    {
      hide Calm, Content, Without, Slots, StrongIn, WF, Prepare, XList.Valid;
      ret := Unlink(iter);
      if ret && IsStrong(iter.node.slot) {
        ruse := ruse - 1;
      }
      cListVersion := cListVersion + 1;
    }

    /** The part of it that is the list's. */
    method Unlink(iter: XListIterator<Connection>) returns (ret: bool)
      requires ListOK() && cList.HoldsIterator(iter) && iter.node != null && iter.node != cList.sentinel
      requires cList.Holds(iter.node)
      modifies cList`model, cList.nodes
      ensures ListOK() && ret == !old(iter.node.isErasing)
      ensures cList.model == if ret then Prepare(old(cList.model), iter.node.id) else old(cList.model)
      ensures Content(cList.model) == if ret then Without(old(Content(cList.model)), iter.node.id) else old(Content(cList.model))
      ensures ret ==> exists i :: 0 <= i < |old(Connections())| && old(Connections())[i] == iter.node.slot
                        && Connections() == old(Connections())[..i] + old(Connections())[i + 1..]
      ensures ret ==> StrongIn(Connections()) == StrongIn(old(Connections())) - if IsStrong(iter.node.slot) then 1 else 0
    {
      hide Calm, Content, Without, Slots, StrongIn, WF, Prepare;
      ghost var before := cList.model;
      cList.IteratorHeld(iter);
      cList.Neighbours(iter.node);
      ListedFacts(before);
      ret := cList.XErasePrepare(iter);
      CalmWF(cList.model);
      if ret {
        IteratorListed(before, iter.id);
        ghost var i := StrongWithout(cList.nodes, Content(before), iter.node.id);
        assert old(Connections())[i] == iter.node.slot;
      }
    }

    /** disconnectAll: the walk takes off the list whatever it comes to, to the end of the list. */
    method DisconnectAll(iter: XListIterator<Connection>)
      requires Valid() && cList.HoldsIterator(iter) && iter.node == null
      modifies this`ruse, this`cListVersion, cList`model, cList.nodes, iter
      ensures Valid() && Connections() == [] && iter.node == cList.sentinel
      ensures holds == old(holds) && ruse == holds && cListVersion == old(cListVersion) + |old(Connections())|
    {
      hide Calm, Content, Slots, StrongIn, WF, Enabled, Step, SameNodes, Prepare, Without;
      SlotsLength(cList.nodes, Content(cList.model));
      BeginsAtFirst(cList.model);
      cList.SentinelHeld();
      cList.Neighbours(cList.sentinel);
      cList.Begin(iter);
      while iter.node != cList.sentinel
        invariant Valid() && cList.HoldsIterator(iter) && cList.Holds(iter.node)
        invariant iter.node.id == if Content(cList.model) == [] then 0 else Content(cList.model)[0]
        invariant holds == old(holds) && cListVersion + |Content(cList.model)| == old(cListVersion) + |old(Connections())|
        decreases |Content(cList.model)|
      {
        cList.SentinelHeld();
        TakeFirst(iter);
      }
      cList.SentinelHeld();
      FirstOfContent(cList.model);
      SlotsLength(cList.nodes, Content(cList.model));
      StrongZero(Connections());
    }

    /** The walk stands on the first connection: it takes it off the list, and comes to the next. */
    method TakeFirst(iter: XListIterator<Connection>)
      requires Valid() && cList.HoldsIterator(iter) && iter.node != null && iter.node != cList.sentinel && cList.Holds(iter.node)
      requires Content(cList.model) != [] && Content(cList.model)[0] == iter.node.id
      modifies this`ruse, this`cListVersion, cList`model, cList.nodes, iter
      ensures Valid() && holds == old(holds) && cListVersion == old(cListVersion) + 1
      ensures cList.Holds(iter.node) && Content(cList.model) == old(Content(cList.model))[1..]
      ensures iter.node.id == if Content(cList.model) == [] then 0 else Content(cList.model)[0]
    {
      hide Calm, Content, Slots, StrongIn, WF, Enabled, Step, SameNodes, Prepare, Without;
      ghost var s, p := cList.model, iter.node.id;
      cList.SentinelHeld();
      cList.Neighbours(iter.node);
      FirstOfContent(s);
      ListedUnmarked(s, p);
      FirstToSecond(s, p);
      PrepareKeepsNext(s, p);
      var ret := XDelConnectionPrepare(iter);
      cList.Neighbours(iter.node);
      cList.Next(iter);
      cList.Neighbours(iter.node);
    }

    /** queryConnection: the first connection with the id, or end(). */
    method QueryConnection(cid: string, iter: XListIterator<Connection>)
      requires ListOK() && cList.HoldsIterator(iter) && iter.node == null
      modifies cList`model, cList.nodes, iter
      ensures ListOK() && cList.Holds(iter.node) && IsLinked(cList.model, iter.node.id)
      ensures SameNodes(old(cList.model), cList.model)
      ensures iter.node != cList.sentinel ==> HasCid(iter.node.slot, cid)
      ensures NoneHas(cList.nodes, Passed(cList.model, iter.node.id), cid)
    {
      hide Calm, Content, SameNodes, Enabled, Step, WF;
      ghost var m0 := cList.model;
      cList.SentinelHeld();
      cList.Neighbours(cList.sentinel);
      cList.Begin(iter);
      WalkStarts(m0);
      while iter.node != cList.sentinel && !HasCid(iter.node.slot, cid)
        invariant ListOK() && cList.HoldsIterator(iter) && cList.Holds(iter.node)
        invariant SameNodes(m0, cList.model) && IsLinked(m0, iter.node.id)
        invariant NoneHas(cList.nodes, Passed(m0, iter.node.id), cid)
        decreases if iter.node == cList.sentinel then 0 else |m0.nodes| - iter.node.id
      {
        ghost var p, m1 := iter.node.id, cList.model;
        cList.SentinelHeld();
        WalkAdvances(m0, p);
        SameNodesAt(m0, m1, p);
        cList.Neighbours(iter.node);
        cList.Next(iter);
        SameNodesStill(m0, m1, cList.model);
      }
      SamePassed(m0, cList.model, iter.node.id);
    }

    /** delConnection: removes the first connection with the id, if there is one, and nothing else. */
    method DelConnection(cid: string, iter: XListIterator<Connection>) returns (found: bool)
      requires Valid() && cList.HoldsIterator(iter) && iter.node == null
      modifies this`ruse, this`cListVersion, cList`model, cList.nodes, iter
      ensures Valid() && holds == old(holds)
      ensures !found ==> Connections() == old(Connections()) && Mon() == old(Mon())
                         && forall i | 0 <= i < |Connections()| :: !HasCid(Connections()[i], cid)
      ensures found ==> iter.node != null && HasCid(iter.node.slot, cid)
                        && Mon() == P.Uncount(old(Mon()), IsStrong(iter.node.slot), old(ruse))
                        && exists i :: FirstWith(old(Connections()), cid, i)
                             && Connections() == old(Connections())[..i] + old(Connections())[i + 1..]
    {
      hide Calm, Content, SameNodes, Without, WF, Slots, StrongIn, Passed, NoneHas;
      ghost var m0 := cList.model;
      QueryConnection(cid, iter);
      SameNodesContent(m0, cList.model);
      cList.SentinelHeld();
      ListedUnmarked(cList.model, iter.node.id);
      if iter.node == cList.sentinel {
        ContentPassed(cList.model);
        SlotsNone(cList.nodes, Content(cList.model), cid);
        return false;
      }
      RemoveFirst(cid, iter);
      found := true;
    }

    /** The node under the iterator is the first with the id: its connection goes. */
    method RemoveFirst(cid: string, iter: XListIterator<Connection>)
      requires Valid() && cList.HoldsIterator(iter) && iter.node != null && iter.node != cList.sentinel
      requires cList.Holds(iter.node) && IsLinked(cList.model, iter.node.id) && HasCid(iter.node.slot, cid)
      requires iter.node.id > 0 && NoneHas(cList.nodes, Passed(cList.model, iter.node.id), cid)
      modifies this`ruse, this`cListVersion, cList`model, cList.nodes
      ensures Valid() && holds == old(holds) && iter.node == old(iter.node)
      ensures Mon() == P.Uncount(old(Mon()), IsStrong(iter.node.slot), old(ruse))
      ensures exists i :: FirstWith(old(Connections()), cid, i)
                && Connections() == old(Connections())[..i] + old(Connections())[i + 1..]
    {
      hide Calm, Content, SameNodes, Without, WF, Slots, StrongIn, Passed, NoneHas;
      cList.Neighbours(iter.node);
      ghost var q, nodes, k := Content(cList.model), cList.nodes, iter.node.id;
      ListedUnmarked(cList.model, k);
      ListedFacts(cList.model);
      ghost var i := FirstListed(cList.model, nodes, k, cid);
      var ok := XDelConnectionPrepare(iter);
      ghost var j := StrongWithout(nodes, q, k);
      assert i == j;
    }
  }

  // ---------------------------------------------------------------- facts for the methods

  predicate FirstWith(list: seq<Slot<Connection>>, cid: string, i: int) {
    0 <= i < |list| && HasCid(list[i], cid) && forall j | 0 <= j < i :: !HasCid(list[j], cid)
  }

  lemma {:induction false} StrongZero(list: seq<Slot<Connection>>)
    ensures StrongIn(list) == 0 <==> !exists i :: 0 <= i < |list| && IsStrong(list[i])
  {
    if list != [] {
      var init := list[..|list| - 1];
      StrongZero(init);
      if i :| 0 <= i < |init| && IsStrong(init[i]) {
        assert IsStrong(list[i]);
      }
    }
  }

  lemma {:induction false} SlotsNone(nodes: seq<XListNode<Connection>>, q: seq<nat>, cid: string)
    requires NoneHas(nodes, q, cid)
    ensures forall i | 0 <= i < |Slots(nodes, q)| :: !HasCid(Slots(nodes, q)[i], cid)
  {
    if q != [] {
      SlotsNone(nodes, q[..|q| - 1], cid);
    }
  }

  /** The node that a search stops at holds the first connection with the id. */
  lemma FirstListed(s: State, nodes: seq<XListNode<Connection>>, k: nat, cid: string) returns (i: nat)
    requires Calm(s) && WF(s) && |nodes| == |s.nodes| && k > 0 && IsLinked(s, k) && HasCid(nodes[k].slot, cid)
    requires NoneHas(nodes, Passed(s, k), cid)
    ensures FirstWith(Slots(nodes, Content(s)), cid, i) && i < |Content(s)| && Content(s)[i] == k
  {
    hide Calm, Slots, NoneHas;
    ListedSplit(s, k);
    var a, c := Passed(s, k), Range(s.nodes, k + 1, |s.nodes|);
    i := |a|;
    assert (a + [k] + c)[i] == k;
    SlotsAround(nodes, Content(s), i);
    assert (a + [k] + c)[..i] == a;
    SlotsNone(nodes, a, cid);
  }
}
