/**
  Three runs: one that leaves a connection to an object that was already deleted, one that leaves a
  connection that only its far side holds, and one that loses a use, so that an object in use is deleted.
 */
module XObjectGaps {
  import opened XObjectStatus
  import opened XObjectProtocol
  import opened XObjectMonitor
  import opened XObjectConnections
  import opened XObjectCounts
  import opened XObjectDeletion
  import opened XObjectRuns

  /** Nobody is opening or closing a connection, nobody is clearing a deleted object. */
  ghost predicate Settled(s: State) {
    forall t | 0 <= t < |s.threads| :: FlightOf(s.threads[t]).NoFlight? && !s.threads[t].Cleaning?
  }

  /** Two objects that are not in use, and two threads. */
  function Scene(m0: Monitor, owner0: int, m1: Monitor, owner1: int, th0: Thread, th1: Thread,
                 recs: set<Rec>, nextCid: nat, late: set<Rec>, half: set<Rec>): State {
    State([Obj(m0, 0, 0, owner0, {0}), Obj(m1, 0, 0, owner1, {0})], [th0, th1], [], recs, nextCid, late, half)
  }

  const FRESH := Monitor(LOADED, LOADED, 0)
  const NEAR := Rec(0, false, 1, 0, false)
  const THERE := Rec(0, true, 0, 1, false)

  /** Object 0 is deleted, then printed; meanwhile object 1 is added and connects to it. */
  function LateState(k: nat): State
    requires k <= 12
  {
    if k <= 7 then Scene(
      if k < 2 then FRESH else if k < 4 then Monitor(DELETING, LOADED, 0)
      else if k < 7 then Monitor(DELETED, DELETING, 0) else Monitor(PRINTING, DELETED, 0),
      if k < 2 then -1 else 0, FRESH, -1,
      match k
      case 0 => Idle
      case 1 => Want(0, DELETING)
      case 2 => Busy(0, DELETING, LOADED, false, Body)
      case 3 => Busy(0, DELETING, LOADED, true, Body)
      case 4 => Cleaning(0, Body, {})
      case 5 => Idle
      case 6 => Want(0, PRINTING)
      case _ => Busy(0, PRINTING, DELETED, false, Body),
      Idle, {}, 0, {}, {})
    else Scene(
      if k < 12 then Monitor(PRINTING, DELETED, 0) else Monitor(DELETED, PRINTING, 0), 0,
      if k < 9 then FRESH else Monitor(ADDING, LOADED, 0), if k < 9 then -1 else 1,
      if k < 12 then Busy(0, PRINTING, DELETED, false, Body) else Idle,
      if k == 8 then Want(1, ADDING)
      else Busy(1, ADDING, LOADED, false, if k == 10 then Far(NEAR, THERE, false) else Body),
      if k < 10 then {} else if k == 10 then {NEAR} else {NEAR, THERE}, if k < 10 then 0 else 1,
      if k < 11 then {} else {NEAR, THERE}, {})
  }

  function LateAct(k: nat): Action
    requires k < 12
  {
    match k
    case 0 => Call(0, 0, DELETING)
    case 1 => Try(0)
    case 2 => BusyCheck(0)
    case 3 => Commit(0)
    case 4 => CleanEnd(0)
    case 5 => Call(0, 0, PRINTING)
    case 6 => Try(0)
    case 7 => Call(1, 1, ADDING)
    case 8 => Try(1)
    case 9 => Connect(1, 0, false, false, true, 0)
    case 10 => Ask(1, true, 0)
    case _ => Back(0)
  }

  /** States are equal if their parts are. */
  lemma SameState(s: State, u: State)
    requires |s.objs| == |u.objs| == 2 && s.objs[0] == u.objs[0] && s.objs[1] == u.objs[1]
    requires |s.threads| == |u.threads| == 2 && s.threads[0] == u.threads[0] && s.threads[1] == u.threads[1]
    requires |s.uses| == |u.uses| <= 1 && (s.uses != [] ==> s.uses[0] == u.uses[0])
    requires s.recs == u.recs && s.nextCid == u.nextCid && s.late == u.late && s.half == u.half
    ensures s == u
  {
    assert s.objs == u.objs;
    assert s.threads == u.threads;
    assert s.uses == u.uses;
  }

  lemma CallFollows(k: nat)
    requires k < 2
    ensures Follows(LateState(k), LateAct(k), LateState(k + 1))
  {
    var s, a := LateState(k), LateAct(k);
    assert WF(s) && Enabled(s, a);
    SameState(Step(s, a), LateState(k + 1));
  }

  lemma CheckFollows(k: nat)
    requires 2 <= k < 3
    ensures Follows(LateState(k), LateAct(k), LateState(k + 1))
  {
    var s, a := LateState(k), LateAct(k);
    assert WF(s) && Enabled(s, a);
    SameState(Step(s, a), LateState(k + 1));
  }

  lemma CommitFollows(k: nat)
    requires k == 3
    ensures Follows(LateState(k), LateAct(k), LateState(k + 1))
  {
    var s, a := LateState(k), LateAct(k);
    assert WF(s) && Enabled(s, a);
    SameState(Step(s, a), LateState(k + 1));
  }

  lemma EndDeleteFollows(k: nat)
    requires k == 4
    ensures Follows(LateState(k), LateAct(k), LateState(k + 1))
  {
    var s, a := LateState(k), LateAct(k);
    assert WF(s) && Enabled(s, a);
    SameState(Step(s, a), LateState(k + 1));
  }

  lemma PrintFollows(k: nat)
    requires 5 <= k < 7
    ensures Follows(LateState(k), LateAct(k), LateState(k + 1))
  {
    var s, a := LateState(k), LateAct(k);
    assert WF(s) && Enabled(s, a);
    SameState(Step(s, a), LateState(k + 1));
  }

  lemma AddFollows(k: nat)
    requires 7 <= k < 9
    ensures Follows(LateState(k), LateAct(k), LateState(k + 1))
  {
    var s, a := LateState(k), LateAct(k);
    assert WF(s) && Enabled(s, a);
    SameState(Step(s, a), LateState(k + 1));
  }

  lemma ConnectFollows(k: nat)
    requires 9 <= k < 10
    ensures Follows(LateState(k), LateAct(k), LateState(k + 1))
  {
    var s, a := LateState(k), LateAct(k);
    assert WF(s) && Enabled(s, a);
    SameState(Step(s, a), LateState(k + 1));
  }

  lemma AcceptFollows(k: nat)
    requires 10 <= k < 12
    ensures Follows(LateState(k), LateAct(k), LateState(k + 1))
  {
    var s, a := LateState(k), LateAct(k);
    assert WF(s) && Enabled(s, a);
    SameState(Step(s, a), LateState(k + 1));
  }

  /** Nothing is in flight, object 0 is deleted, and both sides hold a connection between them. */
  lemma DeletedStillConnected() returns (states: seq<State>, acts: seq<Action>)
    ensures IsRun(states, acts) && |states| == 13
    ensures Settled(states[12]) && Deleted(states[12], 0)
    ensures NEAR in states[12].recs && THERE in states[12].recs && NEAR.oside == THERE.owner == 0
  {
    states := seq(13, k requires 0 <= k < 13 => LateState(k));
    acts := seq(12, k requires 0 <= k < 12 => LateAct(k));
    forall i | 0 <= i < |acts| ensures Follows(states[i], acts[i], states[i + 1]) {
      if i < 2 {
        CallFollows(i);
      } else if i < 3 {
        CheckFollows(i);
      } else if i < 4 {
        CommitFollows(i);
      } else if i < 5 {
        EndDeleteFollows(i);
      } else if i < 7 {
        PrintFollows(i);
      } else if i < 9 {
        AddFollows(i);
      } else if i < 10 {
        ConnectFollows(i);
      } else {
        AcceptFollows(i);
      }
    }
    SameState(states[0], Start(2, 2, 0));
  }

  const HALF_NEAR := Rec(0, false, 0, 1, false)
  const HALF_THERE := Rec(0, true, 1, 0, false)

  /** Object 0 connects to object 1 while its own `mayConnect` says no. */
  function HalfState(k: nat): State
    requires k <= 4
  {
    Scene(
      if k < 2 then FRESH else Monitor(ADDING, LOADED, 0), if k < 2 then -1 else 0, FRESH, -1,
      match k
      case 0 => Idle
      case 1 => Want(0, ADDING)
      case 3 => Busy(0, ADDING, LOADED, false, Far(HALF_NEAR, HALF_THERE, false))
      case _ => Busy(0, ADDING, LOADED, false, Body),
      Idle, if k < 4 then {} else {HALF_THERE}, if k < 3 then 0 else 1, {}, if k < 4 then {} else {HALF_THERE})
  }

  function HalfAct(k: nat): Action
    requires k < 4
  {
    match k
    case 0 => Call(0, 0, ADDING)
    case 1 => Try(0)
    case 2 => Connect(0, 1, false, false, false, 0)
    case _ => Ask(0, true, 0)
  }

  lemma EnterFollows(k: nat)
    requires k < 2
    ensures Follows(HalfState(k), HalfAct(k), HalfState(k + 1))
  {
    var s, a := HalfState(k), HalfAct(k);
    assert WF(s) && Enabled(s, a);
    SameState(Step(s, a), HalfState(k + 1));
  }

  lemma RefuseFollows(k: nat)
    requires k == 2
    ensures Follows(HalfState(k), HalfAct(k), HalfState(k + 1))
  {
    var s, a := HalfState(k), HalfAct(k);
    assert WF(s) && Enabled(s, a);
    SameState(Step(s, a), HalfState(k + 1));
  }

  lemma OneEndFollows(k: nat)
    requires k == 3
    ensures Follows(HalfState(k), HalfAct(k), HalfState(k + 1))
  {
    var s, a := HalfState(k), HalfAct(k);
    assert WF(s) && Enabled(s, a);
    SameState(Step(s, a), HalfState(k + 1));
  }

  /** Nothing is in flight, and object 1 holds a connection that object 0 does not have. */
  lemma HalfConnected() returns (states: seq<State>, acts: seq<Action>)
    ensures IsRun(states, acts) && |states| == 5
    ensures Settled(states[4]) && HALF_THERE in states[4].recs && !HasOtherEnd(states[4].recs, HALF_THERE)
  {
    states := seq(5, k requires 0 <= k < 5 => HalfState(k));
    acts := seq(4, k requires 0 <= k < 4 => HalfAct(k));
    forall i | 0 <= i < |acts| ensures Follows(states[i], acts[i], states[i + 1]) {
      if i < 2 {
        EnterFollows(i);
      } else if i < 3 {
        RefuseFollows(i);
      } else {
        OneEndFollows(i);
      }
    }
    SameState(states[0], Start(2, 2, 0));
  }

  const OWN_END := Rec(0, false, 1, 0, false)
  const STRONG_END := Rec(0, true, 0, 1, true)

  /** A caller takes a hold on object 0 and undoes it; while its inc_ruse is under way, object 0 accepts a
      strong connection from object 1, whose count the inc_ruse overwrites.  Then object 0 is deleted. */
  function LostState(k: nat): State
    requires k <= 13
  {
    State(
      [Obj(Monitor(if k < 11 then LOADED else if k < 13 then DELETING else DELETED,
                   if k < 13 then LOADED else DELETING, if 5 <= k < 9 then 1 else 0),
           if k == 6 then 1 else 0, 0, if k < 11 then -1 else 0,
           if 5 <= k < 9 then {1} else if 9 <= k < 11 then {0, 1} else {0}),
       Obj(if k < 3 then FRESH else Monitor(ADDING, LOADED, 0), 0, 0, if k < 3 then -1 else 1, {0})],
      [if k < 10 then Idle else if k == 10 then Want(0, DELETING)
       else if k == 13 then Cleaning(0, Body, {STRONG_END}) else Busy(0, DELETING, LOADED, k == 12, Body),
       if k < 2 then Idle else if k == 2 then Want(1, ADDING)
       else Busy(1, ADDING, LOADED, false, if k == 4 then Far(OWN_END, STRONG_END, false) else Body)],
      [if 1 <= k < 6 then Raising(0, 0) else if k == 7 then Tested(0) else if k == 8 then Lowering(0, 1) else NoUse],
      if k < 4 then {} else if k == 4 then {OWN_END} else {OWN_END, STRONG_END}, if k < 4 then 0 else 1, {}, {})
  }

  function LostAct(k: nat): Action
    requires k < 13
  {
    match k
    case 0 => HoldRead(0, 0)
    case 1 => Call(1, 1, ADDING)
    case 2 => Try(1)
    case 3 => Connect(1, 0, false, true, true, 0)
    case 4 => Ask(1, true, 0)
    case 5 => HoldWrite(0)
    case 6 => ReleaseTest(0, 0)
    case 7 => ReleaseRead(0)
    case 8 => ReleaseWrite(0)
    case 9 => Call(0, 0, DELETING)
    case 10 => Try(0)
    case 11 => BusyCheck(0)
    case _ => Commit(0)
  }

  lemma HoldFollows(k: nat)
    requires k == 0 || k == 5
    ensures Follows(LostState(k), LostAct(k), LostState(k + 1))
  {
    var s, a := LostState(k), LostAct(k);
    assert WF(s) && Enabled(s, a);
    SameState(Step(s, a), LostState(k + 1));
  }

  lemma ReleaseFollows(k: nat)
    requires 6 <= k < 9
    ensures Follows(LostState(k), LostAct(k), LostState(k + 1))
  {
    var s, a := LostState(k), LostAct(k);
    assert WF(s) && Enabled(s, a);
    SameState(Step(s, a), LostState(k + 1));
  }

  lemma AddedFollows(k: nat)
    requires 1 <= k < 3
    ensures Follows(LostState(k), LostAct(k), LostState(k + 1))
  {
    var s, a := LostState(k), LostAct(k);
    assert WF(s) && Enabled(s, a);
    SameState(Step(s, a), LostState(k + 1));
  }

  lemma OpenFollows(k: nat)
    requires k == 3
    ensures Follows(LostState(k), LostAct(k), LostState(k + 1))
  {
    var s, a := LostState(k), LostAct(k);
    assert WF(s) && Enabled(s, a);
    SameState(Step(s, a), LostState(k + 1));
  }

  lemma TakeFollows(k: nat)
    requires k == 4
    ensures Follows(LostState(k), LostAct(k), LostState(k + 1))
  {
    var s, a := LostState(k), LostAct(k);
    assert WF(s) && Enabled(s, a);
    SameState(Step(s, a), LostState(k + 1));
  }

  lemma BeginDeleteFollows(k: nat)
    requires 9 <= k < 11
    ensures Follows(LostState(k), LostAct(k), LostState(k + 1))
  {
    var s, a := LostState(k), LostAct(k);
    assert WF(s) && Enabled(s, a);
    SameState(Step(s, a), LostState(k + 1));
  }

  lemma UnguardedFollows(k: nat)
    requires 11 <= k < 13
    ensures Follows(LostState(k), LostAct(k), LostState(k + 1))
  {
    var s, a := LostState(k), LostAct(k);
    assert WF(s) && Enabled(s, a);
    SameState(Step(s, a), LostState(k + 1));
  }

  /** A hold is lost at step 5, all holds are undone, and object 0 enters DELETED with a strong connection. */
  lemma InUseDeleted() returns (states: seq<State>, acts: seq<Action>)
    ensures IsRun(states, acts) && |states| == 14
    ensures CountOK(states[5], 0) && !FreshAt(states, acts, 5, 0) && !CountOK(states[6], 0)
    ensures |states[12].objs| == 2 && states[12].objs[0].holds == 0 && states[12].objs[0].mon.ruse == 0
    ensures !Deleted(states[12], 0) && Deleted(states[13], 0) && STRONG_END in StrongOf(states[12].recs, 0)
  {
    states := seq(14, k requires 0 <= k < 14 => LostState(k));
    acts := seq(13, k requires 0 <= k < 13 => LostAct(k));
    forall i | 0 <= i < |acts| ensures Follows(states[i], acts[i], states[i + 1]) {
      if i == 0 || i == 5 {
        HoldFollows(i);
      } else if 6 <= i < 9 {
        ReleaseFollows(i);
      } else if i < 3 {
        AddedFollows(i);
      } else if i < 4 {
        OpenFollows(i);
      } else if i < 5 {
        TakeFollows(i);
      } else if 9 <= i < 11 {
        BeginDeleteFollows(i);
      } else {
        UnguardedFollows(i);
      }
    }
    SameState(states[0], Start(2, 2, 1));
    LostCount();
  }

  /** Two uses, and a count of one. */
  lemma LostCount()
    ensures CountOK(LostState(5), 0) && !CountOK(LostState(6), 0)
    ensures WF(LostState(5)) && Enabled(LostState(5), LostAct(5)) ==> !Fresh(LostState(5), LostAct(5), 0)
  {
    assert StrongOf(LostState(5).recs, 0) == {STRONG_END};
    assert Releasing([Raising(0, 0)][..0], 0) == 0 && Releasing([NoUse][..0], 0) == 0;
    assert Releasing([Raising(0, 0)], 0) == 0 && Releasing([NoUse], 0) == 0;
  }
}
