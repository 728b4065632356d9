/**
  What the steps of an object come to, as the source promises it: who enters, who waits and who is sent
  away, what a check answers, and what a connection adds.
 */
module XObjectOutcomes {
  import opened XObjectStatus
  import opened XObjectProtocol
  import opened XObjectMonitor
  import opened XObjectConnections
  import opened XObjectCounts
  import opened XObjectDeletion

  predicate SameStatus(s: State, u: State, o: nat) {
    o < |s.objs| == |u.objs| && u.objs[o].mon == s.objs[o].mon
  }

  // ---------------------------------------------------------------- entering an operation

  /** A thread that wants an operation enters it exactly if the object rests where the operation begins, and
      sleeps exactly if the operation that is on may end there; otherwise it is sent away. */
  lemma TryOutcome(s: State, t: nat)
    requires WF(s) && t < |s.threads| && s.threads[t].Want?
    ensures Enabled(s, Try(t)) && t < |Step(s, Try(t)).threads|
    ensures ThreadOK(s, s.threads[t])
    ensures var o, op := s.threads[t].obj, s.threads[t].op;
            var st, u := s.objs[o].mon.status, Step(s, Try(t));
            if Resting(st) && st in Origins(op) then
              u.threads[t] == Busy(o, op, st, false, Body) && o < |u.objs|
              && u.objs[o].mon == Monitor(op, st, s.objs[o].mon.ruse)
            else
              SameStatus(s, u, o)
              && u.threads[t] == if !Resting(st) && WorthWaiting(st, op) then Asleep(o, op) else Idle
  {
    assert ThreadOK(s, s.threads[t]);
    var o, op := s.threads[t].obj, s.threads[t].op;
    var st := s.objs[o].mon.status;
    RestingRows(st, op);
    ReturnsAreDirect(st, op);
    if !Resting(st) {
      WaitingIsWorthwhile(st, op);
    }
    hide CanTransit, WorthWaiting, EndsIn, Origins, WF, ThreadOK;
  }

  // ---------------------------------------------------------------- a delete's check

  /** When the use count is right a delete goes on exactly if the object has no strong connection and
      nobody holds it, and is given up otherwise. */
  lemma CheckOutcome(s: State, t: nat)
    requires WF(s) && t < |s.threads| && s.threads[t].Busy? && s.threads[t].op.DELETING? && !s.threads[t].checked
    requires s.threads[t].act.Body? && CountOK(s, s.threads[t].obj)
    ensures Enabled(s, BusyCheck(t)) && t < |Step(s, BusyCheck(t)).threads|
    ensures var o, th := s.threads[t].obj, s.threads[t];
            Step(s, BusyCheck(t)).threads[t]
            == if NoStrong(s.recs, o) && s.objs[o].holds == 0 && Releasing(s.uses, o) == 0
            then Busy(o, DELETING, th.from, true, Body) else Busy(o, DELETING, th.from, false, Quit)
  {
    var o := s.threads[t].obj;
    if s.objs[o].mon.ruse == 0 {
      UnusedIsBare(s, o);
    } else if NoStrong(s.recs, o) {
      assert StrongOf(s.recs, o) == {};
    }
  }

  // ---------------------------------------------------------------- the end of an operation

  /** The thread after it has been woken: it tries once more to do what it slept for. */
  ghost predicate TriesAgain(before: Thread, after: Thread) {
    if before.Asleep? then after == Want(before.obj, before.op)
    else before.Busy? && before.act.FarAsleep?
         && after == Busy(before.obj, before.op, before.from, before.checked, Far(before.act.near, before.act.there, true))
  }

  predicate SleepsOn(th: Thread, o: nat) {
    Sleeping(th) && o == if th.Asleep? then th.obj else th.act.there.owner
  }

  /** All who sleep on the object are woken, and nobody else but thread `t` does anything. */
  ghost predicate AllWoken(s: State, u: State, o: nat, t: nat) {
    && |u.threads| == |s.threads|
    && forall i | 0 <= i < |s.threads| && i != t ::
         if SleepsOn(s.threads[i], o) then TriesAgain(s.threads[i], u.threads[i]) else u.threads[i] == s.threads[i]
  }

  lemma WokenAll(s: State, u: State, o: nat, t: nat)
    requires |s.threads| == |u.threads|
    requires forall i | 0 <= i < |s.threads| && i != t :: u.threads[i] == WakeThread(s.threads[i], o)
    ensures AllWoken(s, u, o, t)
  {
  }

  /** A sleeper that wakes up without cause does the same. */
  lemma SpuriousOutcome(s: State, t: nat)
    requires WF(s) && t < |s.threads| && Sleeping(s.threads[t])
    ensures Enabled(s, Spurious(t)) && t < |Step(s, Spurious(t)).threads|
    ensures TriesAgain(s.threads[t], Step(s, Spurious(t)).threads[t]) && Step(s, Spurious(t)).objs == s.objs
  {
  }

  /** An operation that is given up, or that is for nothing else, ends where it began. */
  lemma BackOutcome(s: State, t: nat)
    requires WF(s) && MonInv(s) && t < |s.threads| && s.threads[t].Busy?
    requires s.threads[t].act.Quit? || (s.threads[t].act.Body? && (s.threads[t].op.DELETING? ==> s.threads[t].checked))
    ensures Enabled(s, Back(t)) && OwnsAt(s, t) && t < |Step(s, Back(t)).threads|
    ensures var o, u := s.threads[t].obj, Step(s, Back(t));
            && o < |u.objs| && u.objs[o].mon == Monitor(s.threads[t].from, s.threads[t].op, s.objs[o].mon.ruse)
            && s.threads[t].from in EndsIn(s.threads[t].op)
            && u.threads[t].Idle? && AllWoken(s, u, o, t)
  {
    assert OwnsAt(s, t);
    WokenAll(s, Step(s, Back(t)), s.threads[t].obj, t);
  }

  /** An addition that succeeds ends in NORMAL, a delete that goes on ends in DELETED, with everything that is
      in the object's list still to be disconnected. */
  lemma CommitOutcome(s: State, t: nat)
    requires WF(s) && MonInv(s) && t < |s.threads| && s.threads[t].Busy? && s.threads[t].act.Body?
    requires s.threads[t].op.ADDING? || (s.threads[t].op.DELETING? && s.threads[t].checked)
    ensures Enabled(s, Commit(t)) && OwnsAt(s, t) && t < |Step(s, Commit(t)).threads|
    ensures var o, op, u := s.threads[t].obj, s.threads[t].op, Step(s, Commit(t));
            var end := if op.ADDING? then NORMAL else DELETED;
            && o < |u.objs| && u.objs[o].mon == Monitor(end, op, s.objs[o].mon.ruse) && end in EndsIn(op)
            && AllWoken(s, u, o, t)
            && (op.ADDING? ==> u.threads[t].Idle?)
            && (op.DELETING? ==> u.threads[t].Cleaning? && u.threads[t].obj == o && u.threads[t].act.Body?
                                 && forall r :: r in u.threads[t].todo <==> r in u.recs && r.owner == o)
  {
    assert OwnsAt(s, t);
    WokenAll(s, Step(s, Commit(t)), s.threads[t].obj, t);
  }

  // ---------------------------------------------------------------- opening a connection

  /** connect, its own side: with a new id, the near end is listed and counted exactly if this side agrees,
      and the other side is asked either way. */
  lemma ConnectOutcome(s: State, t: nat, target: nat, nearStrong: bool, farStrong: bool, may: bool)
    requires WF(s) && MonInv(s) && t < |s.threads| && s.threads[t].Busy? && s.threads[t].act.Body?
    requires (s.threads[t].op.ADDING? || s.threads[t].op.MODIFYING?) && target < |s.objs|
    ensures OwnsAt(s, t)
    ensures var o, x := s.threads[t].obj, s.objs[s.threads[t].obj].mon;
            var near, a := Rec(s.nextCid, false, o, target, nearStrong), Connect(t, target, nearStrong, farStrong, may, x.ruse);
            && Enabled(s, a) && o < |Step(s, a).objs| && t < |Step(s, a).threads|
            && near !in s.recs && Step(s, a).recs == (if may then s.recs + {near} else s.recs)
            && Step(s, a).objs[o].mon == x.(ruse := if may && nearStrong then x.ruse + 1 else x.ruse)
            && Step(s, a).threads[t].Busy?
            && Step(s, a).threads[t].act == Far(near, Rec(s.nextCid, true, target, o, farStrong), false)
  {
    assert OwnsAt(s, t);
    assert RecentOK(s.objs[s.threads[t].obj]);
    var near := Rec(s.nextCid, false, s.threads[t].obj, target, nearStrong);
    assert near in s.recs ==> RecOK(s, near);
  }

  /** The other side's addConnection, once it has been asked or agrees: it waits exactly while the object is
      being deleted, and refuses exactly when it is deleted.  What it accepts is listed and counted. */
  lemma AskOutcome(s: State, t: nat, may: bool)
    requires WF(s) && t < |s.threads| && s.threads[t].Busy? && s.threads[t].act.Far?
    ensures ThreadOK(s, s.threads[t])
    ensures var there, x := s.threads[t].act.there, s.objs[s.threads[t].act.there.owner].mon;
            var willing, a := s.threads[t].act.asked || may, Ask(t, may, x.ruse);
            && Enabled(s, a) && t < |Step(s, a).threads| && Step(s, a).threads[t].Busy?
            && (Step(s, a).threads[t].act.FarAsleep? <==> willing && x.status.DELETING?)
            && (Step(s, a).threads[t].act.Undo? <==> !willing || x.status.DELETED?)
            && (Step(s, a).threads[t].act.Body? <==> willing && !x.status.DELETING? && !x.status.DELETED?)
            && there.owner < |Step(s, a).objs|
            && Step(s, a).recs == (if Step(s, a).threads[t].act.Body? then s.recs + {there} else s.recs)
            && Step(s, a).objs[there.owner].mon
            == x.(ruse := if Step(s, a).threads[t].act.Body? && there.strong then x.ruse + 1 else x.ruse)
  {
    assert ThreadOK(s, s.threads[t]);
    assert RecentOK(s.objs[s.threads[t].act.there.owner]);
  }

  /** Who waits sleeps on the object that is asked, and keeps in mind which connection it is; who is refused
      has the near end to undo. */
  lemma AskedAgain(s: State, t: nat, may: bool)
    requires WF(s) && t < |s.threads| && s.threads[t].Busy? && s.threads[t].act.Far?
    requires s.threads[t].act.there.owner < |s.objs|
    requires Enabled(s, Ask(t, may, s.objs[s.threads[t].act.there.owner].mon.ruse))
    ensures var a, act := Ask(t, may, s.objs[s.threads[t].act.there.owner].mon.ruse), s.threads[t].act;
            && t < |Step(s, a).threads| && Step(s, a).threads[t].Busy?
            && (Step(s, a).threads[t].act.FarAsleep? ==>
                  Step(s, a).threads[t].act == FarAsleep(act.near, act.there)
                  && SleepsOn(Step(s, a).threads[t], act.there.owner))
            && (Step(s, a).threads[t].act.Undo? ==> Step(s, a).threads[t].act.near == act.near)
  {
    assert ThreadOK(s, s.threads[t]);
  }

  // ---------------------------------------------------------------- closing a connection

  /** disconnect, its own side: the record leaves the list and is uncounted. */
  lemma DisconnectOutcome(s: State, t: nat, r: Rec)
    requires WF(s) && MonInv(s) && t < |s.threads| && r in s.recs
    requires s.threads[t].Busy? || s.threads[t].Cleaning?
    requires s.threads[t].act.Body? && r.owner == s.threads[t].obj
    requires s.threads[t].Busy? ==> s.threads[t].op.ADDING? || s.threads[t].op.MODIFYING? || s.threads[t].checked
    ensures r.owner < |s.objs|
    ensures var x := s.objs[r.owner].mon;
            var a := Disconnect(t, r, x.ruse);
            && Enabled(s, a) && t < |Step(s, a).threads| && r.owner < |Step(s, a).objs|
            && Step(s, a).recs == s.recs - {r}
            && Step(s, a).objs[r.owner].mon == x.(ruse := if r.strong then x.ruse - 1 else x.ruse)
            && (Step(s, a).threads[t].Busy? || Step(s, a).threads[t].Cleaning?)
            && Step(s, a).threads[t].act == Mate(r)
  {
    assert RecOK(s, r) && RecentOK(s.objs[r.owner]);
    assert s.threads[t].Busy? ==> OwnsAt(s, t);
  }

  // ---------------------------------------------------------------- holds

  /** inc_ruse, undisturbed or not: one more hold, and one more than what was read is written. */
  lemma HoldOutcome(s: State, u: nat, o: nat)
    requires WF(s) && u < |s.uses| && s.uses[u].NoUse? && o < |s.objs|
    ensures Enabled(s, HoldRead(u, o)) && u < |Step(s, HoldRead(u, o)).uses|
    ensures Step(s, HoldRead(u, o)).uses[u] == Raising(o, s.objs[o].mon.ruse) && Step(s, HoldRead(u, o)).objs == s.objs
  {
  }

  lemma HoldWritten(s: State, u: nat)
    requires WF(s) && u < |s.uses| && s.uses[u].Raising?
    ensures Enabled(s, HoldWrite(u)) && s.uses[u].obj < |s.objs| && u < |Step(s, HoldWrite(u)).uses|
    ensures var o, v := s.uses[u].obj, Step(s, HoldWrite(u));
            && o < |v.objs| && v.objs[o].mon == s.objs[o].mon.(ruse := s.uses[u].seen + 1)
            && v.objs[o].holds == s.objs[o].holds + 1 && v.uses[u].NoUse?
  {
    assert UseOK(s, s.uses[u]);
  }
}
