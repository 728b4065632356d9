/**
  What is left of a deleted object: nothing, but for the connections that it accepted while it was
  being printed and those whose initiator refused its own end.
 */
module XObjectDeletion {
  import opened XObjectStatus
  import opened XObjectProtocol
  import opened XObjectMonitor
  import opened XObjectConnections
  import opened XObjectCounts

  // ---------------------------------------------------------------- a delete that passed its check

  predicate Checked(th: Thread) { th.Busy? && th.checked }

  /** While a delete of the object is decided, it has no strong connection. */
  ghost predicate CheckedOK(s: State, o: nat) {
    forall t | 0 <= t < |s.threads| && Checked(s.threads[t]) && s.threads[t].obj == o :: NoStrong(s.recs, o)
  }

  ghost predicate NoStrong(recs: set<Rec>, o: nat) {
    forall r | r in recs && r.strong :: r.owner != o
  }

  /** A record appears only where its owner is neither being deleted nor resting in DELETED. */
  lemma NewRecords(s: State, a: Action, r: Rec)
    requires WF(s) && Enabled(s, a) && MonInv(s) && IdsOK(s) && r in Step(s, a).recs && r !in s.recs
    ensures r.owner < |s.objs| && Reception(s.objs[r.owner].mon).Accepted? && (a.Connect? || a.Ask?)
    ensures Rest(s.objs[r.owner].mon).DELETED? ==> r in Step(s, a).late
  {
    hide Step, IdsOK, FlightChanged, SameFlights;
    if Neutral(a) {
      NeutralEffect(s, a);
    } else {
      ActorOK(s, a);
      assert s.threads[a.t].Busy? ==> OwnsAt(s, a.t);
      match a
      case Connect(t, target, ns, fs, may, _) => ConnectEffect(s, a);
      case Ask(t, _, _) =>
        if Accepts(s, a) {
          AcceptEffect(s, a);
        } else {
          AskWaits(s, a);
        }
      case UndoNear(t, _) => UndoEffect(s, a);
      case Disconnect(t, r, _) => DisconnectEffect(s, a);
      case SeekMate(t) => SeekEffect(s, a);
      case DeleteMate(t, _) => MateEffect(s, a);
    }
  }

  lemma CheckedBefore(s: State, a: Action, t: nat)
    requires WF(s) && Enabled(s, a) && t < |s.threads|
    ensures t < |Step(s, a).threads| == |s.threads|
    ensures Checked(Step(s, a).threads[t]) ==>
              (Checked(s.threads[t]) && Step(s, a).threads[t].obj == s.threads[t].obj)
              || (a == BusyCheck(t) && s.objs[s.threads[t].obj].mon.ruse == 0 && Step(s, a).threads[t].obj == s.threads[t].obj)
  {
    hide Step, WF, Enabled;
    if a.Try? || a.Commit? || a.Back? || a.BusyCheck? {
      CheckedByStatus(s, a, t);
    } else if ByUser(a) || a.t != t {
      OtherThread(s, a, t);
    } else {
      CheckedByOwn(s, a, t);
    }
  }

  lemma CheckedByStatus(s: State, a: Action, t: nat)
    requires WF(s) && Enabled(s, a) && t < |s.threads| && (a.Try? || a.Commit? || a.Back? || a.BusyCheck?)
    ensures t < |Step(s, a).threads| == |s.threads|
    ensures Checked(Step(s, a).threads[t]) ==>
              (Checked(s.threads[t]) && Step(s, a).threads[t].obj == s.threads[t].obj)
              || (a == BusyCheck(t) && s.objs[s.threads[t].obj].mon.ruse == 0 && Step(s, a).threads[t].obj == s.threads[t].obj)
  {
    hide CanTransit;
    ActorOK(s, a);
  }

  /** Steps that change no status leave the other threads alone. */
  lemma OtherThread(s: State, a: Action, t: nat)
    requires WF(s) && Enabled(s, a) && t < |s.threads| && !a.Try? && !a.Commit? && !a.Back? && !a.BusyCheck?
    requires ByUser(a) || a.t != t
    ensures |Step(s, a).threads| == |s.threads| && Step(s, a).threads[t] == s.threads[t]
  {
    hide Step;
    if ByUser(a) {
      UserThreads(s, a);
    } else {
      OthersUntouched(s, a, t);
    }
  }

  lemma UserThreads(s: State, a: Action)
    requires WF(s) && Enabled(s, a) && ByUser(a)
    ensures Step(s, a).threads == s.threads
  {
  }

  lemma OthersUntouched(s: State, a: Action, t: nat)
    requires WF(s) && Enabled(s, a) && t < |s.threads| && !a.Try? && !a.Commit? && !a.Back? && !a.BusyCheck?
    requires !ByUser(a) && a.t != t
    ensures |Step(s, a).threads| == |s.threads| && Step(s, a).threads[t] == s.threads[t]
  {
    hide UserStep;
    ActorOK(s, a);
  }

  lemma CheckedByOwn(s: State, a: Action, t: nat)
    requires WF(s) && Enabled(s, a) && t < |s.threads| && !a.Try? && !a.Commit? && !a.Back? && !a.BusyCheck?
    requires !ByUser(a) && a.t == t
    ensures t < |Step(s, a).threads| == |s.threads|
    ensures Checked(Step(s, a).threads[t]) ==> Checked(s.threads[t]) && Step(s, a).threads[t].obj == s.threads[t].obj
  {
    ActorOK(s, a);
  }

  lemma UnusedIsBare(s: State, o: nat)
    requires CountOK(s, o) && s.objs[o].mon.ruse == 0
    ensures NoStrong(s.recs, o)
  {
    assert StrongOf(s.recs, o) == {};
    forall r | r in s.recs && r.strong ensures r.owner != o {
      assert r !in StrongOf(s.recs, o);
    }
  }

  /** If the use count is right when the delete checks it, the object has no strong connection from there
      to the end of the delete. */
  lemma CheckedStep(s: State, a: Action, o: nat)
    requires WF(s) && Enabled(s, a) && MonInv(s) && IdsOK(s) && CheckedOK(s, o)
    requires a.BusyCheck? && s.threads[a.t].obj == o ==> CountOK(s, o)
    ensures CheckedOK(Step(s, a), o)
  {
    hide Step, IdsOK, CountOK, WF, Enabled;
    var u := Step(s, a);
    forall t | 0 <= t < |u.threads| && Checked(u.threads[t]) && u.threads[t].obj == o ensures NoStrong(u.recs, o) {
      CheckedKept(s, a, o, t);
    }
  }

  lemma CheckedKept(s: State, a: Action, o: nat, t: nat)
    requires WF(s) && Enabled(s, a) && MonInv(s) && IdsOK(s) && CheckedOK(s, o)
    requires a.BusyCheck? && s.threads[a.t].obj == o ==> CountOK(s, o)
    requires t < |Step(s, a).threads| && Checked(Step(s, a).threads[t]) && Step(s, a).threads[t].obj == o
    ensures NoStrong(Step(s, a).recs, o)
  {
    hide Step, IdsOK, CountOK, WF;
    ThreadsKept(s, a);
    CheckedBefore(s, a, t);
    assert OwnsAt(s, t);
    if !Checked(s.threads[t]) {
      UnusedIsBare(s, o);
    }
    forall r | r in Step(s, a).recs && r.strong ensures r.owner != o {
      if r !in s.recs {
        NewRecords(s, a, r);
        assert s.objs[o].mon.status.DELETING?;
      }
    }
  }

  lemma ThreadsKept(s: State, a: Action)
    requires WF(s) && Enabled(s, a)
    ensures |Step(s, a).threads| == |s.threads| && |Step(s, a).objs| == |s.objs|
  {
    hide CanTransit;
    if !ByUser(a) {
      hide UserStep;
      ActorOK(s, a);
    }
  }

  // ---------------------------------------------------------------- late connections

  ghost predicate LateOK(s: State) {
    && (forall r | r in s.late :: r.cid < s.nextCid)
    && (forall r, t | r in s.late && 0 <= t < |s.threads| :: NotOpening(FlightOf(s.threads[t]), r.cid))
    && (forall r, m | r in s.recs && m in s.recs :: IsMate(m, r) && m in s.late ==> r in s.late)
  }

  predicate NotOpening(f: Flight, cid: nat) {
    f.Opening? ==> f.near.cid != cid
  }

  lemma LateKept(s: State, u: State, t: nat, f: Flight)
    requires LateOK(s) && FlightChanged(s, u, t, f) && u.recs <= s.recs && u.late == s.late && u.nextCid == s.nextCid
    requires !f.Opening?
    ensures LateOK(u)
  {
  }

  lemma LateSame(s: State, u: State)
    requires LateOK(s) && SameFlights(s, u) && u.recs == s.recs && u.late == s.late && u.nextCid == s.nextCid
    ensures LateOK(u)
  {
  }

  lemma LateConnect(s: State, u: State, t: nat, near: Rec)
    requires LateOK(s) && FlightChanged(s, u, t, Opening(near.owner, near)) && near.cid == s.nextCid
    requires forall r | r in s.recs :: r.cid < s.nextCid
    requires u.recs == s.recs || u.recs == s.recs + {near}
    requires u.late == s.late && u.nextCid == s.nextCid + 1
    ensures LateOK(u)
  {
  }

  lemma LateAccept(s: State, u: State, t: nat, near: Rec, there: Rec)
    requires LateOK(s) && IdsOK(s) && t < |s.threads| && FlightOf(s.threads[t]) == Opening(near.owner, near)
    requires Ends(near, there) && FlightChanged(s, u, t, NoFlight)
    requires u.recs == s.recs + {there} && u.nextCid == s.nextCid && (u.late == s.late || u.late == s.late + {near, there})
    ensures LateOK(u)
  {
    assert FlightOK(s.recs, s.nextCid, FlightOf(s.threads[t]));
    forall r, i | r in u.late && 0 <= i < |u.threads| ensures NotOpening(FlightOf(u.threads[i]), r.cid) {
      if i != t {
        assert FlightsApart(FlightOf(s.threads[i]), FlightOf(s.threads[t]));
        assert r in s.late ==> NotOpening(FlightOf(s.threads[i]), r.cid);
      }
    }
    forall r | r in s.late ensures r.cid != near.cid {
      assert NotOpening(FlightOf(s.threads[t]), r.cid);
    }
  }

  lemma LateStep(s: State, a: Action)
    requires WF(s) && Enabled(s, a) && MonInv(s) && IdsOK(s) && LateOK(s)
    ensures LateOK(Step(s, a))
  {
    hide MonInv, Step, LateOK, FlightChanged, SameFlights;
    if Neutral(a) {
      NeutralEffect(s, a);
      LateSame(s, Step(s, a));
    } else {
      ActorOK(s, a);
      match a
      case Connect(t, target, ns, fs, may, _) =>
        ConnectEffect(s, a);
        LateConnect(s, Step(s, a), t, NearEnd(s, t, target, ns));
      case Ask(t, _, _) =>
        if Accepts(s, a) {
          AcceptEffect(s, a);
          LateAccept(s, Step(s, a), t, s.threads[t].act.near, s.threads[t].act.there);
        } else {
          AskWaits(s, a);
          LateSame(s, Step(s, a));
        }
      case UndoNear(t, _) =>
        UndoEffect(s, a);
        LateKept(s, Step(s, a), t, NoFlight);
      case Disconnect(t, r, _) =>
        DisconnectEffect(s, a);
        LateKept(s, Step(s, a), t, Closing(r.owner, r, {}));
      case SeekMate(t) =>
        SeekEffect(s, a);
        LateKept(s, Step(s, a), t, FlightOf(Step(s, a).threads[t]));
      case DeleteMate(t, _) =>
        MateEffect(s, a);
        LateKept(s, Step(s, a), t, NoFlight);
    }
  }

  // ---------------------------------------------------------------- deleted objects are cleared

  /** The walk of a disconnectAll has yet to meet the record. */
  predicate ToMeet(th: Thread, r: Rec) {
    th.Cleaning? && r in th.todo
  }

  ghost predicate WillBeMet(s: State, r: Rec) {
    exists t :: 0 <= t < |s.threads| && ToMeet(s.threads[t], r)
  }

  predicate Deleted(s: State, o: nat) {
    o < |s.objs| && Rest(s.objs[o].mon).DELETED?
  }

  /** What is left in a deleted object's list has yet to be met by the walk that clears it, or is a late
      connection. */
  ghost predicate DeletedOK(s: State) {
    forall r | r in s.recs && Deleted(s, r.owner) :: r in s.late || WillBeMet(s, r)
  }

  /** A walk passes a record only by removing it or by finding it gone. */
  lemma StaysToMeet(s: State, a: Action, t: nat, r: Rec)
    requires WF(s) && Enabled(s, a) && t < |s.threads| && ToMeet(s.threads[t], r)
    requires r in s.recs && r in Step(s, a).recs
    ensures t < |Step(s, a).threads| && ToMeet(Step(s, a).threads[t], r)
  {
    if ByUser(a) || a.t != t {
      CleanerKept(s, a, t);
    } else {
      OwnStaysToMeet(s, a, r);
    }
  }

  lemma OwnStaysToMeet(s: State, a: Action, r: Rec)
    requires WF(s) && Enabled(s, a) && !ByUser(a) && ToMeet(s.threads[a.t], r)
    requires r in s.recs && r in Step(s, a).recs
    ensures a.t < |Step(s, a).threads| && ToMeet(Step(s, a).threads[a.t], r)
  {
    ActorOK(s, a);
  }

  lemma CleanerKept(s: State, a: Action, t: nat)
    requires WF(s) && Enabled(s, a) && t < |s.threads| && s.threads[t].Cleaning?
    requires ByUser(a) || a.t != t
    ensures t < |Step(s, a).threads| && Step(s, a).threads[t] == s.threads[t]
  {
    hide Step, WF, Enabled;
    if a.Try? || a.Commit? || a.Back? || a.BusyCheck? {
      NotWoken(s, a, t);
    } else {
      OtherThread(s, a, t);
    }
  }

  /** A thread that clears does not sleep, and is not woken. */
  lemma NotWoken(s: State, a: Action, t: nat)
    requires WF(s) && Enabled(s, a) && t < |s.threads| && s.threads[t].Cleaning?
    requires (a.Try? || a.Commit? || a.Back? || a.BusyCheck?) && a.t != t
    ensures t < |Step(s, a).threads| && Step(s, a).threads[t] == s.threads[t]
  {
    hide CanTransit;
    ActorOK(s, a);
  }

  lemma LateGrows(s: State, a: Action)
    requires WF(s) && Enabled(s, a)
    ensures s.late <= Step(s, a).late && s.half <= Step(s, a).half
  {
    hide CanTransit;
    if !ByUser(a) {
      ActorOK(s, a);
    }
  }

  /** An object becomes deleted only by the commit of its delete, whose walk has the whole list to meet. */
  lemma DeletedByCommit(s: State, a: Action, o: nat)
    requires WF(s) && Enabled(s, a) && MonInv(s) && Deleted(Step(s, a), o) && !Deleted(s, o)
    ensures a.Commit? && o < |s.objs| && a.t < |Step(s, a).threads|
    ensures Step(s, a).recs == s.recs && Step(s, a).threads[a.t] == Cleaning(o, Body, OwnedBy(s.recs, o))
  {
    ThreadsKept(s, a);
    LifecycleForward(s, a, o);
    assert OwnsAt(s, a.t);
  }

  lemma DeletedKept(s: State, a: Action, r: Rec)
    requires WF(s) && Enabled(s, a) && MonInv(s) && IdsOK(s) && DeletedOK(s)
    requires r in Step(s, a).recs && Deleted(Step(s, a), r.owner)
    ensures r in Step(s, a).late || WillBeMet(Step(s, a), r)
  {
    hide Step, MonInv, IdsOK, WF;
    LateGrows(s, a);
    if !Deleted(s, r.owner) {
      DeletedByCommit(s, a, r.owner);
      assert ToMeet(Step(s, a).threads[a.t], r);
    } else if r !in s.recs {
      NewRecords(s, a, r);
    } else if r !in s.late {
      var t :| 0 <= t < |s.threads| && ToMeet(s.threads[t], r);
      StaysToMeet(s, a, t, r);
    }
  }

  lemma DeletedStep(s: State, a: Action)
    requires WF(s) && Enabled(s, a) && MonInv(s) && IdsOK(s) && DeletedOK(s)
    ensures DeletedOK(Step(s, a))
  {
    hide Step, MonInv, IdsOK, WF, Enabled, Deleted, WillBeMet;
    forall r | r in Step(s, a).recs && Deleted(Step(s, a), r.owner)
      ensures r in Step(s, a).late || WillBeMet(Step(s, a), r)
    {
      DeletedKept(s, a, r);
    }
  }

  // ---------------------------------------------------------------- the clearing ends

  /** What a clearing thread has yet to do, at three steps a record: the records to meet and those that
      are in the list, and the rest of the disconnect it is in. */
  function Left(s: State, t: nat): nat
    requires t < |s.threads| && s.threads[t].Cleaning?
  {
    3 * |Work(s.threads[t], s.recs)| + Stage(s.threads[t].act)
  }

  /** How far the thread is from its next record. */
  function Stage(a: Act): nat {
    if a.Mate? then 2 else if a.Found? then 1 else 0
  }

  predicate StillCleans(s: State, u: State, t: nat)
    requires t < |s.threads| && s.threads[t].Cleaning?
  {
    t < |u.threads| && u.threads[t].Cleaning? && u.threads[t].obj == s.threads[t].obj
  }

  function Work(th: Thread, recs: set<Rec>): set<Rec>
    requires th.Cleaning?
  {
    th.todo + OwnedBy(recs, th.obj)
  }

  lemma LeftShrinks(s: State, u: State, t: nat, r: Rec)
    requires t < |s.threads| && s.threads[t].Cleaning? && StillCleans(s, u, t)
    requires r in Work(s.threads[t], s.recs) && Work(u.threads[t], u.recs) <= Work(s.threads[t], s.recs) - {r}
    requires Stage(u.threads[t].act) <= Stage(s.threads[t].act) + 2
    ensures Left(u, t) < Left(s, t)
  {
    var a, b := Work(s.threads[t], s.recs), Work(u.threads[t], u.recs);
    SubsetCard(b, a - {r});
  }

  lemma LeftKept(s: State, u: State, t: nat)
    requires t < |s.threads| && s.threads[t].Cleaning? && StillCleans(s, u, t)
    requires Work(u.threads[t], u.recs) <= Work(s.threads[t], s.recs)
    ensures Left(u, t) - Stage(u.threads[t].act) <= Left(s, t) - Stage(s.threads[t].act)
  {
    SubsetCard(Work(u.threads[t], u.recs), Work(s.threads[t], s.recs));
  }

  lemma {:induction false} SubsetCard(a: set<Rec>, b: set<Rec>)
    requires a <= b
    ensures |a| <= |b|
  {
    assert b == a + (b - a);
  }

  /** The steps of a clearing thread. */
  lemma CleanersMoves(s: State, a: Action)
    requires WF(s) && Enabled(s, a) && !ByUser(a) && s.threads[a.t].Cleaning?
    ensures a.Disconnect? || a.Pass? || a.SeekMate? || a.DeleteMate? || a.CleanEnd?
  {
  }

  lemma VisitLeft(s: State, a: Action)
    requires WF(s) && Enabled(s, a) && (a.Disconnect? || a.Pass?) && s.threads[a.t].Cleaning?
    ensures StillCleans(s, Step(s, a), a.t) && Left(Step(s, a), a.t) < Left(s, a.t)
  {
    ActorOK(s, a);
    LeftShrinks(s, Step(s, a), a.t, a.r);
  }

  lemma MateLeft(s: State, a: Action)
    requires WF(s) && Enabled(s, a) && (a.SeekMate? || a.DeleteMate?) && s.threads[a.t].Cleaning?
    ensures StillCleans(s, Step(s, a), a.t) && Left(Step(s, a), a.t) < Left(s, a.t)
  {
    ActorOK(s, a);
    LeftKept(s, Step(s, a), a.t);
  }

  /** Every step that a clearing thread takes leaves it less to do, or is its last. */
  lemma CleaningStep(s: State, a: Action)
    requires WF(s) && Enabled(s, a) && !ByUser(a) && s.threads[a.t].Cleaning?
    ensures a.CleanEnd? || (StillCleans(s, Step(s, a), a.t) && Left(Step(s, a), a.t) < Left(s, a.t))
  {
    hide Step, WF, Enabled, Left, StillCleans;
    CleanersMoves(s, a);
    if a.Disconnect? || a.Pass? {
      VisitLeft(s, a);
    } else if a.SeekMate? || a.DeleteMate? {
      MateLeft(s, a);
    }
  }

  /** The steps of others leave it no more to do, but for a record that its object accepts late. */
  lemma OthersStep(s: State, a: Action, t: nat)
    requires WF(s) && Enabled(s, a) && MonInv(s) && IdsOK(s) && LateOK(s) && t < |s.threads| && s.threads[t].Cleaning?
    requires ByUser(a) || a.t != t
    ensures StillCleans(s, Step(s, a), t)
    ensures Left(Step(s, a), t) <= Left(s, t) + if Step(s, a).late == s.late then 0 else 3
  {
    hide Step, IdsOK, Enabled, WF, FlightChanged, SameFlights;
    CleanerKept(s, a, t);
    var o := s.threads[t].obj;
    assert SleepsWell(s, s.threads[t]);
    if r :| r in Step(s, a).recs && r !in s.recs && r.owner == o {
      NewRecords(s, a, r);
      NewIsOne(s, a, r);
      assert Work(Step(s, a).threads[t], Step(s, a).recs) <= Work(s.threads[t], s.recs) + {r};
      SubsetCard(Work(Step(s, a).threads[t], Step(s, a).recs), Work(s.threads[t], s.recs) + {r});
      LateIsNew(s, a, r);
    } else {
      LeftKept(s, Step(s, a), t);
    }
  }

  lemma LateIsNew(s: State, a: Action, r: Rec)
    requires WF(s) && Enabled(s, a) && MonInv(s) && IdsOK(s) && LateOK(s) && (a.Connect? || a.Ask?)
    requires r in Step(s, a).recs && r !in s.recs
    ensures r !in s.late
  {
    hide Step, IdsOK, FlightChanged, SameFlights;
    ActorOK(s, a);
    assert OwnsAt(s, a.t);
    if a.Connect? {
      ConnectEffect(s, a);
    } else if Accepts(s, a) {
      AcceptEffect(s, a);
      assert r in s.late ==> NotOpening(FlightOf(s.threads[a.t]), r.cid);
    } else {
      AskWaits(s, a);
    }
  }

  /** A step adds at most one record. */
  lemma NewIsOne(s: State, a: Action, r: Rec)
    requires WF(s) && Enabled(s, a) && MonInv(s) && IdsOK(s) && r in Step(s, a).recs && r !in s.recs
    ensures Step(s, a).recs == s.recs + {r}
  {
    hide Step, IdsOK, FlightChanged, SameFlights;
    if Neutral(a) {
      NeutralEffect(s, a);
    } else {
      ActorOK(s, a);
      assert s.threads[a.t].Busy? ==> OwnsAt(s, a.t);
      match a
      case Connect(t, target, ns, fs, may, _) => ConnectEffect(s, a);
      case Ask(t, _, _) =>
        if Accepts(s, a) {
          AcceptEffect(s, a);
        } else {
          AskWaits(s, a);
        }
      case UndoNear(t, _) => UndoEffect(s, a);
      case Disconnect(t, r, _) => DisconnectEffect(s, a);
      case SeekMate(t) => SeekEffect(s, a);
      case DeleteMate(t, _) => MateEffect(s, a);
    }
  }
}
