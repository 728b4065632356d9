/**
  Every object is a sound monitor: at most one operation is on, its origin is saved, sleepers have
  something to wait for, and the resting status only moves forward.
 */
module XObjectMonitor {
  import opened XObjectStatus
  import opened XObjectProtocol

  // ---------------------------------------------------------------- invariants

  predicate Connecting(a: Act) { a.Far? || a.FarAsleep? || a.Undo? }

  predicate Disconnecting(a: Act) { a.Mate? || a.Found? }

  /** What can be going on inside an operation. */
  predicate ActFits(op: Status, checked: bool, a: Act) {
    && (checked ==> op.DELETING?)
    && (Connecting(a) ==> op.ADDING? || op.MODIFYING?)
    && (a.Quit? ==> op.DELETING? && !checked)
    && (Disconnecting(a) ==> op.ADDING? || op.MODIFYING? || (op.DELETING? && checked))
  }

  /** A thread inside an operation owns the object: its status is the operation, the saved status is
      where the operation was entered from. */
  predicate OwnsAt(s: State, t: nat)
    requires t < |s.threads| && s.threads[t].Busy?
  {
    var th := s.threads[t];
    && th.obj < |s.objs|
    && s.objs[th.obj].mon.status == th.op && s.objs[th.obj].mon.prev == th.from && s.objs[th.obj].owner == t
    && !Resting(th.op) && th.from in Origins(th.op)
    && ActFits(th.op, th.checked, th.act)
  }

  ghost predicate OwnersOK(s: State) {
    forall t | 0 <= t < |s.threads| && s.threads[t].Busy? :: OwnsAt(s, t)
  }

  /** An object in an operation has an owner. */
  ghost predicate OpsOwned(s: State) {
    forall o | 0 <= o < |s.objs| && !Resting(s.objs[o].mon.status) :: OwnedAt(s, o)
  }

  predicate OwnedAt(s: State, o: nat)
    requires o < |s.objs|
  {
    0 <= s.objs[o].owner < |s.threads| && s.threads[s.objs[o].owner].Busy? && s.threads[s.objs[o].owner].obj == o
  }

  /** A sleeper waits for an operation, or for a delete, to end. */
  predicate SleepsWell(s: State, th: Thread) {
    && (th.Asleep? ==> th.obj < |s.objs| && CanTransit(s.objs[th.obj].mon.status, th.op).W?)
    && (th.Busy? && th.act.FarAsleep? ==>
          th.act.there.owner < |s.objs| && s.objs[th.act.there.owner].mon.status.DELETING?)
    && (th.Cleaning? ==>
          th.obj < |s.objs| && Rest(s.objs[th.obj].mon).DELETED? && (th.act.Body? || Disconnecting(th.act)))
  }

  ghost predicate SleepersOK(s: State) {
    forall t | 0 <= t < |s.threads| :: SleepsWell(s, s.threads[t])
  }

  /** An object that was never added rests in LOADED; it can be added once. */
  predicate LifeOK(x: Obj) {
    x.adds <= 1 && (Rest(x.mon).LOADED? ==> x.adds == 0)
  }

  ghost predicate LivesOK(s: State) {
    forall o | 0 <= o < |s.objs| :: LifeOK(s.objs[o]) && Resting(Rest(s.objs[o].mon))
  }

  ghost predicate MonInv(s: State) {
    OwnersOK(s) && OpsOwned(s) && SleepersOK(s) && LivesOK(s)
  }

  lemma StartMon(objects: nat, threads: nat, callers: nat)
    ensures MonInv(Start(objects, threads, callers))
  {
  }

  // ---------------------------------------------------------------- steps that change no status

  predicate SameStanding(a: Obj, b: Obj) {
    a.mon.status == b.mon.status && a.mon.prev == b.mon.prev && a.owner == b.owner && a.adds == b.adds
  }

  ghost predicate SameObjs(s: State, u: State) {
    |s.objs| == |u.objs| && forall o | 0 <= o < |s.objs| :: SameStanding(s.objs[o], u.objs[o])
  }

  /** The thread neither enters nor leaves an operation. */
  predicate SameRole(a: Thread, b: Thread) {
    if a.Busy? then b.Busy? && a.obj == b.obj && a.op == b.op && a.from == b.from && ActFits(b.op, b.checked, b.act)
    else !b.Busy?
  }

  lemma Unchanged(s: State, u: State, t: nat)
    requires MonInv(s) && SameObjs(s, u) && t < |s.threads| == |u.threads|
    requires u.threads == s.threads[t := u.threads[t]]
    requires SameRole(s.threads[t], u.threads[t]) && SleepsWell(s, u.threads[t])
    ensures MonInv(u)
  {
    forall o | 0 <= o < |s.objs| ensures SameStanding(s.objs[o], u.objs[o]) {}
    UnchangedOwners(s, u, t);
    UnchangedSleepers(s, u, t);
  }

  lemma UnchangedOwners(s: State, u: State, t: nat)
    requires OwnersOK(s) && OpsOwned(s) && SameObjs(s, u) && t < |s.threads| == |u.threads|
    requires u.threads == s.threads[t := u.threads[t]] && SameRole(s.threads[t], u.threads[t])
    ensures OwnersOK(u) && OpsOwned(u)
  {
    forall i | 0 <= i < |u.threads| && u.threads[i].Busy? ensures OwnsAt(u, i) {
      assert OwnsAt(s, i);
      assert SameStanding(s.objs[s.threads[i].obj], u.objs[s.threads[i].obj]);
    }
    forall o | 0 <= o < |u.objs| && !Resting(u.objs[o].mon.status) ensures OwnedAt(u, o) {
      assert SameStanding(s.objs[o], u.objs[o]);
      assert OwnedAt(s, o);
    }
  }

  lemma UnchangedSleepers(s: State, u: State, t: nat)
    requires SleepersOK(s) && SameObjs(s, u) && t < |s.threads| == |u.threads|
    requires u.threads == s.threads[t := u.threads[t]] && SleepsWell(s, u.threads[t])
    ensures SleepersOK(u)
  {
    forall i | 0 <= i < |u.threads| ensures SleepsWell(u, u.threads[i]) {
      assert SleepsWell(s, u.threads[i]);
      if u.threads[i].Asleep? || u.threads[i].Cleaning? {
        assert SameStanding(s.objs[u.threads[i].obj], u.objs[u.threads[i].obj]);
      } else if u.threads[i].Busy? && u.threads[i].act.FarAsleep? {
        assert SameStanding(s.objs[u.threads[i].act.there.owner], u.objs[u.threads[i].act.there.owner]);
      }
    }
  }

  // ---------------------------------------------------------------- steps that change a status

  /** Object `o` gets status `st`, its old status is saved, all its sleepers are woken, and thread `t`
      becomes `th`; other objects and the roles of other threads are as before. */
  ghost predicate Changed(s: State, u: State, o: nat, t: nat, st: Status, th: Thread) {
    && o < |s.objs| == |u.objs| && t < |s.threads| == |u.threads|
    && u.objs[o].mon.status == st && u.objs[o].mon.prev == s.objs[o].mon.status
    && (forall i | 0 <= i < |s.objs| && i != o :: u.objs[i] == s.objs[i])
    && u.threads[t] == th
    && (forall i | 0 <= i < |s.threads| && i != t :: u.threads[i] == WakeThread(s.threads[i], o))
  }

  lemma ChangedSleepers(s: State, u: State, o: nat, t: nat, st: Status, th: Thread)
    requires SleepersOK(s) && Changed(s, u, o, t, st, th) && SleepsWell(u, th)
    requires Rest(s.objs[o].mon).DELETED? ==> Rest(u.objs[o].mon).DELETED?
    ensures SleepersOK(u)
  {
    forall i | 0 <= i < |u.threads| ensures SleepsWell(u, u.threads[i]) {
      if i != t {
        assert SleepsWell(s, s.threads[i]);
      }
    }
  }

  /** A thread enters an operation on an object that nobody owns. */
  lemma EnterOwners(s: State, u: State, o: nat, t: nat, op: Status, th: Thread)
    requires OwnersOK(s) && OpsOwned(s) && Changed(s, u, o, t, op, th) && !s.threads[t].Busy?
    requires Resting(s.objs[o].mon.status) && !Resting(op) && s.objs[o].mon.status in Origins(op)
    requires th == Busy(o, op, s.objs[o].mon.status, false, Body) && u.objs[o].owner == t
    ensures OwnersOK(u) && OpsOwned(u)
  {
    forall i | 0 <= i < |u.threads| && u.threads[i].Busy? ensures OwnsAt(u, i) {
      assert i != t ==> OwnsAt(s, i);
    }
    forall x | 0 <= x < |u.objs| && !Resting(u.objs[x].mon.status) ensures OwnedAt(u, x) {
      assert x != o ==> OwnedAt(s, x);
    }
  }

  /** The owner leaves its operation for a resting status. */
  lemma LeaveOwners(s: State, u: State, o: nat, t: nat, st: Status, th: Thread)
    requires OwnersOK(s) && OpsOwned(s) && Changed(s, u, o, t, st, th) && s.threads[t].Busy? && s.threads[t].obj == o
    requires Resting(st) && !th.Busy?
    ensures OwnersOK(u) && OpsOwned(u)
  {
    assert OwnsAt(s, t);
    forall i | 0 <= i < |u.threads| && u.threads[i].Busy? ensures OwnsAt(u, i) {
      assert OwnsAt(s, i);
    }
    forall x | 0 <= x < |u.objs| && !Resting(u.objs[x].mon.status) ensures OwnedAt(u, x) {
      assert OwnedAt(s, x);
      assert u.threads[s.objs[x].owner] == WakeThread(s.threads[s.objs[x].owner], o);
    }
  }

  lemma ChangedLives(s: State, u: State, o: nat, t: nat, st: Status, th: Thread)
    requires LivesOK(s) && Changed(s, u, o, t, st, th)
    requires LifeOK(u.objs[o]) && Resting(Rest(u.objs[o].mon))
    ensures LivesOK(u)
  {
  }

  // ---------------------------------------------------------------- chStatus, bkStatus

  lemma TryMon(s: State, t: nat)
    requires MonInv(s) && t < |s.threads| && s.threads[t].Want? && s.threads[t].obj < |s.objs| && !Resting(s.threads[t].op)
    ensures MonInv(TryStatus(s, t))
  {
    var o, op := s.threads[t].obj, s.threads[t].op;
    var m := s.objs[o].mon;
    var u := TryStatus(s, t);
    RestingRows(m.status, op);
    if CanTransit(m.status, op).D? {
      ReturnsAreDirect(m.status, op);
      var th := Busy(o, op, m.status, false, Body);
      assert Changed(s, u, o, t, op, th);
      hide CanTransit, Origins, TryStatus;
      EnterOwners(s, u, o, t, op, th);
      ChangedSleepers(s, u, o, t, op, th);
      ChangedLives(s, u, o, t, op, th);
    } else {
      hide CanTransit;
      Unchanged(s, u, t);
    }
  }

  lemma GoBackMon(s: State, t: nat)
    requires MonInv(s) && t < |s.threads| && s.threads[t].Busy? && s.threads[t].obj < |s.objs|
    ensures MonInv(GoBack(s, t))
    ensures GoBack(s, t).objs[s.threads[t].obj].mon.status == s.threads[t].from
  {
    var o := s.threads[t].obj;
    var u := GoBack(s, t);
    assert OwnsAt(s, t);
    assert Changed(s, u, o, t, s.threads[t].from, Idle);
    assert LifeOK(s.objs[o]);
    LeaveOwners(s, u, o, t, s.threads[t].from, Idle);
    ChangedSleepers(s, u, o, t, s.threads[t].from, Idle);
    ChangedLives(s, u, o, t, s.threads[t].from, Idle);
  }

  lemma CommitMon(s: State, t: nat)
    requires MonInv(s) && t < |s.threads| && s.threads[t].Busy? && s.threads[t].obj < |s.objs|
    requires s.threads[t].op.ADDING? || s.threads[t].op.DELETING?
    ensures MonInv(CommitOp(s, t))
  {
    var o := s.threads[t].obj;
    var u := CommitOp(s, t);
    assert OwnsAt(s, t);
    assert LifeOK(s.objs[o]);
    var st := if s.threads[t].op.ADDING? then NORMAL else DELETED;
    var th := if s.threads[t].op.ADDING? then Idle else Cleaning(o, Body, OwnedBy(s.recs, o));
    assert Changed(s, u, o, t, st, th);
    LeaveOwners(s, u, o, t, st, th);
    ChangedSleepers(s, u, o, t, st, th);
    ChangedLives(s, u, o, t, st, th);
  }

  // ---------------------------------------------------------------- every step

  /** What the remaining steps do to their thread. */
  predicate RoleKept(s: State, u: State, t: nat) {
    && t < |s.threads| == |u.threads| && u.threads == s.threads[t := u.threads[t]]
    && SameRole(s.threads[t], u.threads[t]) && SleepsWell(s, u.threads[t])
  }

  lemma ConnectQuiet(s: State, a: Action)
    requires WF(s) && Enabled(s, a) && MonInv(s) && a.Connect?
    ensures SameObjs(s, Step(s, a)) && RoleKept(s, Step(s, a), a.t)
  {
    assert OwnsAt(s, a.t);
  }

  lemma AskQuiet(s: State, a: Action)
    requires WF(s) && Enabled(s, a) && MonInv(s) && a.Ask?
    ensures SameObjs(s, Step(s, a)) && RoleKept(s, Step(s, a), a.t)
  {
    assert OwnsAt(s, a.t);
    assert ThreadOK(s, s.threads[a.t]);
  }

  lemma DisconnectQuiet(s: State, a: Action)
    requires WF(s) && Enabled(s, a) && MonInv(s) && (a.UndoNear? || a.Disconnect?)
    ensures SameObjs(s, Step(s, a)) && RoleKept(s, Step(s, a), a.t)
  {
    assert s.threads[a.t].Busy? ==> OwnsAt(s, a.t);
    assert SleepsWell(s, s.threads[a.t]) && ThreadOK(s, s.threads[a.t]);
  }

  lemma MateQuiet(s: State, a: Action)
    requires WF(s) && Enabled(s, a) && MonInv(s) && (a.SeekMate? || a.DeleteMate?)
    ensures SameObjs(s, Step(s, a)) && RoleKept(s, Step(s, a), a.t)
  {
    assert s.threads[a.t].Busy? ==> OwnsAt(s, a.t);
    assert SleepsWell(s, s.threads[a.t]) && ThreadOK(s, s.threads[a.t]);
  }

  lemma PlainQuiet(s: State, a: Action)
    requires WF(s) && Enabled(s, a) && MonInv(s) && (a.Call? || a.Spurious? || a.BusyCheck? || a.Pass? || a.CleanEnd?)
    ensures SameObjs(s, Step(s, a)) && RoleKept(s, Step(s, a), a.t)
  {
    assert s.threads[a.t].Busy? ==> OwnsAt(s, a.t);
    assert SleepsWell(s, s.threads[a.t]);
  }

  lemma UserMon(s: State, a: Action)
    requires WF(s) && Enabled(s, a) && MonInv(s) && ByUser(a)
    ensures MonInv(Step(s, a))
  {
    hide UserStep, WF, Enabled, OwnsAt, OwnedAt, SleepsWell;
    UserQuiet(s, a);
    StandingKept(s, Step(s, a));
  }

  lemma UserQuiet(s: State, a: Action)
    requires WF(s) && Enabled(s, a) && ByUser(a)
    ensures SameObjs(s, Step(s, a)) && Step(s, a).threads == s.threads
  {
  }

  lemma StandingKept(s: State, u: State)
    requires MonInv(s) && SameObjs(s, u) && u.threads == s.threads
    ensures MonInv(u)
  {
    forall o | 0 <= o < |s.objs| ensures SameStanding(s.objs[o], u.objs[o]) {}
    forall t | 0 <= t < |u.threads| && u.threads[t].Busy? ensures OwnsAt(u, t) {
      assert OwnsAt(s, t);
    }
    forall o | 0 <= o < |u.objs| && !Resting(u.objs[o].mon.status) ensures OwnedAt(u, o) {
      assert OwnedAt(s, o);
    }
    forall t | 0 <= t < |u.threads| ensures SleepsWell(u, u.threads[t]) {
      assert SleepsWell(s, s.threads[t]);
    }
  }

  /** Every step of every thread keeps the monitors sound. */
  lemma MonStep(s: State, a: Action)
    requires WF(s) && Enabled(s, a) && MonInv(s)
    ensures MonInv(Step(s, a))
  {
    hide MonInv, SameObjs, RoleKept, TryStatus, GoBack, CommitOp, StartConnect, AskFar, Seek, Pull;
    match a
    case Try(t) =>
      ThreadInRange(s, t);
      TryMon(s, t);
    case Commit(t) =>
      ThreadInRange(s, t);
      CommitMon(s, t);
    case Back(t) =>
      ThreadInRange(s, t);
      GoBackMon(s, t);
    case BusyCheck(t) =>
      PlainQuiet(s, a);
      QuietMon(s, Step(s, a), t);
    case Connect(t, _, _, _, _, _) =>
      ConnectQuiet(s, a);
      QuietMon(s, Step(s, a), t);
    case Ask(t, _, _) =>
      AskQuiet(s, a);
      QuietMon(s, Step(s, a), t);
    case UndoNear(t, _) =>
      DisconnectQuiet(s, a);
      QuietMon(s, Step(s, a), t);
    case Disconnect(t, _, _) =>
      DisconnectQuiet(s, a);
      QuietMon(s, Step(s, a), t);
    case SeekMate(t) =>
      MateQuiet(s, a);
      QuietMon(s, Step(s, a), t);
    case DeleteMate(t, _) =>
      MateQuiet(s, a);
      QuietMon(s, Step(s, a), t);
    case Pass(t, _) =>
      PlainQuiet(s, a);
      QuietMon(s, Step(s, a), t);
    case HoldRead(_, _) => UserMon(s, a);
    case HoldWrite(_) => UserMon(s, a);
    case ReleaseTest(_, _) => UserMon(s, a);
    case ReleaseRead(_) => UserMon(s, a);
    case ReleaseWrite(_) => UserMon(s, a);
    case Call(t, _, _) =>
      PlainQuiet(s, a);
      QuietMon(s, Step(s, a), t);
    case Spurious(t) =>
      PlainQuiet(s, a);
      QuietMon(s, Step(s, a), t);
    case CleanEnd(t) =>
      PlainQuiet(s, a);
      QuietMon(s, Step(s, a), t);
  }

  lemma ThreadInRange(s: State, t: nat)
    requires WF(s) && t < |s.threads|
    ensures ThreadOK(s, s.threads[t])
  {
  }

  lemma QuietMon(s: State, u: State, t: nat)
    requires MonInv(s) && SameObjs(s, u) && RoleKept(s, u, t)
    ensures MonInv(u)
  {
    Unchanged(s, u, t);
  }

  // ---------------------------------------------------------------- what sound monitors mean

  /** At most one operation is on at an object; its origin is saved; nobody owns a resting object. */
  lemma MutualExclusion(s: State, t: nat, u: nat)
    requires MonInv(s) && t < |s.threads| && u < |s.threads| && s.threads[t].Busy?
    ensures s.threads[t].obj < |s.objs| && !Resting(s.objs[s.threads[t].obj].mon.status)
    ensures Resting(s.objs[s.threads[t].obj].mon.prev) && s.objs[s.threads[t].obj].mon.prev == s.threads[t].from
    ensures s.threads[u].Busy? && s.threads[u].obj == s.threads[t].obj ==> u == t
  {
    assert OwnsAt(s, t);
    assert s.threads[u].Busy? ==> OwnsAt(s, u);
  }

  /** The thread that sleeper `t` waits for. */
  function WaitsFor(s: State, t: nat): int
    requires t < |s.threads|
    requires s.threads[t].Asleep? ==> s.threads[t].obj < |s.objs|
    requires s.threads[t].Busy? && s.threads[t].act.FarAsleep? ==> s.threads[t].act.there.owner < |s.objs|
  {
    if s.threads[t].Asleep? then s.objs[s.threads[t].obj].owner
    else if s.threads[t].Busy? && s.threads[t].act.FarAsleep? then s.objs[s.threads[t].act.there.owner].owner
    else -1
  }

  predicate Sleeping(th: Thread) {
    th.Asleep? || (th.Busy? && th.act.FarAsleep?)
  }

  /** No wake-up is lost: whoever sleeps on an object, another thread's operation is on there, and its
      end will wake it. */
  lemma NoLostWakeup(s: State, t: nat)
    requires MonInv(s) && t < |s.threads| && Sleeping(s.threads[t])
    ensures SleepsWell(s, s.threads[t])
    ensures 0 <= WaitsFor(s, t) < |s.threads| && s.threads[WaitsFor(s, t)].Busy?
    ensures s.threads[WaitsFor(s, t)].obj
         == if s.threads[t].Asleep? then s.threads[t].obj else s.threads[t].act.there.owner
    ensures WaitsFor(s, t) != t
    ensures s.threads[t].Busy? ==> s.threads[WaitsFor(s, t)].op.DELETING?
  {
    assert SleepsWell(s, s.threads[t]);
    var o := if s.threads[t].Asleep? then s.threads[t].obj else s.threads[t].act.there.owner;
    if s.threads[t].Asleep? {
      RestingRows(s.objs[o].mon.status, s.threads[t].op);
    }
    assert OwnedAt(s, o);
    assert OwnsAt(s, s.objs[o].owner);
    assert s.threads[t].Busy? ==> OwnsAt(s, t);
  }

  /** A thread inside its operation that does not sleep can take a step. */
  function NextMove(s: State, t: nat): Action
    requires t < |s.threads| && s.threads[t].Busy? && ThreadOK(s, s.threads[t])
  {
    var th := s.threads[t];
    match th.act
    case Far(_, there, _) => Ask(t, true, s.objs[there.owner].mon.ruse)
    case FarAsleep(_, _) => Spurious(t)
    case Undo(near) => UndoNear(t, s.objs[near.owner].mon.ruse)
    case Mate(_) => SeekMate(t)
    case Found(_, mate) => DeleteMate(t, s.objs[mate.owner].mon.ruse)
    case Quit => Back(t)
    case Body => if th.op.DELETING? && !th.checked then BusyCheck(t) else Back(t)
  }

  /** No deadlock: whom a sleeper waits for is awake, or waits for a thread that is; and that thread is
      inside its operation and can itself take a step. */
  lemma NoDeadlock(s: State, t: nat) returns (u: nat, v: nat, a: Action)
    requires WF(s) && MonInv(s) && t < |s.threads| && Sleeping(s.threads[t])
    ensures SleepsWell(s, s.threads[t]) && u == WaitsFor(s, t) && u < |s.threads| && s.threads[u].Busy?
    ensures SleepsWell(s, s.threads[u])
    ensures if Sleeping(s.threads[u]) then v == WaitsFor(s, u) else v == u
    ensures v < |s.threads| && s.threads[v].Busy? && !Sleeping(s.threads[v])
    ensures !ByUser(a) && a.t == v && Enabled(s, a)
  {
    NoLostWakeup(s, t);
    u := WaitsFor(s, t);
    v := u;
    assert SleepsWell(s, s.threads[u]);
    if Sleeping(s.threads[u]) {
      NoLostWakeup(s, u);
      assert OwnsAt(s, u);
      v := WaitsFor(s, u);
    }
    assert OwnsAt(s, v);
    a := NextMove(s, v);
    MoveEnabled(s, v);
  }

  lemma MoveEnabled(s: State, t: nat)
    requires WF(s) && t < |s.threads| && s.threads[t].Busy? && OwnsAt(s, t)
    ensures Enabled(s, NextMove(s, t))
  {
    assert ThreadOK(s, s.threads[t]);
    assert forall o | 0 <= o < |s.objs| :: RecentOK(s.objs[o]);
  }

  /** The order of resting statuses. */
  function Age(st: Status): nat {
    if st.LOADED? then 0 else if st.NORMAL? then 1 else 2
  }

  /** An object's resting status only moves forward, a deleted object stays deleted, and an object
      comes to rest in NORMAL exactly by an addition that succeeds, from LOADED. */
  lemma LifecycleForward(s: State, a: Action, o: nat)
    requires WF(s) && Enabled(s, a) && MonInv(s) && o < |s.objs|
    ensures o < |Step(s, a).objs|
    ensures Age(Rest(s.objs[o].mon)) <= Age(Rest(Step(s, a).objs[o].mon))
    ensures Rest(s.objs[o].mon) != Rest(Step(s, a).objs[o].mon) ==> a.Commit?
    ensures Step(s, a).objs[o].adds == s.objs[o].adds
              + if Rest(s.objs[o].mon).LOADED? && Rest(Step(s, a).objs[o].mon).NORMAL? then 1 else 0
  {
    hide TryStatus, GoBack, CommitOp, StartConnect, AskFar, Seek, Pull, SameObjs, RoleKept, CanTransit, Origins, MonInv;
    match a
    case Try(t) => TryRest(s, t, o);
    case Commit(t) => CommitRest(s, t, o);
    case Back(t) => BackRest(s, t, o);
    case Connect(_, _, _, _, _, _) =>
      ConnectQuiet(s, a);
      SameRest(s, Step(s, a), o);
    case Ask(_, _, _) =>
      AskQuiet(s, a);
      SameRest(s, Step(s, a), o);
    case UndoNear(_, _) =>
      DisconnectQuiet(s, a);
      SameRest(s, Step(s, a), o);
    case Disconnect(_, _, _) =>
      DisconnectQuiet(s, a);
      SameRest(s, Step(s, a), o);
    case SeekMate(_) =>
      MateQuiet(s, a);
      SameRest(s, Step(s, a), o);
    case DeleteMate(_, _) =>
      MateQuiet(s, a);
      SameRest(s, Step(s, a), o);
    case _ =>
  }

  lemma SameRest(s: State, u: State, o: nat)
    requires SameObjs(s, u) && o < |s.objs|
    ensures o < |u.objs| && Rest(u.objs[o].mon) == Rest(s.objs[o].mon) && u.objs[o].adds == s.objs[o].adds
  {
    assert SameStanding(s.objs[o], u.objs[o]);
  }

  lemma TryRest(s: State, t: nat, o: nat)
    requires WF(s) && Enabled(s, Try(t)) && o < |s.objs|
    ensures o < |TryStatus(s, t).objs| && TryStatus(s, t).objs[o].adds == s.objs[o].adds
    ensures Rest(TryStatus(s, t).objs[o].mon) == Rest(s.objs[o].mon)
  {
    assert ThreadOK(s, s.threads[t]);
    RestingRows(s.objs[s.threads[t].obj].mon.status, s.threads[t].op);
    hide CanTransit, Row;
  }

  lemma BackRest(s: State, t: nat, o: nat)
    requires MonInv(s) && t < |s.threads| && s.threads[t].Busy? && s.threads[t].obj < |s.objs| && o < |s.objs|
    ensures o < |GoBack(s, t).objs| && GoBack(s, t).objs[o].adds == s.objs[o].adds
    ensures Rest(GoBack(s, t).objs[o].mon) == Rest(s.objs[o].mon)
  {
    assert OwnsAt(s, t);
  }

  lemma CommitRest(s: State, t: nat, o: nat)
    requires MonInv(s) && t < |s.threads| && s.threads[t].Busy? && s.threads[t].obj < |s.objs| && o < |s.objs|
    requires s.threads[t].op.ADDING? || s.threads[t].op.DELETING?
    ensures o < |CommitOp(s, t).objs|
    ensures Age(Rest(s.objs[o].mon)) <= Age(Rest(CommitOp(s, t).objs[o].mon))
    ensures CommitOp(s, t).objs[o].adds == s.objs[o].adds
              + if Rest(s.objs[o].mon).LOADED? && Rest(CommitOp(s, t).objs[o].mon).NORMAL? then 1 else 0
  {
    assert OwnsAt(s, t);
  }
}
