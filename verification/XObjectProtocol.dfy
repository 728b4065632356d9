/**
  Objects, their connections and the threads that operate on them, as a step machine.

  An object is a monitor: its lock protects its status, its use count and its list of
  connections.  A step is one section of code that runs under one object's lock, or a
  thread's start of such a section.
 */
module XObjectProtocol {
  import opened XObjectStatus

  /** The fields of an object that its lock protects. */
  datatype Monitor = Monitor(status: Status, prev: Status, ruse: int)

  /** `holds` counts `inc_ruse` calls that nobody has begun to undo, `adds` the additions that succeeded,
      `owner` is the thread whose operation is on; all three are history.  `recent` holds the values that
      the use count has had since the last section of code under the object's lock. */
  datatype Obj = Obj(mon: Monitor, holds: nat, adds: nat, owner: int, recent: set<int>)

  /** A caller of `inc_ruse` or `dec_ruse`, which read and write the use count without the lock. */
  datatype Use =
    | NoUse
    | Raising(obj: nat, seen: int)   // inc_ruse has read
    | Tested(obj: nat)               // dec_ruse has found a count that is not zero
    | Lowering(obj: nat, seen: int)  // and has read it again

  /** One side's record of a connection, kept by `owner`; the other side keeps the other end. */
  datatype Rec = Rec(cid: nat, far: bool, owner: nat, oside: nat, strong: bool)

  /** What a thread does inside its operation. */
  datatype Act =
    | Body
    | Quit                                     // found busy: the delete is given up
    | Far(near: Rec, there: Rec, asked: bool)  // connect: the other side's addConnection is next
    | FarAsleep(near: Rec, there: Rec)         // it waits for a delete to be decided
    | Undo(near: Rec)                          // the other side refused
    | Mate(gone: Rec)                          // disconnect: the other side's delConnection walks its list
    | Found(gone: Rec, mate: Rec)              // and has met the connection

  datatype Thread =
    | Idle
    | Want(obj: nat, op: Status)
    | Asleep(obj: nat, op: Status)
    | Busy(obj: nat, op: Status, from: Status, checked: bool, act: Act)
    | Cleaning(obj: nat, act: Act, todo: set<Rec>)  // deleted: disconnectAll, with what it has yet to meet

  /** `late` holds the ends of connections that an object accepted when its deletion was complete,
      `half` the ends accepted by one side when the other had refused its own. */
  datatype State = State(objs: seq<Obj>, threads: seq<Thread>, uses: seq<Use>, recs: set<Rec>, nextCid: nat,
                         late: set<Rec>, half: set<Rec>)

  datatype Action =
    | Call(t: nat, o: nat, op: Status)
    | Try(t: nat)
    | Spurious(t: nat)
    | BusyCheck(t: nat)
    | Commit(t: nat)
    | Back(t: nat)
    | Connect(t: nat, target: nat, nearStrong: bool, farStrong: bool, may: bool, seen: int)
    | Ask(t: nat, may: bool, seen: int)
    | UndoNear(t: nat, seen: int)
    | Disconnect(t: nat, r: Rec, seen: int)
    | SeekMate(t: nat)
    | DeleteMate(t: nat, seen: int)
    | Pass(t: nat, r: Rec)
    | CleanEnd(t: nat)
    | HoldRead(u: nat, o: nat)
    | HoldWrite(u: nat)
    | ReleaseTest(u: nat, o: nat)
    | ReleaseRead(u: nat)
    | ReleaseWrite(u: nat)

  /** A step of inc_ruse or dec_ruse. */
  predicate ByUser(a: Action) {
    a.HoldRead? || a.HoldWrite? || a.ReleaseTest? || a.ReleaseRead? || a.ReleaseWrite?
  }

  // ---------------------------------------------------------------- the monitor

  /** setStatus */
  function SetStatus(m: Monitor, st: Status): Monitor {
    m.(prev := m.status, status := st)
  }

  /** bkStatus */
  function BackStatus(m: Monitor): Monitor {
    SetStatus(m, m.prev)
  }

  /** What addConnection does once mayConnect has agreed. */
  datatype Reply = Accepted | Refused | MustWait

  function Reception(m: Monitor): Reply {
    if m.status.DELETING? then MustWait else if m.status.DELETED? then Refused else Accepted
  }

  /** `++ruse` under the lock, where the count was read as `seen`. */
  function Count(m: Monitor, strong: bool, seen: int): Monitor {
    if strong then m.(ruse := seen + 1) else m
  }

  function Uncount(m: Monitor, strong: bool, seen: int): Monitor {
    if strong then m.(ruse := seen - 1) else m
  }

  /** The status between operations: while one is on, the saved one. */
  function Rest(m: Monitor): Status {
    if Resting(m.status) then m.status else m.prev
  }

  // ---------------------------------------------------------------- effects

  function SetAct(th: Thread, a: Act): Thread {
    match th
    case Busy(o, op, from, checked, _) => Busy(o, op, from, checked, a)
    case Cleaning(o, _, todo) => Cleaning(o, a, todo)
    case _ => th
  }

  /** pthread_cond_broadcast on the object's condition. */
  function WakeThread(th: Thread, o: nat): Thread {
    if th.Asleep? && th.obj == o then Want(th.obj, th.op)
    else if th.Busy? && th.act.FarAsleep? && th.act.there.owner == o then
      SetAct(th, Far(th.act.near, th.act.there, true))
    else th
  }

  function WakeAll(threads: seq<Thread>, o: nat): seq<Thread> {
    seq(|threads|, i requires 0 <= i < |threads| => WakeThread(threads[i], o))
  }

  /** A section of code under the object's lock. */
  function SetMon(s: State, o: nat, m: Monitor): State
    requires o < |s.objs|
  {
    s.(objs := s.objs[o := s.objs[o].(mon := m, recent := {m.ruse})])
  }

  /** One that changes nothing. */
  function Section(s: State, o: nat): State
    requires o < |s.objs|
  {
    SetMon(s, o, s.objs[o].mon)
  }

  /** An update of the use count without the lock. */
  function SetRuse(x: Obj, v: int): Obj {
    x.(mon := x.mon.(ruse := v), recent := x.recent + {v})
  }

  /** A status change under the lock: everyone waiting on the object is woken. */
  function Change(s: State, o: nat, m: Monitor): State
    requires o < |s.objs|
  {
    SetMon(s, o, m).(threads := WakeAll(s.threads, o))
  }

  function Become(s: State, t: nat, th: Thread): State
    requires t < |s.threads|
  {
    s.(threads := s.threads[t := th])
  }

  /** A record enters its owner's list. */
  function Push(s: State, r: Rec, seen: int): State
    requires r.owner < |s.objs|
  {
    SetMon(s, r.owner, Count(s.objs[r.owner].mon, r.strong, seen)).(recs := s.recs + {r})
  }

  /** xdelConnection_prepare: a record that is in its owner's list leaves it. */
  function Pull(s: State, r: Rec, seen: int): State
    requires r.owner < |s.objs|
  {
    if r in s.recs then SetMon(s, r.owner, Uncount(s.objs[r.owner].mon, r.strong, seen)).(recs := s.recs - {r})
    else Section(s, r.owner)
  }

  /** The record of `gone`'s connection that delConnection finds on the other side. */
  predicate IsMate(m: Rec, gone: Rec) {
    m.cid == gone.cid && m.far != gone.far
  }

  predicate MateOf(m: Rec, gone: Rec) {
    IsMate(m, gone) && m.owner == gone.oside
  }

  // ---------------------------------------------------------------- well-formedness

  predicate RecOK(s: State, r: Rec) {
    r.owner < |s.objs| && r.oside < |s.objs| && r.cid < s.nextCid
  }

  predicate ActOK(s: State, a: Act) {
    match a
    case Body => true
    case Quit => true
    case Far(n, f, _) => RecOK(s, n) && RecOK(s, f) && Ends(n, f)
    case FarAsleep(n, f) => RecOK(s, n) && RecOK(s, f) && Ends(n, f)
    case Undo(n) => RecOK(s, n) && !n.far
    case Mate(g) => RecOK(s, g)
    case Found(g, m) => RecOK(s, g) && RecOK(s, m) && MateOf(m, g)
  }

  /** The two ends of one connection, the initiator's first. */
  predicate Ends(n: Rec, f: Rec) {
    n.cid == f.cid && !n.far && f.far && n.owner == f.oside && n.oside == f.owner
  }

  predicate ThreadOK(s: State, th: Thread) {
    match th
    case Idle => true
    case Want(o, op) => o < |s.objs| && !Resting(op)
    case Asleep(o, op) => o < |s.objs| && !Resting(op)
    case Busy(o, op, _, _, a) => o < |s.objs| && !Resting(op) && ActOK(s, a)
    case Cleaning(o, a, todo) => o < |s.objs| && ActOK(s, a) && forall r | r in todo :: r.owner == o
  }

  predicate UseOK(s: State, w: Use) {
    w.NoUse? || w.obj < |s.objs|
  }

  predicate RecentOK(x: Obj) {
    x.mon.ruse in x.recent
  }

  ghost predicate WF(s: State) {
    && (forall o | 0 <= o < |s.objs| :: RecentOK(s.objs[o]))
    && (forall u | 0 <= u < |s.uses| :: UseOK(s, s.uses[u]))
    && (forall t | 0 <= t < |s.threads| :: ThreadOK(s, s.threads[t]))
    && (forall r | r in s.recs :: RecOK(s, r))
  }

  // ---------------------------------------------------------------- steps

  predicate CanConnect(th: Thread) {
    th.Busy? && (th.op.ADDING? || th.op.MODIFYING?) && th.act.Body?
  }

  predicate CanDisconnect(th: Thread) {
    (th.Busy? && (th.op.ADDING? || th.op.MODIFYING? || (th.op.DELETING? && th.checked)) && th.act.Body?)
    || (th.Cleaning? && th.act.Body?)
  }

  ghost predicate Enabled(s: State, a: Action)
    requires WF(s)
  {
    match a
    case Call(t, o, op) => t < |s.threads| && s.threads[t].Idle? && o < |s.objs| && !Resting(op)
    case Try(t) => t < |s.threads| && s.threads[t].Want?
    case Spurious(t) => t < |s.threads| && (s.threads[t].Asleep? || (s.threads[t].Busy? && s.threads[t].act.FarAsleep?))
    case BusyCheck(t) =>
      t < |s.threads| && s.threads[t].Busy? && s.threads[t].op.DELETING? && !s.threads[t].checked && s.threads[t].act.Body?
    case Commit(t) =>
      t < |s.threads| && s.threads[t].Busy? && s.threads[t].act.Body?
      && (s.threads[t].op.ADDING? || (s.threads[t].op.DELETING? && s.threads[t].checked))
    case Back(t) =>
      t < |s.threads| && s.threads[t].Busy?
      && (s.threads[t].act.Quit? || (s.threads[t].act.Body? && (s.threads[t].op.DELETING? ==> s.threads[t].checked)))
    case Connect(t, target, _, _, _, seen) =>
      t < |s.threads| && CanConnect(s.threads[t]) && target < |s.objs| && CanHaveSeen(s, s.threads[t].obj, seen)
    case Ask(t, _, seen) =>
      t < |s.threads| && s.threads[t].Busy? && s.threads[t].act.Far? && CanHaveSeen(s, s.threads[t].act.there.owner, seen)
    case UndoNear(t, seen) =>
      t < |s.threads| && s.threads[t].Busy? && s.threads[t].act.Undo? && CanHaveSeen(s, s.threads[t].act.near.owner, seen)
    case Disconnect(t, r, seen) =>
      t < |s.threads| && CanDisconnect(s.threads[t]) && r in s.recs && r.owner == s.threads[t].obj
      && CanHaveSeen(s, r.owner, seen)
    case SeekMate(t) =>
      t < |s.threads| && (s.threads[t].Busy? || s.threads[t].Cleaning?) && s.threads[t].act.Mate?
    case DeleteMate(t, seen) =>
      t < |s.threads| && (s.threads[t].Busy? || s.threads[t].Cleaning?) && s.threads[t].act.Found?
      && CanHaveSeen(s, s.threads[t].act.mate.owner, seen)
    case Pass(t, r) =>
      t < |s.threads| && s.threads[t].Cleaning? && s.threads[t].act.Body? && r in s.threads[t].todo && r !in s.recs
    case CleanEnd(t) =>
      t < |s.threads| && s.threads[t].Cleaning? && s.threads[t].act.Body? && s.threads[t].todo == {}
    case HoldRead(u, o) => u < |s.uses| && s.uses[u].NoUse? && o < |s.objs|
    case HoldWrite(u) => u < |s.uses| && s.uses[u].Raising?
    case ReleaseTest(u, o) => u < |s.uses| && s.uses[u].NoUse? && o < |s.objs| && s.objs[o].holds > 0
    case ReleaseRead(u) => u < |s.uses| && s.uses[u].Tested?
    case ReleaseWrite(u) => u < |s.uses| && s.uses[u].Lowering?
  }

  /** What a section under the object's lock can have read the use count as: only callers without the lock
      can have changed it since the section before. */
  predicate CanHaveSeen(s: State, o: nat, seen: int) {
    o < |s.objs| && seen in s.objs[o].recent
  }

  /** One pass of the loop in chStatus. */
  function TryStatus(s: State, t: nat): State
    requires t < |s.threads| && s.threads[t].Want? && s.threads[t].obj < |s.objs|
  {
    var o, op := s.threads[t].obj, s.threads[t].op;
    var m := s.objs[o].mon;
    match CanTransit(m.status, op)
    case D =>
      var s1 := Change(s, o, SetStatus(m, op));
      Become(s1.(objs := s1.objs[o := s1.objs[o].(owner := t)]), t, Busy(o, op, m.status, false, Body))
    case W => Become(Section(s, o), t, Asleep(o, op))
    case N => Become(Section(s, o), t, Idle)
  }

  /** bkStatus by the thread whose operation is on. */
  function GoBack(s: State, t: nat): State
    requires t < |s.threads| && s.threads[t].Busy? && s.threads[t].obj < |s.objs|
  {
    var o := s.threads[t].obj;
    Become(Change(s, o, BackStatus(s.objs[o].mon)), t, Idle)
  }

  /** chStatus(NORMAL) at the end of an add, chStatus(DELETED) at the end of a delete. */
  function CommitOp(s: State, t: nat): State
    requires t < |s.threads| && s.threads[t].Busy? && s.threads[t].obj < |s.objs|
  {
    var o := s.threads[t].obj;
    var m := s.objs[o].mon;
    if s.threads[t].op.ADDING? then
      var s1 := Change(s, o, SetStatus(m, NORMAL));
      Become(s1.(objs := s1.objs[o := s1.objs[o].(adds := s1.objs[o].adds + 1)]), t, Idle)
    else
      Become(Change(s, o, SetStatus(m, DELETED)), t, Cleaning(o, Body, OwnedBy(s.recs, o)))
  }

  /** The list of an object. */
  function OwnedBy(recs: set<Rec>, o: nat): set<Rec> {
    set r | r in recs && r.owner == o
  }

  /** The walk of disconnectAll has met the record. */
  function Visited(th: Thread, r: Rec): Thread {
    if th.Cleaning? then Cleaning(th.obj, th.act, th.todo - {r}) else th
  }

  /** The two records of a new connection from the thread's object to `target`. */
  function NearEnd(s: State, t: nat, target: nat, strong: bool): Rec
    requires t < |s.threads| && s.threads[t].Busy?
  {
    Rec(s.nextCid, false, s.threads[t].obj, target, strong)
  }

  function FarEnd(s: State, t: nat, target: nat, strong: bool): Rec
    requires t < |s.threads| && s.threads[t].Busy?
  {
    Rec(s.nextCid, true, target, s.threads[t].obj, strong)
  }

  /** connect: this side's addConnection, whose answer is not looked at. */
  function StartConnect(s: State, t: nat, near: Rec, there: Rec, may: bool, seen: int): State
    requires t < |s.threads| && s.threads[t].Busy? && near.owner < |s.objs|
  {
    var s1 := s.(nextCid := s.nextCid + 1);
    var s2 := if may && Reception(s.objs[near.owner].mon).Accepted? then Push(s1, near, seen) else Section(s1, near.owner);
    Become(s2, t, SetAct(s.threads[t], Far(near, there, false)))
  }

  /** The other side takes the connection. */
  function Accept(s: State, t: nat, seen: int): State
    requires t < |s.threads| && s.threads[t].Busy? && s.threads[t].act.Far? && s.threads[t].act.there.owner < |s.objs|
  {
    var near, there := s.threads[t].act.near, s.threads[t].act.there;
    var s1 := Push(s, there, seen);
    var s2 := if Rest(s.objs[there.owner].mon).DELETED? then s1.(late := s1.late + {near, there}) else s1;
    var s3 := if near in s.recs then s2 else s2.(half := s2.half + {there});
    Become(s3, t, SetAct(s.threads[t], Body))
  }

  /** One pass of the other side's addConnection. */
  function AskFar(s: State, t: nat, may: bool, seen: int): State
    requires t < |s.threads| && s.threads[t].Busy? && s.threads[t].act.Far? && s.threads[t].act.there.owner < |s.objs|
  {
    var a := s.threads[t].act;
    var s1 := Section(s, a.there.owner);
    if !a.asked && !may then Become(s1, t, SetAct(s.threads[t], Undo(a.near)))
    else
      match Reception(s.objs[a.there.owner].mon)
      case MustWait => Become(s1, t, SetAct(s.threads[t], FarAsleep(a.near, a.there)))
      case Refused => Become(s1, t, SetAct(s.threads[t], Undo(a.near)))
      case Accepted => Accept(s, t, seen)
  }

  /** The walk of delConnection: it meets the record with the same id, or gets to the end. */
  ghost function Seek(s: State, t: nat): State
    requires t < |s.threads| && (s.threads[t].Busy? || s.threads[t].Cleaning?) && s.threads[t].act.Mate?
  {
    var gone := s.threads[t].act.gone;
    if exists m :: m in s.recs && MateOf(m, gone) then
      var m :| m in s.recs && MateOf(m, gone);
      Become(s, t, SetAct(s.threads[t], Found(gone, m)))
    else Become(s, t, SetAct(s.threads[t], Body))
  }

  /** inc_ruse: a read, and a write of one more; dec_ruse: a test, a read, and a write of one less. */
  ghost function UserStep(s: State, a: Action): State
    requires WF(s) && Enabled(s, a) && ByUser(a)
  {
    match a
    case HoldRead(u, o) => SetUse(s, u, Raising(o, s.objs[o].mon.ruse))
    case HoldWrite(u) =>
      var o := s.uses[u].obj;
      SetUse(s.(objs := s.objs[o := SetRuse(s.objs[o], s.uses[u].seen + 1).(holds := s.objs[o].holds + 1)]), u, NoUse)
    case ReleaseTest(u, o) =>
      SetUse(s.(objs := s.objs[o := s.objs[o].(holds := s.objs[o].holds - 1)]), u,
             if s.objs[o].mon.ruse != 0 then Tested(o) else NoUse)
    case ReleaseRead(u) => SetUse(s, u, Lowering(s.uses[u].obj, s.objs[s.uses[u].obj].mon.ruse))
    case ReleaseWrite(u) =>
      var o := s.uses[u].obj;
      SetUse(s.(objs := s.objs[o := SetRuse(s.objs[o], s.uses[u].seen - 1)]), u, NoUse)
  }

  ghost function Step(s: State, a: Action): State
    requires WF(s) && Enabled(s, a)
  {
    match a
    case Call(t, o, op) => Become(s, t, Want(o, op))
    case Try(t) => TryStatus(s, t)
    case Spurious(t) =>
      if s.threads[t].Asleep? then Become(s, t, Want(s.threads[t].obj, s.threads[t].op))
      else Become(s, t, SetAct(s.threads[t], Far(s.threads[t].act.near, s.threads[t].act.there, true)))
    case BusyCheck(t) =>
      if s.objs[s.threads[t].obj].mon.ruse != 0 then Become(s, t, SetAct(s.threads[t], Quit))
      else Become(s, t, s.threads[t].(checked := true))
    case Commit(t) => CommitOp(s, t)
    case Back(t) => GoBack(s, t)
    case Connect(t, target, ns, fs, may, seen) =>
      StartConnect(s, t, NearEnd(s, t, target, ns), FarEnd(s, t, target, fs), may, seen)
    case Ask(t, may, seen) => AskFar(s, t, may, seen)
    case UndoNear(t, seen) => Become(Pull(s, s.threads[t].act.near, seen), t, SetAct(s.threads[t], Body))
    case Disconnect(t, r, seen) => Become(Pull(s, r, seen), t, SetAct(Visited(s.threads[t], r), Mate(r)))
    case SeekMate(t) => Seek(s, t)
    case DeleteMate(t, seen) => Become(Pull(s, s.threads[t].act.mate, seen), t, SetAct(s.threads[t], Body))
    case Pass(t, r) => Become(s, t, Visited(s.threads[t], r))
    case CleanEnd(t) => Become(s, t, Idle)
    case _ => UserStep(s, a)
  }

  function SetUse(s: State, u: nat, w: Use): State
    requires u < |s.uses|
  {
    s.(uses := s.uses[u := w])
  }

  /** Freshly loaded objects, idle threads, and callers. */
  function Start(objects: nat, threads: nat, callers: nat): State {
    State(seq(objects, _ => Obj(Monitor(LOADED, LOADED, 0), 0, 0, -1, {0})), seq(threads, _ => Idle),
          seq(callers, _ => NoUse), {}, 0, {}, {})
  }
}
