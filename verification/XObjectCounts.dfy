/**
  Steps keep the machine well formed, and exactly when they conserve the use counts.
 */
module XObjectCounts {
  import opened XObjectStatus
  import opened XObjectProtocol
  import opened XObjectMonitor
  import opened XObjectConnections

  // ---------------------------------------------------------------- well-formedness

  ghost predicate Grown(s: State, u: State) {
    |u.objs| == |s.objs| && s.nextCid <= u.nextCid
  }

  lemma StaysOK(s: State, u: State, th: Thread, o: nat)
    requires Grown(s, u) && ThreadOK(s, th)
    ensures ThreadOK(u, th) && ThreadOK(u, WakeThread(th, o))
  {
    match th
    case Busy(_, _, _, _, a) => ActStays(s, u, a);
    case Cleaning(_, a, _) => ActStays(s, u, a);
    case _ =>
  }

  lemma ActStays(s: State, u: State, a: Act)
    requires Grown(s, u) && ActOK(s, a)
    ensures ActOK(u, a)
  {
    match a
    case Far(n, f, _) => RecStays(s, u, n); RecStays(s, u, f);
    case FarAsleep(n, f) => RecStays(s, u, n); RecStays(s, u, f);
    case Undo(n) => RecStays(s, u, n);
    case Mate(g) => RecStays(s, u, g);
    case Found(g, m) => RecStays(s, u, g); RecStays(s, u, m);
    case Body =>
    case Quit =>
  }

  lemma RecStays(s: State, u: State, r: Rec)
    requires Grown(s, u) && RecOK(s, r)
    ensures RecOK(u, r)
  {
  }

  ghost predicate CallersOK(s: State) {
    (forall o | 0 <= o < |s.objs| :: RecentOK(s.objs[o])) && forall u | 0 <= u < |s.uses| :: UseOK(s, s.uses[u])
  }

  lemma CallersKept(s: State, u: State, o: nat)
    requires CallersOK(s) && |u.objs| == |s.objs| && u.uses == s.uses && o < |s.objs| && RecentOK(u.objs[o])
    requires forall i | 0 <= i < |s.objs| && i != o :: u.objs[i] == s.objs[i]
    ensures CallersOK(u)
  {
    forall i | 0 <= i < |u.uses| ensures UseOK(u, u.uses[i]) {
      assert UseOK(s, s.uses[i]);
    }
  }

  /** Thread `t` aside, threads are as before or woken; new records are sound. */
  lemma WFKept(s: State, u: State, t: nat, o: nat)
    requires WF(s) && Grown(s, u) && |u.threads| == |s.threads| && CallersOK(u)
    requires forall i | 0 <= i < |s.threads| && i != t ::
               u.threads[i] == s.threads[i] || u.threads[i] == WakeThread(s.threads[i], o)
    requires t < |s.threads| ==> ThreadOK(u, u.threads[t])
    requires forall r | r in u.recs :: r in s.recs || RecOK(u, r)
    ensures WF(u)
  {
    forall i | 0 <= i < |u.threads| ensures ThreadOK(u, u.threads[i]) {
      StaysOK(s, u, s.threads[i], o);
    }
    forall r | r in u.recs ensures RecOK(u, r) {
      assert r in s.recs ==> RecOK(s, r);
    }
  }

  lemma StatusWF(s: State, a: Action)
    requires WF(s) && Enabled(s, a) && (a.Try? || a.Commit? || a.Back? || a.BusyCheck?)
    ensures WF(Step(s, a))
  {
    assert ThreadOK(s, s.threads[a.t]) && RecentOK(s.objs[s.threads[a.t].obj]);
    StatusCallers(s, a);
    hide CanTransit, RecentOK, UseOK, CallersOK;
    WFKept(s, Step(s, a), a.t, s.threads[a.t].obj);
  }

  lemma StatusCallers(s: State, a: Action)
    requires WF(s) && Enabled(s, a) && (a.Try? || a.Commit? || a.Back? || a.BusyCheck?)
    requires ThreadOK(s, s.threads[a.t]) && RecentOK(s.objs[s.threads[a.t].obj])
    ensures CallersOK(Step(s, a))
  {
    hide CanTransit;
    CallersKept(s, Step(s, a), s.threads[a.t].obj);
  }

  lemma ConnectWF(s: State, a: Action)
    requires WF(s) && Enabled(s, a) && a.Connect?
    ensures WF(Step(s, a))
  {
    assert ThreadOK(s, s.threads[a.t]);
    CallersKept(s, Step(s, a), s.threads[a.t].obj);
    hide RecentOK, UseOK, CallersOK;
    WFKept(s, Step(s, a), a.t, 0);
  }

  lemma AskWF(s: State, a: Action)
    requires WF(s) && Enabled(s, a) && a.Ask?
    ensures WF(Step(s, a))
  {
    hide CallersOK;
    assert ThreadOK(s, s.threads[a.t]);
    AskCallers(s, a);
    AskThreads(s, a);
    WFKept(s, Step(s, a), a.t, 0);
  }

  lemma AskCallers(s: State, a: Action)
    requires WF(s) && Enabled(s, a) && a.Ask? && ThreadOK(s, s.threads[a.t])
    ensures CallersOK(Step(s, a))
  {
    CallersKept(s, Step(s, a), s.threads[a.t].act.there.owner);
  }

  lemma AskThreads(s: State, a: Action)
    requires WF(s) && Enabled(s, a) && a.Ask? && ThreadOK(s, s.threads[a.t])
    ensures var u := Step(s, a);
            && Grown(s, u) && |u.threads| == |s.threads| && ThreadOK(u, u.threads[a.t])
            && (forall i | 0 <= i < |s.threads| && i != a.t :: u.threads[i] == s.threads[i])
            && forall r | r in u.recs :: r in s.recs || RecOK(u, r)
  {
    hide WF;
  }

  lemma DisconnectWF(s: State, a: Action)
    requires WF(s) && Enabled(s, a) && (a.UndoNear? || a.Disconnect?)
    ensures WF(Step(s, a))
  {
    assert ThreadOK(s, s.threads[a.t]);
    assert a.Disconnect? ==> RecOK(s, a.r);
    WFKept(s, Step(s, a), a.t, 0);
  }

  lemma SeekWF(s: State, a: Action)
    requires WF(s) && Enabled(s, a) && a.SeekMate?
    ensures WF(Step(s, a))
  {
    assert ThreadOK(s, s.threads[a.t]);
    WFKept(s, Step(s, a), a.t, 0);
  }

  lemma MateWF(s: State, a: Action)
    requires WF(s) && Enabled(s, a) && a.DeleteMate?
    ensures WF(Step(s, a))
  {
    assert ThreadOK(s, s.threads[a.t]);
    WFKept(s, Step(s, a), a.t, 0);
  }

  lemma PlainWF(s: State, a: Action)
    requires WF(s) && Enabled(s, a) && (a.Call? || a.Spurious? || a.Pass? || a.CleanEnd?)
    ensures WF(Step(s, a))
  {
    assert ThreadOK(s, s.threads[a.t]);
    WFKept(s, Step(s, a), a.t, 0);
  }

  lemma UserWF(s: State, a: Action)
    requires WF(s) && Enabled(s, a) && ByUser(a)
    ensures WF(Step(s, a))
  {
    WFKept(s, Step(s, a), |s.threads|, 0);
  }

  lemma StepWF(s: State, a: Action)
    requires WF(s) && Enabled(s, a)
    ensures WF(Step(s, a))
  {
    hide WF, Enabled, Step;
    if a.Try? || a.Commit? || a.Back? || a.BusyCheck? {
      StatusWF(s, a);
    } else if a.Connect? {
      ConnectWF(s, a);
    } else if a.Ask? {
      AskWF(s, a);
    } else if a.UndoNear? || a.Disconnect? {
      DisconnectWF(s, a);
    } else if a.SeekMate? {
      SeekWF(s, a);
    } else if a.DeleteMate? {
      MateWF(s, a);
    } else if ByUser(a) {
      UserWF(s, a);
    } else {
      PlainWF(s, a);
    }
  }

  // ---------------------------------------------------------------- use counts

  ghost function StrongOf(recs: set<Rec>, o: nat): set<Rec> {
    set r | r in recs && r.owner == o && r.strong
  }

  /** One hold that a caller has begun to undo. */
  function Undoing(w: Use, o: nat): nat {
    if (w.Tested? || w.Lowering?) && w.obj == o then 1 else 0
  }

  function Releasing(uses: seq<Use>, o: nat): nat {
    if uses == [] then 0 else Releasing(uses[..|uses| - 1], o) + Undoing(uses[|uses| - 1], o)
  }

  /** The use count is the number of strong connections and of holds that are not undone. */
  ghost predicate CountOK(s: State, o: nat) {
    o < |s.objs| && s.objs[o].mon.ruse == |StrongOf(s.recs, o)| + s.objs[o].holds + Releasing(s.uses, o)
  }

  /** An update of a use count: of which object, and what was read before it. */
  datatype Update = NoUpdate | Update(obj: nat, seen: int)

  ghost function UpdateOf(s: State, a: Action): Update
    requires WF(s) && Enabled(s, a)
  {
    match a
    case HoldWrite(u) => Update(s.uses[u].obj, s.uses[u].seen)
    case ReleaseWrite(u) => Update(s.uses[u].obj, s.uses[u].seen)
    case Connect(t, _, strong, _, may, seen) =>
      if strong && may && Reception(s.objs[s.threads[t].obj].mon).Accepted? then Update(s.threads[t].obj, seen) else NoUpdate
    case Ask(t, _, seen) =>
      if Accepts(s, a) && s.threads[t].act.there.strong then Update(s.threads[t].act.there.owner, seen) else NoUpdate
    case UndoNear(t, seen) => Removal(s, s.threads[t].act.near, seen)
    case Disconnect(_, r, seen) => Removal(s, r, seen)
    case DeleteMate(t, seen) => Removal(s, s.threads[t].act.mate, seen)
    case _ => NoUpdate
  }

  function Removal(s: State, r: Rec, seen: int): Update {
    if r in s.recs && r.strong then Update(r.owner, seen) else NoUpdate
  }

  /** If the step updates the object's use count, the count is still what was read. */
  ghost predicate Fresh(s: State, a: Action, o: nat)
    requires WF(s) && Enabled(s, a)
  {
    UpdateOf(s, a).Update? && UpdateOf(s, a).obj == o ==> o < |s.objs| && s.objs[o].mon.ruse == UpdateOf(s, a).seen
  }

  // ---------------------------------------------------------------- counting

  lemma StrongAdd(recs: set<Rec>, r: Rec, o: nat)
    requires r !in recs
    ensures |StrongOf(recs + {r}, o)| == |StrongOf(recs, o)| + if r.owner == o && r.strong then 1 else 0
  {
    if r.owner == o && r.strong {
      assert StrongOf(recs + {r}, o) == StrongOf(recs, o) + {r};
    } else {
      assert StrongOf(recs + {r}, o) == StrongOf(recs, o);
    }
  }

  lemma StrongRemove(recs: set<Rec>, r: Rec, o: nat)
    requires r in recs
    ensures |StrongOf(recs, o)| == |StrongOf(recs - {r}, o)| + if r.owner == o && r.strong then 1 else 0
  {
    StrongAdd(recs - {r}, r, o);
    assert recs - {r} + {r} == recs;
  }

  lemma {:induction false} ReleasingUpdate(uses: seq<Use>, u: nat, w: Use, o: nat)
    requires u < |uses|
    ensures Releasing(uses[u := w], o) == Releasing(uses, o) - Undoing(uses[u], o) + Undoing(w, o)
  {
    var last := |uses| - 1;
    if u == last {
      assert uses[u := w][..last] == uses[..last];
    } else {
      ReleasingUpdate(uses[..last], u, w, o);
      assert uses[u := w][..last] == uses[..last][u := w];
    }
  }

  predicate SameUse(a: Obj, b: Obj) {
    a.mon.ruse == b.mon.ruse && a.holds == b.holds
  }

  lemma CountSame(s: State, u: State, o: nat)
    requires CountOK(s, o) && |u.objs| == |s.objs| && u.recs == s.recs && u.uses == s.uses && SameUse(s.objs[o], u.objs[o])
    ensures CountOK(u, o)
  {
  }

  lemma PushCount(s: State, r: Rec, seen: int, o: nat)
    requires CountOK(s, o) && r.owner < |s.objs| && r !in s.recs
    ensures CountOK(Push(s, r, seen), o) <==> (r.strong && r.owner == o ==> s.objs[o].mon.ruse == seen)
  {
    StrongAdd(s.recs, r, o);
  }

  lemma PullCount(s: State, r: Rec, seen: int, o: nat)
    requires CountOK(s, o) && r.owner < |s.objs|
    ensures CountOK(Pull(s, r, seen), o) <==> (r in s.recs && r.strong && r.owner == o ==> s.objs[o].mon.ruse == seen)
  {
    if r in s.recs {
      StrongRemove(s.recs, r, o);
    }
  }

  /** A thread's own change does not matter to the counts. */
  lemma CountApart(s: State, u: State, o: nat)
    requires |u.objs| == |s.objs| && u.recs == s.recs && u.uses == s.uses
    requires o < |s.objs| ==> SameUse(s.objs[o], u.objs[o])
    ensures CountOK(s, o) <==> CountOK(u, o)
  {
  }

  // ---------------------------------------------------------------- exactly when a step conserves the count

  /** The steps that leave use counts alone. */
  predicate CountNeutral(a: Action) {
    || a.Call? || a.Try? || a.Spurious? || a.BusyCheck? || a.Commit? || a.Back? || a.SeekMate? || a.Pass? || a.CleanEnd?
  }

  lemma CountNeutralEffect(s: State, a: Action)
    requires WF(s) && Enabled(s, a) && CountNeutral(a)
    ensures Step(s, a).recs == s.recs && |Step(s, a).objs| == |s.objs| && Step(s, a).uses == s.uses
    ensures forall o | 0 <= o < |s.objs| :: SameUse(s.objs[o], Step(s, a).objs[o])
  {
    hide CanTransit;
  }

  lemma UserCount(s: State, a: Action, o: nat)
    requires WF(s) && Enabled(s, a) && CountOK(s, o) && ByUser(a)
    ensures CountOK(Step(s, a), o) <==> Fresh(s, a, o)
  {
    assert UseOK(s, s.uses[a.u]);
    var u := Step(s, a);
    ReleasingUpdate(s.uses, a.u, u.uses[a.u], o);
    assert u.uses == s.uses[a.u := u.uses[a.u]];
  }

  lemma ConnectCount(s: State, a: Action, o: nat)
    requires WF(s) && Enabled(s, a) && CountOK(s, o) && a.Connect?
    ensures CountOK(Step(s, a), o) <==> Fresh(s, a, o)
  {
    assert ThreadOK(s, s.threads[a.t]);
    var near := NearEnd(s, a.t, a.target, a.nearStrong);
    assert near in s.recs ==> RecOK(s, near);
    var s1 := s.(nextCid := s.nextCid + 1);
    CountApart(s, s1, o);
    PushCount(s1, near, a.seen, o);
    if a.may && Reception(s.objs[near.owner].mon).Accepted? {
      CountApart(Push(s1, near, a.seen), Step(s, a), o);
    } else {
      CountApart(s1, Step(s, a), o);
    }
  }

  lemma AskCount(s: State, a: Action, o: nat)
    requires WF(s) && Enabled(s, a) && IdsOK(s) && CountOK(s, o) && a.Ask?
    requires ThreadOK(s, s.threads[a.t]) && FlightOf(s.threads[a.t]).Opening?
    ensures CountOK(Step(s, a), o) <==> Fresh(s, a, o)
  {
    var there := s.threads[a.t].act.there;
    assert FlightOK(s.recs, s.nextCid, FlightOf(s.threads[a.t]));
    if Accepts(s, a) {
      PushCount(s, there, a.seen, o);
      CountApart(Push(s, there, a.seen), Step(s, a), o);
    } else {
      CountApart(s, Step(s, a), o);
    }
  }

  lemma UndoCount(s: State, a: Action, o: nat)
    requires WF(s) && Enabled(s, a) && CountOK(s, o) && (a.UndoNear? || a.Disconnect? || a.DeleteMate?)
    ensures CountOK(Step(s, a), o) <==> Fresh(s, a, o)
  {
    assert ThreadOK(s, s.threads[a.t]);
    var r := if a.UndoNear? then s.threads[a.t].act.near else if a.Disconnect? then a.r else s.threads[a.t].act.mate;
    PullCount(s, r, a.seen, o);
    CountApart(Pull(s, r, a.seen), Step(s, a), o);
  }

  /** A step conserves an object's use count exactly if, where it updates it, the count is what was read. */
  lemma CountStep(s: State, a: Action, o: nat)
    requires WF(s) && Enabled(s, a) && MonInv(s) && IdsOK(s) && CountOK(s, o)
    ensures CountOK(Step(s, a), o) <==> Fresh(s, a, o)
  {
    hide Step, CountOK, IdsOK, Fresh;
    if CountNeutral(a) {
      CountNeutralEffect(s, a);
      NeutralCount(s, a, o);
    } else if ByUser(a) {
      UserCount(s, a, o);
    } else {
      match a
      case Connect(_, _, _, _, _, _) => ConnectCount(s, a, o);
      case Ask(t, _, _) =>
        ActorOK(s, a);
        assert OwnsAt(s, t);
        AskCount(s, a, o);
      case UndoNear(_, _) => UndoCount(s, a, o);
      case Disconnect(_, _, _) => UndoCount(s, a, o);
      case DeleteMate(_, _) => UndoCount(s, a, o);
    }
  }

  lemma NeutralCount(s: State, a: Action, o: nat)
    requires WF(s) && Enabled(s, a) && CountNeutral(a) && CountOK(s, o)
    requires Step(s, a).recs == s.recs && |Step(s, a).objs| == |s.objs| && Step(s, a).uses == s.uses
    requires forall i | 0 <= i < |s.objs| :: SameUse(s.objs[i], Step(s, a).objs[i])
    ensures CountOK(Step(s, a), o) && Fresh(s, a, o)
  {
    hide Step;
    CountSame(s, Step(s, a), o);
  }
}
