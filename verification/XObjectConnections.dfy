/**
  Connections have two ends, and the ends agree: what every step keeps about the records that
  objects hold of each other.
 */
module XObjectConnections {
  import opened XObjectStatus
  import opened XObjectProtocol
  import opened XObjectMonitor

  // ---------------------------------------------------------------- operations in flight

  /** A connection that a thread is opening or closing. */
  datatype Flight =
    | NoFlight
    | Opening(obj: nat, near: Rec)
    | Closing(obj: nat, gone: Rec, met: set<Rec>)  // met is the other end once the walk has met it

  function FlightOf(th: Thread): Flight {
    if th.Busy? && Connecting(th.act) then Opening(th.obj, th.act.near)
    else if (th.Busy? || th.Cleaning?) && Disconnecting(th.act) then Closing(th.obj, th.act.gone, if th.act.Found? then {th.act.mate} else {})
    else NoFlight
  }

  ghost predicate SameFlights(s: State, u: State) {
    |s.threads| == |u.threads| && forall i | 0 <= i < |s.threads| :: FlightOf(u.threads[i]) == FlightOf(s.threads[i])
  }

  // ---------------------------------------------------------------- identities

  /** A connection id names at most one record of each side, and the two point at each other's owner. */
  ghost predicate PairsOK(recs: set<Rec>) {
    && (forall r, m | r in recs && m in recs :: r.cid == m.cid && r.far == m.far ==> r == m)
    && (forall r, m | r in recs && m in recs :: IsMate(m, r) ==> m.owner == r.oside && m.oside == r.owner)
  }

  /** While a connection is being opened its only record is the initiator's; while one is being closed
      its only record is the other side's. */
  ghost predicate FlightOK(recs: set<Rec>, nextCid: nat, f: Flight) {
    && (f.Opening? ==>
          f.near.owner == f.obj && f.near.cid < nextCid && !f.near.far
          && forall r | r in recs :: r.cid == f.near.cid ==> r == f.near)
    && (f.Closing? ==>
          f.gone.owner == f.obj && f.gone.cid < nextCid
          && (forall r | r in recs :: r.cid == f.gone.cid ==> MateOf(r, f.gone))
          && forall r, m | r in recs && m in f.met :: r.cid == f.gone.cid ==> r == m)
  }

  predicate FlightsApart(f: Flight, g: Flight) {
    f.Opening? ==>
      && (g.Opening? ==> f.near.cid != g.near.cid)
      && (g.Closing? ==> f.near.cid != g.gone.cid)
  }

  ghost predicate IdsOK(s: State) {
    && PairsOK(s.recs)
    && (forall r | r in s.recs :: r.cid < s.nextCid)
    && (forall t | 0 <= t < |s.threads| :: FlightOK(s.recs, s.nextCid, FlightOf(s.threads[t])))
    && (forall t, u | 0 <= t < |s.threads| && 0 <= u < |s.threads| && t != u ::
          FlightsApart(FlightOf(s.threads[t]), FlightOf(s.threads[u])))
  }

  lemma IdsSame(s: State, u: State)
    requires IdsOK(s) && SameFlights(s, u) && u.recs == s.recs && u.nextCid == s.nextCid
    ensures IdsOK(u)
  {
    forall t | 0 <= t < |u.threads| ensures FlightOf(u.threads[t]) == FlightOf(s.threads[t]) {}
  }

  /** Thread `t` alone changes its flight to `f`. */
  ghost predicate FlightChanged(s: State, u: State, t: nat, f: Flight) {
    && t < |s.threads| == |u.threads| && FlightOf(u.threads[t]) == f
    && forall i | 0 <= i < |s.threads| && i != t :: FlightOf(u.threads[i]) == FlightOf(s.threads[i])
  }

  /** A flight ends, or a record goes, or both. */
  lemma IdsShrink(s: State, u: State, t: nat, f: Flight)
    requires IdsOK(s) && FlightChanged(s, u, t, f) && u.recs <= s.recs && u.nextCid == s.nextCid
    requires FlightOK(u.recs, u.nextCid, f)
    requires forall i | 0 <= i < |s.threads| && i != t ::
               FlightsApart(f, FlightOf(s.threads[i])) && FlightsApart(FlightOf(s.threads[i]), f)
    ensures IdsOK(u)
  {
    forall i | 0 <= i < |u.threads| ensures FlightOK(u.recs, u.nextCid, FlightOf(u.threads[i])) {
      assert FlightOK(s.recs, s.nextCid, FlightOf(s.threads[i]));
    }
  }

  /** connect begins: the id is new. */
  lemma IdsOpen(s: State, u: State, t: nat, near: Rec)
    requires IdsOK(s) && FlightChanged(s, u, t, Opening(near.owner, near)) && u.nextCid == s.nextCid + 1
    requires near.cid == s.nextCid && !near.far && (u.recs == s.recs || u.recs == s.recs + {near})
    ensures IdsOK(u)
  {
    forall i | 0 <= i < |u.threads| ensures FlightOK(u.recs, u.nextCid, FlightOf(u.threads[i])) {
      assert FlightOK(s.recs, s.nextCid, FlightOf(s.threads[i]));
    }
    forall i, j | 0 <= i < |u.threads| && 0 <= j < |u.threads| && i != j
      ensures FlightsApart(FlightOf(u.threads[i]), FlightOf(u.threads[j]))
    {
      assert FlightOK(s.recs, s.nextCid, FlightOf(s.threads[i])) && FlightOK(s.recs, s.nextCid, FlightOf(s.threads[j]));
    }
  }

  /** The other side accepts. */
  lemma IdsAccept(s: State, u: State, t: nat, near: Rec, there: Rec)
    requires IdsOK(s) && FlightChanged(s, u, t, NoFlight) && u.nextCid == s.nextCid
    requires t < |s.threads| && FlightOf(s.threads[t]) == Opening(near.owner, near) && Ends(near, there)
    requires u.recs == s.recs + {there}
    ensures IdsOK(u)
  {
    assert FlightOK(s.recs, s.nextCid, FlightOf(s.threads[t]));
    forall i | 0 <= i < |u.threads| ensures FlightOK(u.recs, u.nextCid, FlightOf(u.threads[i])) {
      if i != t {
        assert FlightOK(s.recs, s.nextCid, FlightOf(s.threads[i]));
        assert FlightsApart(FlightOf(s.threads[t]), FlightOf(s.threads[i]));
        assert FlightsApart(FlightOf(s.threads[i]), FlightOf(s.threads[t]));
      }
    }
  }

  /** Nobody disconnects a connection that is still being opened: its near end belongs to the
      initiator's exclusive operation. */
  lemma NotOpeningElsewhere(s: State, t: nat, r: Rec, u: nat)
    requires WF(s) && MonInv(s) && IdsOK(s) && t < |s.threads| && CanDisconnect(s.threads[t])
    requires r in s.recs && r.owner == s.threads[t].obj && u < |s.threads| && u != t
    ensures FlightsApart(FlightOf(s.threads[u]), Closing(r.owner, r, {}))
  {
    assert FlightOK(s.recs, s.nextCid, FlightOf(s.threads[u]));
    assert s.threads[u].Busy? ==> OwnsAt(s, u);
    assert s.threads[t].Busy? ==> OwnsAt(s, t);
    assert SleepsWell(s, s.threads[t]);
  }

  // ---------------------------------------------------------------- effects of the steps

  /** Steps that leave records and flights alone. */
  predicate Neutral(a: Action) {
    || a.Call? || a.Try? || a.Spurious? || a.BusyCheck? || a.Commit? || a.Back? || a.Pass? || a.CleanEnd? || ByUser(a)
  }

  lemma NeutralEffect(s: State, a: Action)
    requires WF(s) && Enabled(s, a) && MonInv(s) && Neutral(a)
    ensures SameFlights(s, Step(s, a))
    ensures Step(s, a).recs == s.recs && Step(s, a).nextCid == s.nextCid
    ensures Step(s, a).late == s.late && Step(s, a).half == s.half && |Step(s, a).objs| == |s.objs|
  {
    hide WF, Enabled, MonInv, Step, SameFlights;
    if a.Try? || a.Commit? {
      EnterEffect(s, a);
    } else if a.Back? || a.BusyCheck? {
      LeaveEffect(s, a);
    } else if ByUser(a) {
      UserEffect(s, a);
    } else {
      PlainEffect(s, a);
    }
  }

  lemma EnterEffect(s: State, a: Action)
    requires WF(s) && Enabled(s, a) && (a.Try? || a.Commit?)
    ensures SameFlights(s, Step(s, a))
    ensures Step(s, a).recs == s.recs && Step(s, a).nextCid == s.nextCid
    ensures Step(s, a).late == s.late && Step(s, a).half == s.half && |Step(s, a).objs| == |s.objs|
  {
    hide CanTransit;
  }

  lemma LeaveEffect(s: State, a: Action)
    requires WF(s) && Enabled(s, a) && (a.Back? || a.BusyCheck?)
    ensures SameFlights(s, Step(s, a))
    ensures Step(s, a).recs == s.recs && Step(s, a).nextCid == s.nextCid
    ensures Step(s, a).late == s.late && Step(s, a).half == s.half && |Step(s, a).objs| == |s.objs|
  {
    hide CanTransit;
  }

  lemma PlainEffect(s: State, a: Action)
    requires WF(s) && Enabled(s, a) && MonInv(s)
    requires a.Call? || a.Spurious? || a.Pass? || a.CleanEnd?
    ensures SameFlights(s, Step(s, a))
    ensures Step(s, a).recs == s.recs && Step(s, a).nextCid == s.nextCid
    ensures Step(s, a).late == s.late && Step(s, a).half == s.half && |Step(s, a).objs| == |s.objs|
  {
  }

  lemma UserEffect(s: State, a: Action)
    requires WF(s) && Enabled(s, a) && ByUser(a)
    ensures SameFlights(s, Step(s, a))
    ensures Step(s, a).recs == s.recs && Step(s, a).nextCid == s.nextCid
    ensures Step(s, a).late == s.late && Step(s, a).half == s.half && |Step(s, a).objs| == |s.objs|
  {
  }

  lemma ConnectEffect(s: State, a: Action)
    requires WF(s) && Enabled(s, a) && MonInv(s) && a.Connect?
    ensures var near := NearEnd(s, a.t, a.target, a.nearStrong);
            var u := Step(s, a);
            && FlightChanged(s, u, a.t, Opening(near.owner, near))
            && u.recs == (if a.may then s.recs + {near} else s.recs)
            && u.nextCid == s.nextCid + 1 && u.late == s.late && u.half == s.half
            && u.threads[a.t].act == Far(near, FarEnd(s, a.t, a.target, a.farStrong), false)
  {
    assert OwnsAt(s, a.t);
  }

  /** The other side's addConnection adds the record. */
  predicate Accepts(s: State, a: Action)
    requires a.Ask? ==> a.t < |s.threads| && s.threads[a.t].Busy? && s.threads[a.t].act.Far?
    requires a.Ask? ==> s.threads[a.t].act.there.owner < |s.objs|
  {
    a.Ask? && (s.threads[a.t].act.asked || a.may) && Reception(s.objs[s.threads[a.t].act.there.owner].mon).Accepted?
  }

  lemma ActorOK(s: State, a: Action)
    requires WF(s) && Enabled(s, a) && !ByUser(a)
    ensures ThreadOK(s, s.threads[a.t])
  {
  }

  lemma AskWaits(s: State, a: Action)
    requires WF(s) && Enabled(s, a) && a.Ask? && ThreadOK(s, s.threads[a.t]) && !Accepts(s, a)
    ensures SameFlights(s, Step(s, a)) && Step(s, a).recs == s.recs && Step(s, a).nextCid == s.nextCid
    ensures Step(s, a).late == s.late && Step(s, a).half == s.half
  {
  }

  lemma AcceptEffect(s: State, a: Action)
    requires WF(s) && Enabled(s, a) && a.Ask? && ThreadOK(s, s.threads[a.t]) && Accepts(s, a)
    requires MonInv(s) && IdsOK(s)
    ensures var near, there := s.threads[a.t].act.near, s.threads[a.t].act.there;
            var u := Step(s, a);
            && FlightOf(s.threads[a.t]) == Opening(near.owner, near) && Ends(near, there)
            && FlightChanged(s, u, a.t, NoFlight)
            && u.recs == s.recs + {there} && u.nextCid == s.nextCid
            && u.late == (if Rest(s.objs[there.owner].mon).DELETED? then s.late + {near, there} else s.late)
            && u.half == (if near in s.recs then s.half else s.half + {there})
  {
    assert OwnsAt(s, a.t);
    assert FlightOK(s.recs, s.nextCid, FlightOf(s.threads[a.t]));
  }

  lemma UndoEffect(s: State, a: Action)
    requires WF(s) && Enabled(s, a) && a.UndoNear? && ThreadOK(s, s.threads[a.t]) && MonInv(s)
    ensures var near := s.threads[a.t].act.near;
            var u := Step(s, a);
            && FlightOf(s.threads[a.t]) == Opening(s.threads[a.t].obj, near)
            && FlightChanged(s, u, a.t, NoFlight)
            && u.recs == s.recs - {near} && u.nextCid == s.nextCid && u.late == s.late && u.half == s.half
  {
    assert OwnsAt(s, a.t);
    if s.threads[a.t].act.near !in s.recs {
      assert s.recs - {s.threads[a.t].act.near} == s.recs;
    }
  }

  lemma DisconnectEffect(s: State, a: Action)
    requires WF(s) && Enabled(s, a) && a.Disconnect?
    ensures var u := Step(s, a);
            && FlightOf(s.threads[a.t]) == NoFlight
            && FlightChanged(s, u, a.t, Closing(a.r.owner, a.r, {}))
            && u.recs == s.recs - {a.r} && u.nextCid == s.nextCid && u.late == s.late && u.half == s.half
  {
  }

  /** The walk meets the only record that is left of the connection, or there is none. */
  lemma SeekEffect(s: State, a: Action)
    requires WF(s) && Enabled(s, a) && a.SeekMate? && ThreadOK(s, s.threads[a.t]) && IdsOK(s)
    ensures var gone := s.threads[a.t].act.gone;
            var u := Step(s, a);
            && FlightOf(s.threads[a.t]) == Closing(s.threads[a.t].obj, gone, {})
            && u.recs == s.recs && u.nextCid == s.nextCid && u.late == s.late && u.half == s.half && u.objs == s.objs
            && FlightChanged(s, u, a.t, FlightOf(u.threads[a.t])) && FlightOK(u.recs, u.nextCid, FlightOf(u.threads[a.t]))
            && (if exists r :: r in s.recs && r.cid == gone.cid
                then FlightOf(u.threads[a.t]) == Closing(s.threads[a.t].obj, gone, FlightOf(u.threads[a.t]).met)
                else FlightOf(u.threads[a.t]).NoFlight?)
  {
    var gone := s.threads[a.t].act.gone;
    assert FlightOK(s.recs, s.nextCid, FlightOf(s.threads[a.t]));
    if r :| r in s.recs && r.cid == gone.cid {
      assert MateOf(r, gone);
    }
  }

  lemma MateEffect(s: State, a: Action)
    requires WF(s) && Enabled(s, a) && a.DeleteMate? && ThreadOK(s, s.threads[a.t]) && IdsOK(s)
    ensures var gone, mate := s.threads[a.t].act.gone, s.threads[a.t].act.mate;
            var u := Step(s, a);
            && FlightOf(s.threads[a.t]) == Closing(s.threads[a.t].obj, gone, {mate})
            && FlightChanged(s, u, a.t, NoFlight)
            && u.recs <= s.recs && (forall m | m in s.recs :: m in u.recs <==> m.cid != gone.cid)
            && u.nextCid == s.nextCid && u.late == s.late && u.half == s.half
  {
    assert FlightOK(s.recs, s.nextCid, FlightOf(s.threads[a.t]));
  }

  lemma IdsStep(s: State, a: Action)
    requires WF(s) && Enabled(s, a) && MonInv(s) && IdsOK(s)
    ensures IdsOK(Step(s, a))
  {
    hide MonInv, Step, IdsOK, PairsOK, FlightChanged, SameFlights, FlightsApart;
    if Neutral(a) {
      NeutralEffect(s, a);
      IdsSame(s, Step(s, a));
    } else {
      ActorOK(s, a);
      match a
      case Connect(t, target, ns, fs, may, _) =>
        ConnectEffect(s, a);
        IdsOpen(s, Step(s, a), t, NearEnd(s, t, target, ns));
      case Ask(t, _, _) =>
        if Accepts(s, a) {
          AcceptEffect(s, a);
          IdsAccept(s, Step(s, a), t, s.threads[t].act.near, s.threads[t].act.there);
        } else {
          AskWaits(s, a);
          IdsSame(s, Step(s, a));
        }
      case UndoNear(t, _) =>
        UndoEffect(s, a);
        FreeToEnd();
        IdsShrink(s, Step(s, a), t, NoFlight);
      case Disconnect(t, r, _) => DisconnectIds(s, a);
      case SeekMate(t) =>
        SeekEffect(s, a);
        FreeToEnd();
        SeekApart(s, t, FlightOf(Step(s, a).threads[t]));
        IdsShrink(s, Step(s, a), t, FlightOf(Step(s, a).threads[t]));
      case DeleteMate(t, _) =>
        MateEffect(s, a);
        FreeToEnd();
        IdsShrink(s, Step(s, a), t, NoFlight);
    }
  }

  /** A walk that has met a record is as far apart from other flights as before. */
  lemma SeekApart(s: State, t: nat, f: Flight)
    requires IdsOK(s) && t < |s.threads| && FlightOf(s.threads[t]).Closing?
    requires f.NoFlight? || (f.Closing? && f.gone == FlightOf(s.threads[t]).gone)
    ensures forall i | 0 <= i < |s.threads| && i != t ::
              FlightsApart(f, FlightOf(s.threads[i])) && FlightsApart(FlightOf(s.threads[i]), f)
  {
    forall i | 0 <= i < |s.threads| && i != t
      ensures FlightsApart(f, FlightOf(s.threads[i])) && FlightsApart(FlightOf(s.threads[i]), f)
    {
      assert FlightsApart(FlightOf(s.threads[i]), FlightOf(s.threads[t]));
    }
  }

  lemma FreeToEnd()
    ensures forall f: Flight :: FlightsApart(NoFlight, f) && FlightsApart(f, NoFlight)
  {
  }

  lemma DisconnectIds(s: State, a: Action)
    requires WF(s) && Enabled(s, a) && MonInv(s) && IdsOK(s) && a.Disconnect?
    ensures IdsOK(Step(s, a))
  {
    hide MonInv, Step, FlightChanged;
    DisconnectEffect(s, a);
    var f := Closing(a.r.owner, a.r, {});
    forall i | 0 <= i < |s.threads| && i != a.t
      ensures FlightsApart(f, FlightOf(s.threads[i])) && FlightsApart(FlightOf(s.threads[i]), f)
    {
      NotOpeningElsewhere(s, a.t, a.r, i);
    }
    assert FlightOK(s.recs - {a.r}, s.nextCid, f);
    IdsShrink(s, Step(s, a), a.t, f);
  }

  // ---------------------------------------------------------------- symmetry

  ghost predicate HasMate(recs: set<Rec>, r: Rec) {
    exists m :: m in recs && IsMate(m, r)
  }

  /** The flight will add the other end of `r`, or remove `r`. */
  predicate Excuses(f: Flight, r: Rec) {
    (f.Opening? && f.near == r) || (f.Closing? && IsMate(r, f.gone))
  }

  ghost predicate Excused(s: State, r: Rec) {
    exists t :: 0 <= t < |s.threads| && Excuses(FlightOf(s.threads[t]), r)
  }

  /** Every record has its other end, but for connections in flight and those that were half accepted. */
  ghost predicate Symmetric(s: State) {
    forall r | r in s.recs :: HasMate(s.recs, r) || Excused(s, r) || r in s.half
  }

  /** A step in which no record loses its other end or its excuse. */
  lemma SymmetryKept(s: State, u: State, t: nat, f: Flight)
    requires Symmetric(s) && FlightChanged(s, u, t, f) && s.half <= u.half
    requires forall r | r in u.recs && r !in s.recs :: HasMate(u.recs, r) || Excused(u, r) || r in u.half
    requires forall r | r in s.recs && r in u.recs && Excuses(FlightOf(s.threads[t]), r) ::
               HasMate(u.recs, r) || Excused(u, r)
    requires forall r | r in s.recs && r in u.recs && HasMate(s.recs, r) :: HasMate(u.recs, r) || Excused(u, r)
    ensures Symmetric(u)
  {
    forall r | r in u.recs ensures HasMate(u.recs, r) || Excused(u, r) || r in u.half {
      if r in s.recs && !HasMate(s.recs, r) && r !in s.half {
        var i :| 0 <= i < |s.threads| && Excuses(FlightOf(s.threads[i]), r);
        if i != t {
          assert Excuses(FlightOf(u.threads[i]), r);
        }
      }
    }
  }

  lemma SymmetrySame(s: State, u: State)
    requires Symmetric(s) && SameFlights(s, u) && u.recs == s.recs && u.half == s.half
    ensures Symmetric(u)
  {
    forall r | r in u.recs ensures HasMate(u.recs, r) || Excused(u, r) || r in u.half {
      if Excused(s, r) {
        var i :| 0 <= i < |s.threads| && Excuses(FlightOf(s.threads[i]), r);
        assert Excuses(FlightOf(u.threads[i]), r);
      }
    }
  }

  lemma ConnectSymmetric(s: State, u: State, t: nat, near: Rec)
    requires Symmetric(s) && t < |s.threads| && FlightOf(s.threads[t]) == NoFlight
    requires FlightChanged(s, u, t, Opening(near.owner, near)) && u.half == s.half
    requires u.recs == s.recs || u.recs == s.recs + {near}
    ensures Symmetric(u)
  {
    assert Excuses(FlightOf(u.threads[t]), near);
    SymmetryKept(s, u, t, Opening(near.owner, near));
  }

  lemma AcceptSymmetric(s: State, u: State, t: nat, near: Rec, there: Rec)
    requires Symmetric(s) && t < |s.threads| && FlightOf(s.threads[t]) == Opening(near.owner, near) && Ends(near, there)
    requires FlightChanged(s, u, t, NoFlight) && u.recs == s.recs + {there}
    requires u.half == if near in s.recs then s.half else s.half + {there}
    ensures Symmetric(u)
  {
    assert there in u.recs && IsMate(there, near) && IsMate(near, there);
    SymmetryKept(s, u, t, NoFlight);
  }

  lemma UndoSymmetric(s: State, u: State, t: nat, near: Rec)
    requires Symmetric(s) && IdsOK(s) && t < |s.threads| && FlightOf(s.threads[t]).Opening? && FlightOf(s.threads[t]).near == near
    requires FlightChanged(s, u, t, NoFlight) && u.recs == s.recs - {near} && u.half == s.half
    ensures Symmetric(u)
  {
    assert FlightOK(s.recs, s.nextCid, FlightOf(s.threads[t]));
    SymmetryKept(s, u, t, NoFlight);
  }

  lemma DisconnectSymmetric(s: State, u: State, t: nat, r: Rec)
    requires Symmetric(s) && t < |s.threads| && FlightOf(s.threads[t]) == NoFlight && r in s.recs
    requires FlightChanged(s, u, t, Closing(r.owner, r, {})) && u.recs == s.recs - {r} && u.half == s.half
    ensures Symmetric(u)
  {
    forall x | x in u.recs && HasMate(s.recs, x) ensures HasMate(u.recs, x) || Excused(u, x) {
      var m :| m in s.recs && IsMate(m, x);
      if m == r {
        assert Excuses(FlightOf(u.threads[t]), x);
      } else {
        assert m in u.recs;
      }
    }
    SymmetryKept(s, u, t, Closing(r.owner, r, {}));
  }

  lemma MateSymmetric(s: State, u: State, t: nat, gone: Rec)
    requires Symmetric(s) && IdsOK(s) && t < |s.threads| && FlightOf(s.threads[t]).Closing? && FlightOf(s.threads[t]).gone == gone
    requires FlightChanged(s, u, t, NoFlight) && u.half == s.half && u.recs <= s.recs
    requires forall m | m in s.recs :: m in u.recs <==> m.cid != gone.cid
    ensures Symmetric(u)
  {
    assert FlightOK(s.recs, s.nextCid, FlightOf(s.threads[t]));
    forall x | x in u.recs && HasMate(s.recs, x) ensures HasMate(u.recs, x) {
      var m :| m in s.recs && IsMate(m, x);
      assert m in u.recs;
    }
    SymmetryKept(s, u, t, NoFlight);
  }

  lemma SeekSymmetric(s: State, u: State, t: nat, f: Flight)
    requires Symmetric(s) && t < |s.threads| && FlightOf(s.threads[t]).Closing? && FlightChanged(s, u, t, f)
    requires u.recs == s.recs && u.half == s.half
    requires if exists r :: r in s.recs && r.cid == FlightOf(s.threads[t]).gone.cid
             then f.Closing? && f.gone == FlightOf(s.threads[t]).gone else f.NoFlight?
    ensures Symmetric(u)
  {
    forall r | r in s.recs && Excuses(FlightOf(s.threads[t]), r) ensures Excused(u, r) {
      assert Excuses(FlightOf(u.threads[t]), r);
    }
    SymmetryKept(s, u, t, f);
  }

  /** Every step of every thread keeps the two ends of every connection together. */
  lemma SymmetryStep(s: State, a: Action)
    requires WF(s) && Enabled(s, a) && MonInv(s) && IdsOK(s) && Symmetric(s)
    ensures Symmetric(Step(s, a))
  {
    hide MonInv, Step, IdsOK, Symmetric, FlightChanged, SameFlights;
    if Neutral(a) {
      NeutralEffect(s, a);
      SymmetrySame(s, Step(s, a));
    } else {
      ActorOK(s, a);
      match a
      case Connect(t, target, ns, fs, may, _) =>
        ConnectEffect(s, a);
        ConnectSymmetric(s, Step(s, a), t, NearEnd(s, t, target, ns));
      case Ask(t, _, _) =>
        if Accepts(s, a) {
          AcceptEffect(s, a);
          AcceptSymmetric(s, Step(s, a), t, s.threads[t].act.near, s.threads[t].act.there);
        } else {
          AskWaits(s, a);
          SymmetrySame(s, Step(s, a));
        }
      case UndoNear(t, _) =>
        UndoEffect(s, a);
        UndoSymmetric(s, Step(s, a), t, s.threads[t].act.near);
      case Disconnect(t, r, _) =>
        DisconnectEffect(s, a);
        DisconnectSymmetric(s, Step(s, a), t, r);
      case SeekMate(t) =>
        SeekEffect(s, a);
        SeekSymmetric(s, Step(s, a), t, FlightOf(Step(s, a).threads[t]));
      case DeleteMate(t, _) =>
        MateEffect(s, a);
        MateSymmetric(s, Step(s, a), t, s.threads[t].act.gone);
    }
  }
}
