/**
  Objects over whole runs: symmetry of connections, conservation of use counts, safe deletion, and
  exactly where they fail.
 */
module XObjectRuns {
  import opened XObjectStatus
  import opened XObjectProtocol
  import opened XObjectMonitor
  import opened XObjectConnections
  import opened XObjectCounts
  import opened XObjectDeletion

  // ---------------------------------------------------------------- runs

  ghost predicate Inv(s: State) {
    WF(s) && MonInv(s) && IdsOK(s) && Symmetric(s) && LateOK(s) && DeletedOK(s)
  }

  lemma StartInv(objects: nat, threads: nat, callers: nat)
    ensures Inv(Start(objects, threads, callers))
  {
    StartMon(objects, threads, callers);
  }

  lemma InvStep(s: State, a: Action)
    requires Inv(s) && Enabled(s, a)
    ensures Inv(Step(s, a))
  {
    hide Step, WF, MonInv, IdsOK, Symmetric, LateOK, DeletedOK, Enabled;
    StepWF(s, a);
    MonStep(s, a);
    IdsStep(s, a);
    SymmetryStep(s, a);
    LateStep(s, a);
    DeletedStep(s, a);
  }

  ghost predicate Follows(s: State, a: Action, u: State) {
    WF(s) && Enabled(s, a) && u == Step(s, a)
  }

  /** Any number of threads and of callers of inc_ruse and dec_ruse work on any number of freshly loaded
      objects. */
  ghost predicate IsRun(states: seq<State>, acts: seq<Action>) {
    && |states| == |acts| + 1
    && states[0] == Start(|states[0].objs|, |states[0].threads|, |states[0].uses|)
    && forall i | 0 <= i < |acts| :: Follows(states[i], acts[i], states[i + 1])
  }

  /** The invariants hold at every point of every run. */
  lemma {:induction false} RunInv(states: seq<State>, acts: seq<Action>, i: nat)
    requires IsRun(states, acts) && i < |states|
    ensures Inv(states[i])
  {
    if i == 0 {
      StartInv(|states[0].objs|, |states[0].threads|, |states[0].uses|);
    } else {
      RunInv(states, acts, i - 1);
      assert Follows(states[i - 1], acts[i - 1], states[i - 1 + 1]);
      InvStep(states[i - 1], acts[i - 1]);
    }
  }

  lemma LifeBounds(s: State, o: nat)
    requires Inv(s) && o < |s.objs|
    ensures s.objs[o].adds <= 1 && Resting(Rest(s.objs[o].mon))
  {
    assert LifeOK(s.objs[o]);
  }

  lemma LifeStep(s: State, a: Action, u: State, o: nat)
    requires Inv(s) && Follows(s, a, u) && o < |s.objs|
    ensures o < |u.objs| && Age(Rest(s.objs[o].mon)) <= Age(Rest(u.objs[o].mon)) && s.objs[o].adds <= u.objs[o].adds
  {
    hide Step;
    LifecycleForward(s, a, o);
  }

  /** Over a run resting statuses only move forward, a deleted object stays deleted, and of all the
      additions of an object at most one succeeds. */
  lemma {:induction false} RunLifecycle(states: seq<State>, acts: seq<Action>, i: nat, j: nat, o: nat)
    requires IsRun(states, acts) && i <= j < |states| && o < |states[i].objs|
    ensures o < |states[j].objs| && Age(Rest(states[i].objs[o].mon)) <= Age(Rest(states[j].objs[o].mon))
    ensures Rest(states[i].objs[o].mon).DELETED? ==> Rest(states[j].objs[o].mon).DELETED?
    ensures states[i].objs[o].adds <= states[j].objs[o].adds <= 1
  {
    hide Follows, Inv, Rest;
    RunInv(states, acts, j);
    if i < j {
      RunLifecycle(states, acts, i, j - 1, o);
      RunInv(states, acts, j - 1);
      assert Follows(states[j - 1], acts[j - 1], states[j - 1 + 1]);
      LifeStep(states[j - 1], acts[j - 1], states[j], o);
    }
    LifeBounds(states[j], o);
  }

  // ---------------------------------------------------------------- symmetry, deletion

  /** `m` is the other end of `r`, kept by the other side. */
  predicate OtherEnd(m: Rec, r: Rec) {
    m.cid == r.cid && m.owner == r.oside && m.oside == r.owner && m.far != r.far
  }

  ghost predicate HasOtherEnd(recs: set<Rec>, r: Rec) {
    exists m :: m in recs && OtherEnd(m, r)
  }

  /** The two sides agree on every connection that both accepted, while it is itself not being opened or
      closed. */
  lemma BothEndsListed(s: State, r: Rec)
    requires Inv(s) && r in s.recs && !Excused(s, r) && r !in s.half
    ensures HasOtherEnd(s.recs, r)
  {
    var m :| m in s.recs && IsMate(m, r);
    assert OtherEnd(m, r);
  }

  predicate Mentions(r: Rec, o: nat) {
    r.owner == o || r.oside == o
  }

  /** No thread is clearing the object. */
  ghost predicate Cleared(s: State, o: nat) {
    forall t | 0 <= t < |s.threads| :: !(s.threads[t].Cleaning? && s.threads[t].obj == o)
  }

  /** Safe deletion: what a deleted and cleared object still has in its list is a connection that it
      accepted late, and what another object's list has of it is one of those, one that its initiator
      refused, or one that is just being opened or closed. */
  lemma SafeDeletion(s: State, o: nat, r: Rec)
    requires Inv(s) && Deleted(s, o) && Cleared(s, o) && r in s.recs && Mentions(r, o)
    ensures r.owner == o ==> r in s.late
    ensures r.owner != o ==> r in s.late || r in s.half || Excused(s, r)
  {
    if r.owner == o {
      OwnRecordsLate(s, r);
    } else if r !in s.half && !Excused(s, r) {
      BothEndsListed(s, r);
      var m :| m in s.recs && OtherEnd(m, r);
      OwnRecordsLate(s, m);
      assert IsMate(m, r);
    }
  }

  lemma OwnRecordsLate(s: State, r: Rec)
    requires Inv(s) && r in s.recs && Deleted(s, r.owner) && Cleared(s, r.owner)
    ensures r in s.late
  {
    forall t | 0 <= t < |s.threads| ensures !ToMeet(s.threads[t], r) {
      assert ThreadOK(s, s.threads[t]);
    }
    assert !WillBeMet(s, r);
  }

  /** A thread that clears a deleted object is never blocked. */
  lemma CleaningNeverBlocks(s: State, t: nat) returns (a: Action)
    requires Inv(s) && t < |s.threads| && s.threads[t].Cleaning?
    ensures !ByUser(a) && a.t == t && Enabled(s, a)
    ensures a.CleanEnd? || a.SeekMate? || a.DeleteMate? || (a.Disconnect? && a.r in s.threads[t].todo) || a.Pass?
  {
    assert SleepsWell(s, s.threads[t]) && ThreadOK(s, s.threads[t]);
    if s.threads[t].act.Mate? {
      a := SeekMate(t);
    } else if s.threads[t].act.Found? {
      a := DeleteMate(t, s.objs[s.threads[t].act.mate.owner].mon.ruse);
      assert RecentOK(s.objs[s.threads[t].act.mate.owner]);
    } else if r :| r in s.threads[t].todo {
      a := if r in s.recs then Disconnect(t, r, s.objs[r.owner].mon.ruse) else Pass(t, r);
      assert RecentOK(s.objs[r.owner]);
    } else {
      a := CleanEnd(t);
    }
  }

  /** A sequence of steps. */
  ghost predicate Leads(s: State, acts: seq<Action>, u: State)
    decreases |acts|
  {
    if acts == [] then u == s else WF(s) && Enabled(s, acts[0]) && Leads(Step(s, acts[0]), acts[1..], u)
  }

  ghost predicate AllBy(acts: seq<Action>, t: nat) {
    forall k | 0 <= k < |acts| :: !ByUser(acts[k]) && acts[k].t == t
  }

  /** And it comes to its end: its own steps lead there, whatever the others do not do, and nothing is
      left then of what the list held when the object was deleted. */
  lemma {:induction false} CleaningEnds(s: State, t: nat) returns (acts: seq<Action>, u: State)
    requires Inv(s) && t < |s.threads| && s.threads[t].Cleaning?
    ensures Leads(s, acts, u) && AllBy(acts, t) && |acts| <= Left(s, t) + 1
    ensures t < |u.threads| && u.threads[t].Idle? && u.recs <= s.recs
    ensures forall r | r in s.threads[t].todo :: r !in u.recs
    decreases Left(s, t)
  {
    hide Step, Inv, Enabled, Left, StillCleans;
    var a := CleaningNeverBlocks(s, t);
    InvFacts(s);
    CleaningStep(s, a);
    InvStep(s, a);
    CleaningShrinks(s, a);
    var s1 := Step(s, a);
    if a.CleanEnd? {
      CleanEndStep(s, a);
      acts, u := [a], s1;
      assert [a][1..] == [];
    } else {
      StillFacts(s, s1, t);
      var rest;
      rest, u := CleaningEnds(s1, t);
      acts := [a] + rest;
      assert acts[1..] == rest;
      forall r | r in s.threads[t].todo ensures r !in u.recs {
        if r in s.recs && r in s1.recs {
          StaysToMeet(s, a, t, r);
        }
      }
    }
  }

  lemma StillFacts(s: State, u: State, t: nat)
    requires t < |s.threads| && s.threads[t].Cleaning? && StillCleans(s, u, t)
    ensures t < |u.threads| && u.threads[t].Cleaning? && u.threads[t].obj == s.threads[t].obj
  {
  }

  lemma InvFacts(s: State)
    requires Inv(s)
    ensures WF(s) && MonInv(s) && IdsOK(s) && LateOK(s)
  {
  }

  lemma CleanEndStep(s: State, a: Action)
    requires WF(s) && Enabled(s, a) && a.CleanEnd?
    ensures a.t < |Step(s, a).threads| && Step(s, a).threads[a.t].Idle? && Step(s, a).recs == s.recs
    ensures s.threads[a.t].todo == {}
  {
  }

  /** A clearing thread adds no record. */
  lemma CleaningShrinks(s: State, a: Action)
    requires WF(s) && Enabled(s, a) && MonInv(s) && IdsOK(s) && !ByUser(a) && s.threads[a.t].Cleaning?
    ensures Step(s, a).recs <= s.recs
  {
    hide Step, IdsOK, MonInv;
    CleanersMoves(s, a);
    forall r | r in Step(s, a).recs ensures r in s.recs {
      if r !in s.recs {
        NewRecords(s, a, r);
      }
    }
  }

  /** No strong connection enters DELETED if the use count was right when the delete checked it, and the
      use count then is the number of holds, as long as it still is right. */
  lemma DeletedUnused(s: State, t: nat)
    requires Inv(s) && Enabled(s, Commit(t)) && s.threads[t].op.DELETING? && CheckedOK(s, s.threads[t].obj)
    ensures StrongOf(s.recs, s.threads[t].obj) == {}
    ensures var o := s.threads[t].obj;
            CountOK(s, o) <==> o < |s.objs| && s.objs[o].mon.ruse == s.objs[o].holds + Releasing(s.uses, o)
  {
    assert Checked(s.threads[t]) && NoStrong(s.recs, s.threads[t].obj);
    assert StrongOf(s.recs, s.threads[t].obj) == {};
  }

  // ---------------------------------------------------------------- every point of every run

  /** In every run: an operation excludes all others on its object and remembers the status it came from. */
  lemma RunExclusive(states: seq<State>, acts: seq<Action>, i: nat, t: nat, u: nat)
    requires IsRun(states, acts) && i < |states| && t < |states[i].threads| && u < |states[i].threads|
    requires states[i].threads[t].Busy?
    ensures states[i].threads[t].obj < |states[i].objs|
    ensures var m := states[i].objs[states[i].threads[t].obj].mon;
            m.status == states[i].threads[t].op && m.prev == states[i].threads[t].from && Resting(m.prev)
    ensures states[i].threads[u].Busy? && states[i].threads[u].obj == states[i].threads[t].obj ==> u == t
  {
    RunInv(states, acts, i);
    MutualExclusion(states[i], t, u);
    assert OwnsAt(states[i], t);
  }

  /** In every run: whoever sleeps, sleeps on an object where another thread's operation is on; that
      thread is awake, or sleeps on a third one's; and the last of them is inside its operation and can
      take a step. */
  lemma RunNoLostWakeup(states: seq<State>, acts: seq<Action>, i: nat, t: nat) returns (u: nat, v: nat, a: Action)
    requires IsRun(states, acts) && i < |states| && t < |states[i].threads| && Sleeping(states[i].threads[t])
    ensures SleepsWell(states[i], states[i].threads[t]) && u == WaitsFor(states[i], t)
    ensures u < |states[i].threads| && u != t && states[i].threads[u].Busy? && SleepsWell(states[i], states[i].threads[u])
    ensures states[i].threads[u].obj
         == if states[i].threads[t].Asleep? then states[i].threads[t].obj else states[i].threads[t].act.there.owner
    ensures if Sleeping(states[i].threads[u]) then v == WaitsFor(states[i], u) else v == u
    ensures v < |states[i].threads| && states[i].threads[v].Busy? && !Sleeping(states[i].threads[v])
    ensures WF(states[i]) && !ByUser(a) && a.t == v && Enabled(states[i], a)
  {
    RunInv(states, acts, i);
    NoLostWakeup(states[i], t);
    u, v, a := NoDeadlock(states[i], t);
  }

  /** Only the thread that owns an object's delete makes the object deleted. */
  lemma CommitsOwn(s: State, a: Action, o: nat)
    requires WF(s) && MonInv(s) && Enabled(s, a) && a.Commit? && o < |s.objs| && !Deleted(s, o) && Deleted(Step(s, a), o)
    ensures s.threads[a.t].obj == o && Checked(s.threads[a.t])
  {
    assert OwnsAt(s, a.t);
  }

  // ---------------------------------------------------------------- use counts over runs

  lemma StartCount(s: State, o: nat)
    requires s == Start(|s.objs|, |s.threads|, |s.uses|) && o < |s.objs|
    ensures CountOK(s, o) && CheckedOK(s, o)
  {
    assert StrongOf(s.recs, o) == {};
    NoneReleasing(s.uses, o);
  }

  lemma {:induction false} NoneReleasing(uses: seq<Use>, o: nat)
    requires forall u | 0 <= u < |uses| :: uses[u].NoUse?
    ensures Releasing(uses, o) == 0
  {
    if uses != [] {
      NoneReleasing(uses[..|uses| - 1], o);
    }
  }

  ghost predicate FreshAt(states: seq<State>, acts: seq<Action>, k: nat, o: nat) {
    k < |acts| && k < |states| && WF(states[k]) && Enabled(states[k], acts[k]) && Fresh(states[k], acts[k], o)
  }

  ghost predicate AllFresh(states: seq<State>, acts: seq<Action>, i: nat, o: nat) {
    forall k | 0 <= k < i :: FreshAt(states, acts, k, o)
  }

  ghost predicate AllCounted(states: seq<State>, i: nat, o: nat)
    requires i < |states|
  {
    forall k | 0 <= k <= i :: CountOK(states[k], o)
  }

  /** Conservation of use counts, exactly: an object's use count has been the number of its strong
      connections and outstanding holds all along exactly if at each update of it the count was still what
      had been read. */
  lemma {:induction false} RunUseCounts(states: seq<State>, acts: seq<Action>, i: nat, o: nat)
    requires IsRun(states, acts) && i < |states| && o < |states[0].objs|
    ensures AllCounted(states, i, o) <==> AllFresh(states, acts, i, o)
  {
    hide CountOK, Fresh, Inv, Step, Enabled, WF, MonInv, IdsOK;
    if i == 0 {
      StartCount(states[0], o);
    } else {
      RunUseCounts(states, acts, i - 1, o);
      RunInv(states, acts, i - 1);
      InvFacts(states[i - 1]);
      assert Follows(states[i - 1], acts[i - 1], states[i - 1 + 1]);
      assert AllFresh(states, acts, i, o) <==> AllFresh(states, acts, i - 1, o) && FreshAt(states, acts, i - 1, o);
      assert AllCounted(states, i, o) <==> AllCounted(states, i - 1, o) && CountOK(states[i], o);
      if CountOK(states[i - 1], o) {
        CountStep(states[i - 1], acts[i - 1], o);
      }
    }
  }

  /** The step updates the object's use count. */
  ghost predicate UpdatesAt(states: seq<State>, acts: seq<Action>, k: nat, o: nat) {
    && k < |acts| && k < |states| && WF(states[k]) && Enabled(states[k], acts[k])
    && UpdateOf(states[k], acts[k]).Update? && UpdateOf(states[k], acts[k]).obj == o
  }

  predicate StepOf(a: Action, u: nat) {
    ByUser(a) && a.u == u
  }

  /** Step `r` is the last one of the caller of step `w` before it. */
  ghost predicate LastBefore(acts: seq<Action>, r: nat, w: nat)
    requires r < w < |acts| && ByUser(acts[w])
  {
    StepOf(acts[r], acts[w].u) && forall k | r < k < w :: !StepOf(acts[k], acts[w].u)
  }

  /** No other update falls between the read and the write of an update at step `w`: without the lock, the
      read is the caller's step before; under the lock, the section read what the count still is. */
  ghost predicate Alone(states: seq<State>, acts: seq<Action>, w: nat, o: nat)
    requires w < |acts| && w < |states|
  {
    UpdatesAt(states, acts, w, o) ==>
      if ByUser(acts[w]) then
        forall r, k | 0 <= r < k < w && LastBefore(acts, r, w) :: !UpdatesAt(states, acts, k, o)
      else o < |states[w].objs| && UpdateOf(states[w], acts[w]).seen == states[w].objs[o].mon.ruse
  }

  predicate HasRead(w: Use) {
    w.Raising? || w.Lowering?
  }

  /** What a step does to a caller. */
  lemma UseStep(s: State, a: Action, u: nat)
    requires WF(s) && Enabled(s, a) && u < |Step(s, a).uses|
    ensures u < |s.uses| && |Step(s, a).objs| == |s.objs|
    ensures !StepOf(a, u) ==> Step(s, a).uses[u] == s.uses[u]
    ensures StepOf(a, u) && HasRead(Step(s, a).uses[u]) ==>
              Step(s, a).uses[u].obj < |s.objs| && s.objs[Step(s, a).uses[u].obj].mon.ruse == Step(s, a).uses[u].seen
    ensures StepOf(a, u) && HasRead(Step(s, a).uses[u]) ==> UpdateOf(s, a).NoUpdate?
  {
    hide Step;
    ThreadsKept(s, a);
    if ByUser(a) {
      OwnUseStep(s, a, u);
    } else {
      CallersUntouched(s, a);
    }
  }

  lemma OwnUseStep(s: State, a: Action, u: nat)
    requires WF(s) && Enabled(s, a) && ByUser(a) && u < |Step(s, a).uses|
    ensures u < |s.uses|
    ensures !StepOf(a, u) ==> Step(s, a).uses[u] == s.uses[u]
    ensures StepOf(a, u) && HasRead(Step(s, a).uses[u]) ==>
              Step(s, a).uses[u].obj < |s.objs| && s.objs[Step(s, a).uses[u].obj].mon.ruse == Step(s, a).uses[u].seen
    ensures StepOf(a, u) && HasRead(Step(s, a).uses[u]) ==> UpdateOf(s, a).NoUpdate?
  {
    assert a.HoldRead? || UseOK(s, s.uses[a.u]);
  }

  lemma CallersUntouched(s: State, a: Action)
    requires WF(s) && Enabled(s, a) && !ByUser(a)
    ensures Step(s, a).uses == s.uses
  {
    hide CanTransit;
    ActorOK(s, a);
  }

  lemma RuseStep(s: State, a: Action, o: nat)
    requires WF(s) && Enabled(s, a) && o < |s.objs|
    requires UpdateOf(s, a).Update? ==> UpdateOf(s, a).obj != o
    ensures o < |Step(s, a).objs| && Step(s, a).objs[o].mon.ruse == s.objs[o].mon.ruse
  {
    hide Step;
    if CountNeutral(a) {
      CountNeutralEffect(s, a);
    } else if ByUser(a) {
      UserRuse(s, a, o);
    } else {
      SectionRuse(s, a, o);
    }
  }

  lemma UserRuse(s: State, a: Action, o: nat)
    requires WF(s) && Enabled(s, a) && ByUser(a) && o < |s.objs|
    requires UpdateOf(s, a).Update? ==> UpdateOf(s, a).obj != o
    ensures o < |Step(s, a).objs| && Step(s, a).objs[o].mon.ruse == s.objs[o].mon.ruse
    ensures Step(s, a).objs[o].recent == s.objs[o].recent
  {
    assert a.HoldRead? || UseOK(s, s.uses[a.u]);
  }

  lemma SectionRuse(s: State, a: Action, o: nat)
    requires WF(s) && Enabled(s, a) && !CountNeutral(a) && !ByUser(a) && o < |s.objs|
    requires UpdateOf(s, a).Update? ==> UpdateOf(s, a).obj != o
    ensures o < |Step(s, a).objs| && Step(s, a).objs[o].mon.ruse == s.objs[o].mon.ruse
  {
    ActorOK(s, a);
  }

  /** What a caller has read was the count then, and still is if nobody has updated it since. */
  lemma {:induction false} SeenStays(states: seq<State>, acts: seq<Action>, w: nat, u: nat, o: nat) returns (r: nat)
    requires IsRun(states, acts) && w < |states| && u < |states[w].uses| && HasRead(states[w].uses[u])
    requires states[w].uses[u].obj == o
    ensures r < w && StepOf(acts[r], u) && (forall k | r < k < w :: !StepOf(acts[k], u))
    ensures o < |states[w].objs|
    ensures (forall k | r < k < w :: !UpdatesAt(states, acts, k, o)) ==> states[w].objs[o].mon.ruse == states[w].uses[u].seen
  {
    hide Step, Enabled, WF, UpdatesAt;
    if w == 0 {
      r := 0;
      NothingRead(states[0], u);
    } else {
      var s, a := states[w - 1], acts[w - 1];
      assert Follows(s, a, states[w - 1 + 1]);
      UseStep(s, a, u);
      if StepOf(a, u) {
        r := w - 1;
        RuseStep(s, a, o);
      } else {
        r := SeenStays(states, acts, w - 1, u, o);
        UpdatedHere(states, acts, w - 1, o);
      }
    }
  }

  lemma UpdatedHere(states: seq<State>, acts: seq<Action>, k: nat, o: nat)
    requires k < |acts| && k < |states| && WF(states[k]) && Enabled(states[k], acts[k]) && o < |states[k].objs|
    ensures !UpdatesAt(states, acts, k, o) ==>
              o < |Step(states[k], acts[k]).objs| && Step(states[k], acts[k]).objs[o].mon.ruse == states[k].objs[o].mon.ruse
  {
    hide Step, Enabled, WF;
    if !UpdatesAt(states, acts, k, o) {
      RuseStep(states[k], acts[k], o);
    }
  }

  lemma NothingRead(s: State, u: nat)
    requires s == Start(|s.objs|, |s.threads|, |s.uses|) && u < |s.uses|
    ensures !HasRead(s.uses[u])
  {
  }

  /** The count had no other value since the last section under the object's lock. */
  predicate Steady(x: Obj) {
    x.recent == {x.mon.ruse}
  }

  lemma SteadyStep(s: State, a: Action, o: nat)
    requires WF(s) && Enabled(s, a) && o < |s.objs| && Steady(s.objs[o])
    requires ByUser(a) && UpdateOf(s, a).Update? ==> UpdateOf(s, a).obj != o
    ensures o < |Step(s, a).objs| && Steady(Step(s, a).objs[o])
  {
    hide Step;
    if ByUser(a) {
      UserRuse(s, a, o);
    } else {
      SectionSteady(s, a, o);
    }
  }

  lemma SectionSteady(s: State, a: Action, o: nat)
    requires WF(s) && Enabled(s, a) && !ByUser(a) && o < |s.objs| && Steady(s.objs[o])
    ensures o < |Step(s, a).objs| && Steady(Step(s, a).objs[o])
  {
    hide CanTransit;
    ActorOK(s, a);
  }

  /** Only a caller without the lock can make a section lose an update: until one writes, a section reads
      what the count is. */
  lemma {:induction false} RunSectionsFresh(states: seq<State>, acts: seq<Action>, i: nat, w: nat, o: nat)
    requires IsRun(states, acts) && i <= w < |states| && o < |states[i].objs| && Steady(states[i].objs[o])
    requires forall k | i <= k < w :: !(UpdatesAt(states, acts, k, o) && ByUser(acts[k]))
    ensures o < |states[w].objs| && Steady(states[w].objs[o])
    ensures w < |acts| && !ByUser(acts[w]) ==> FreshAt(states, acts, w, o)
    decreases w
  {
    hide Step, WF, Steady;
    if i < w {
      RunSectionsFresh(states, acts, i, w - 1, o);
      assert Follows(states[w - 1], acts[w - 1], states[w - 1 + 1]);
      assert !(UpdatesAt(states, acts, w - 1, o) && ByUser(acts[w - 1]));
      SteadyStep(states[w - 1], acts[w - 1], o);
    }
    if w < |acts| && !ByUser(acts[w]) {
      assert Follows(states[w], acts[w], states[w + 1]);
      SectionReads(states[w], acts[w], o);
    }
  }

  lemma SectionReads(s: State, a: Action, o: nat)
    requires WF(s) && Enabled(s, a) && o < |s.objs| && Steady(s.objs[o]) && !ByUser(a)
    ensures Fresh(s, a, o)
  {
    ActorOK(s, a);
  }

  /** An update that no other one falls into loses nothing. */
  lemma AloneIsFresh(states: seq<State>, acts: seq<Action>, w: nat, o: nat)
    requires IsRun(states, acts) && w < |acts| && Alone(states, acts, w, o)
    ensures FreshAt(states, acts, w, o)
  {
    hide Step, WF;
    assert Follows(states[w], acts[w], states[w + 1]);
    if UpdatesAt(states, acts, w, o) && ByUser(acts[w]) {
      var r := SeenStays(states, acts, w, acts[w].u, o);
      assert LastBefore(acts, r, w);
    }
  }

  /** In every run in which no other update of an object's use count falls between the read and the write
      of one, the count is the number of its strong connections and outstanding holds. */
  lemma RunUndisturbedCounts(states: seq<State>, acts: seq<Action>, i: nat, o: nat)
    requires IsRun(states, acts) && i < |states| && o < |states[0].objs|
    requires forall w | 0 <= w < i :: Alone(states, acts, w, o)
    ensures CountOK(states[i], o)
  {
    hide Alone, CountOK, Follows;
    forall w | 0 <= w < i ensures FreshAt(states, acts, w, o) {
      AloneIsFresh(states, acts, w, o);
    }
    RunUseCounts(states, acts, i, o);
  }

  /** The sections alone never lose one: the count is right as long as no caller without the lock has
      written it. */
  lemma RunSectionCounts(states: seq<State>, acts: seq<Action>, i: nat, o: nat)
    requires IsRun(states, acts) && i < |states| && o < |states[0].objs|
    requires forall k | 0 <= k < i :: !(UpdatesAt(states, acts, k, o) && ByUser(acts[k]))
    ensures CountOK(states[i], o)
  {
    hide CountOK, Step, WF, Enabled;
    forall w | 0 <= w < i ensures FreshAt(states, acts, w, o) {
      assert Follows(states[w], acts[w], states[w + 1]);
      if ByUser(acts[w]) {
        assert !UpdatesAt(states, acts, w, o);
      } else {
        RunSectionsFresh(states, acts, 0, w, o);
      }
    }
    RunUseCounts(states, acts, i, o);
  }

  /** The deletes of the object that check its use count find it right. */
  ghost predicate ChecksRight(states: seq<State>, acts: seq<Action>, i: nat, o: nat)
    requires i <= |acts| && i < |states|
  {
    forall k | 0 <= k < i && ChecksAt(states[k], acts[k], o) :: CountOK(states[k], o)
  }

  predicate ChecksAt(s: State, a: Action, o: nat) {
    a.BusyCheck? && a.t < |s.threads| && s.threads[a.t].Busy? && s.threads[a.t].obj == o
  }

  lemma {:induction false} RunChecked(states: seq<State>, acts: seq<Action>, i: nat, o: nat)
    requires IsRun(states, acts) && i < |states| && o < |states[0].objs| && ChecksRight(states, acts, i, o)
    ensures CheckedOK(states[i], o)
  {
    hide CountOK, CheckedOK, Inv, Step, Enabled;
    if i == 0 {
      StartCount(states[0], o);
    } else {
      RunChecked(states, acts, i - 1, o);
      RunInv(states, acts, i - 1);
      InvFacts(states[i - 1]);
      assert Follows(states[i - 1], acts[i - 1], states[i - 1 + 1]);
      ChecksHere(states[i - 1], acts[i - 1], o);
      CheckedStep(states[i - 1], acts[i - 1], o);
    }
  }

  lemma ChecksHere(s: State, a: Action, o: nat)
    requires WF(s) && Enabled(s, a)
    ensures a.BusyCheck? && s.threads[a.t].obj == o ==> ChecksAt(s, a, o)
  {
  }

  /** In every run an object enters DELETED without a strong connection, if the use count that its delete
      checked was right then. */
  lemma RunDeletedBare(states: seq<State>, acts: seq<Action>, i: nat, o: nat)
    requires IsRun(states, acts) && i < |acts| && o < |states[0].objs| && ChecksRight(states, acts, i, o)
    requires !Deleted(states[i], o) && Deleted(states[i + 1], o)
    ensures StrongOf(states[i].recs, o) == {}
  {
    hide CountOK, IdsOK, Symmetric, LateOK, DeletedOK, Step;
    RunInv(states, acts, i);
    RunChecked(states, acts, i, o);
    assert Follows(states[i], acts[i], states[i + 1]);
    DeletedByCommit(states[i], acts[i], o);
    CommitsOwn(states[i], acts[i], o);
    assert NoStrong(states[i].recs, o);
  }

  // ---------------------------------------------------------------- closing from both ends

  /** Nothing of connection `cid` is left, nor will it come back. */
  ghost predicate Gone(s: State, cid: nat) {
    && cid < s.nextCid
    && (forall r | r in s.recs :: r.cid != cid)
    && (forall t | 0 <= t < |s.threads| :: NotOpening(FlightOf(s.threads[t]), cid))
  }

  /** The end of a disconnect leaves nothing of the connection. */
  lemma DisconnectCompletes(s: State, a: Action)
    requires Inv(s) && Enabled(s, a) && (a.SeekMate? || a.DeleteMate?)
    requires a.t < |Step(s, a).threads| && FlightOf(Step(s, a).threads[a.t]).NoFlight?
    ensures Gone(Step(s, a), s.threads[a.t].act.gone.cid)
  {
    hide Step, MonInv, Symmetric, LateOK, DeletedOK, FlightsApart;
    ActorOK(s, a);
    if a.SeekMate? {
      SeekEffect(s, a);
    } else {
      MateEffect(s, a);
    }
    var gone := s.threads[a.t].act.gone;
    assert FlightOK(s.recs, s.nextCid, FlightOf(s.threads[a.t]));
    OthersOpen(s, a.t, gone.cid);
    forall t | 0 <= t < |s.threads| && t != a.t ensures NotOpening(FlightOf(s.threads[t]), gone.cid) {
    }
  }

  /** When both ends of a connection are being disconnected at once, it is gone already. */
  lemma BothEndsGone(s: State, t: nat, u: nat)
    requires Inv(s) && t < |s.threads| && u < |s.threads|
    requires FlightOf(s.threads[t]).Closing? && FlightOf(s.threads[u]).Closing?
    requires IsMate(FlightOf(s.threads[t]).gone, FlightOf(s.threads[u]).gone)
    ensures Gone(s, FlightOf(s.threads[t]).gone.cid)
  {
    var cid := FlightOf(s.threads[t]).gone.cid;
    assert FlightOK(s.recs, s.nextCid, FlightOf(s.threads[t])) && FlightOK(s.recs, s.nextCid, FlightOf(s.threads[u]));
    forall i | 0 <= i < |s.threads| && i != t ensures NotOpening(FlightOf(s.threads[i]), cid) {
      assert FlightsApart(FlightOf(s.threads[i]), FlightOf(s.threads[t]));
    }
  }

  lemma GoneStays(s: State, a: Action, cid: nat)
    requires Inv(s) && Enabled(s, a) && Gone(s, cid)
    ensures Gone(Step(s, a), cid)
  {
    hide MonInv, Step, IdsOK, Symmetric, LateOK, DeletedOK;
    if Neutral(a) {
      NeutralEffect(s, a);
    } else {
      ActorOK(s, a);
      match a
      case Connect(_, _, _, _, _, _) => ConnectEffect(s, a);
      case Ask(t, _, _) =>
        if Accepts(s, a) {
          AcceptEffect(s, a);
          assert NotOpening(FlightOf(s.threads[t]), cid);
        } else {
          AskWaits(s, a);
        }
      case UndoNear(_, _) => UndoEffect(s, a);
      case Disconnect(_, _, _) => DisconnectEffect(s, a);
      case SeekMate(_) => SeekEffect(s, a);
      case DeleteMate(_, _) => MateEffect(s, a);
    }
  }

  // ---------------------------------------------------------------- exactly when deletion is unsafe

  /** addConnection looks at the current status only: an object that was deleted and is being printed
      takes the connection. */
  predicate AcceptsAfterDelete(s: State, a: Action)
    requires a.Ask? ==> a.t < |s.threads| && s.threads[a.t].Busy? && s.threads[a.t].act.Far?
    requires a.Ask? ==> s.threads[a.t].act.there.owner < |s.objs|
  {
    && Accepts(s, a)
    && s.objs[s.threads[a.t].act.there.owner].mon.status.PRINTING?
    && s.objs[s.threads[a.t].act.there.owner].mon.prev.DELETED?
  }

  ghost predicate NewMention(s: State, u: State) {
    exists r :: r in u.recs && r !in s.recs && Deleted(s, r.owner)
  }

  /** A deleted object gets a new connection exactly when it accepts one while being printed; in all
      other steps the set of late connections stays as it is. */
  lemma LateExactly(s: State, a: Action)
    requires Inv(s) && Enabled(s, a)
    requires a.Ask? ==> ThreadOK(s, s.threads[a.t])
    ensures NewMention(s, Step(s, a)) <==> AcceptsAfterDelete(s, a)
    ensures Step(s, a).late != s.late <==> AcceptsAfterDelete(s, a)
  {
    hide MonInv, Step, IdsOK, Symmetric, LateOK, DeletedOK, FlightChanged, SameFlights;
    if a.Ask? {
      LateExactlyAsk(s, a);
    } else {
      LateExactlyOther(s, a);
    }
  }

  lemma LateExactlyAsk(s: State, a: Action)
    requires Inv(s) && Enabled(s, a) && a.Ask? && ThreadOK(s, s.threads[a.t])
    ensures NewMention(s, Step(s, a)) <==> AcceptsAfterDelete(s, a)
    ensures Step(s, a).late != s.late <==> AcceptsAfterDelete(s, a)
  {
    hide Step, Symmetric, DeletedOK, FlightChanged;
    var near, there := s.threads[a.t].act.near, s.threads[a.t].act.there;
    assert OwnsAt(s, a.t);
    assert FlightOK(s.recs, s.nextCid, FlightOf(s.threads[a.t]));
    assert there !in s.recs && there !in s.late by {
      assert NotOpening(FlightOf(s.threads[a.t]), there.cid) ==> there !in s.late;
    }
    if Accepts(s, a) {
      AcceptedRest(s, there.owner);
      AcceptEffect(s, a);
      assert there in Step(s, a).recs;
    } else {
      AskWaits(s, a);
    }
  }

  lemma AcceptedRest(s: State, o: nat)
    requires MonInv(s) && o < |s.objs| && Reception(s.objs[o].mon).Accepted?
    ensures Rest(s.objs[o].mon).DELETED? <==> s.objs[o].mon.status.PRINTING? && s.objs[o].mon.prev.DELETED?
  {
    if !Resting(s.objs[o].mon.status) {
      assert OwnedAt(s, o);
      assert OwnsAt(s, s.objs[o].owner);
    }
  }

  lemma LateExactlyOther(s: State, a: Action)
    requires Inv(s) && Enabled(s, a) && !a.Ask?
    ensures !NewMention(s, Step(s, a)) && Step(s, a).late == s.late
  {
    hide Step, Symmetric, DeletedOK, FlightChanged, SameFlights, IdsOK, LateOK;
    if Neutral(a) {
      NeutralEffect(s, a);
    } else {
      ActorOK(s, a);
      match a
      case Connect(t, _, _, _, _, _) =>
        assert OwnsAt(s, t);
        ConnectEffect(s, a);
      case UndoNear(_, _) => UndoEffect(s, a);
      case Disconnect(_, _, _) => DisconnectEffect(s, a);
      case SeekMate(_) => SeekEffect(s, a);
      case DeleteMate(_, _) => MateEffect(s, a);
    }
  }

  // ---------------------------------------------------------------- exactly when a connection is half accepted

  /** A connect leaves its near end in the list exactly if its own side agrees. */
  lemma NearDecided(s: State, a: Action)
    requires Inv(s) && Enabled(s, a) && a.Connect?
    ensures var near := NearEnd(s, a.t, a.target, a.nearStrong);
            a.t < |Step(s, a).threads| && FlightOf(Step(s, a).threads[a.t]) == Opening(near.owner, near)
            && (near in Step(s, a).recs <==> a.may)
  {
    hide MonInv, Symmetric, LateOK, DeletedOK;
    ConnectEffect(s, a);
    var near := NearEnd(s, a.t, a.target, a.nearStrong);
    assert near in s.recs ==> near.cid < s.nextCid;
  }

  /** That does not change while the connection is being opened. */
  lemma NearStays(s: State, a: Action, i: nat)
    requires Inv(s) && Enabled(s, a) && i < |s.threads| && FlightOf(s.threads[i]).Opening?
    requires i < |Step(s, a).threads| && FlightOf(Step(s, a).threads[i]) == FlightOf(s.threads[i])
    ensures FlightOf(s.threads[i]).near in Step(s, a).recs <==> FlightOf(s.threads[i]).near in s.recs
  {
    hide Step, Symmetric, DeletedOK, LateOK, FlightsApart;
    var near := FlightOf(s.threads[i]).near;
    assert FlightOK(s.recs, s.nextCid, FlightOf(s.threads[i]));
    if Neutral(a) {
      NeutralEffect(s, a);
    } else {
      ActorOK(s, a);
      match a
      case Connect(t, target, ns, fs, may, _) => ConnectEffect(s, a);
      case Ask(t, _, _) =>
        if Accepts(s, a) {
          AcceptEffect(s, a);
        } else {
          AskWaits(s, a);
        }
      case UndoNear(t, _) =>
        UndoEffect(s, a);
        OthersOpen(s, t, s.threads[t].act.near.cid);
      case Disconnect(t, r, _) =>
        DisconnectEffect(s, a);
        if i != t {
          NotOpeningElsewhere(s, t, r, i);
          ApartOpening(FlightOf(s.threads[i]), Closing(r.owner, r, {}));
        }
      case SeekMate(t) => SeekEffect(s, a);
      case DeleteMate(t, _) =>
        MateEffect(s, a);
        OthersOpen(s, t, s.threads[t].act.gone.cid);
    }
  }

  /** A record with no other end, and no connection in flight to account for it. */
  ghost predicate Stray(s: State, r: Rec) {
    r in s.recs && !HasMate(s.recs, r) && !Excused(s, r)
  }

  ghost predicate NewStray(s: State, u: State) {
    exists r :: Stray(u, r) && r !in s.recs
  }

  /** A connection gets one end only exactly if the other side accepts what the initiator's own side has
      refused. */
  lemma HalfExactly(s: State, a: Action)
    requires Inv(s) && Enabled(s, a) && (a.Ask? ==> ThreadOK(s, s.threads[a.t]))
    ensures NewStray(s, Step(s, a)) <==> Accepts(s, a) && s.threads[a.t].act.near !in s.recs
  {
    hide Step, Symmetric, DeletedOK, LateOK, FlightChanged, SameFlights, HasMate, Excused;
    if a.Ask? {
      if Accepts(s, a) {
        AcceptedEnd(s, a);
      } else {
        AskWaits(s, a);
      }
    } else {
      StrayOther(s, a);
    }
  }

  /** The end that the other side accepts. */
  lemma AcceptedEnd(s: State, a: Action)
    requires Inv(s) && Enabled(s, a) && a.Ask? && ThreadOK(s, s.threads[a.t]) && Accepts(s, a)
    ensures var there := s.threads[a.t].act.there;
            && there !in s.recs && (forall r | r in Step(s, a).recs && r !in s.recs :: r == there)
            && (Stray(Step(s, a), there) <==> s.threads[a.t].act.near !in s.recs)
  {
    hide Step, Symmetric, DeletedOK, LateOK;
    var u, near, there := Step(s, a), s.threads[a.t].act.near, s.threads[a.t].act.there;
    assert OwnsAt(s, a.t);
    AcceptEffect(s, a);
    assert FlightOK(s.recs, s.nextCid, FlightOf(s.threads[a.t]));
    assert near in s.recs ==> IsMate(near, there);
    forall i | 0 <= i < |u.threads| ensures !Excuses(FlightOf(u.threads[i]), there) {
      if i != a.t {
        assert FlightsApart(FlightOf(s.threads[a.t]), FlightOf(s.threads[i]));
        assert FlightOK(s.recs, s.nextCid, FlightOf(s.threads[i]));
      }
    }
  }

  lemma StrayOther(s: State, a: Action)
    requires Inv(s) && Enabled(s, a) && !a.Ask?
    ensures !NewStray(s, Step(s, a))
  {
    hide Step, Symmetric, DeletedOK, LateOK, SameFlights, HasMate;
    if Neutral(a) {
      NeutralEffect(s, a);
    } else {
      ActorOK(s, a);
      match a
      case Connect(t, target, ns, fs, may, _) =>
        ConnectEffect(s, a);
        assert Excuses(FlightOf(Step(s, a).threads[t]), NearEnd(s, t, target, ns));
      case UndoNear(_, _) => UndoEffect(s, a);
      case Disconnect(_, _, _) => DisconnectEffect(s, a);
      case SeekMate(_) => SeekEffect(s, a);
      case DeleteMate(_, _) => MateEffect(s, a);
    }
  }

  lemma ApartOpening(f: Flight, g: Flight)
    requires FlightsApart(f, g) && f.Opening? && g.Closing?
    ensures f.near.cid != g.gone.cid
  {
  }

  lemma OthersOpen(s: State, t: nat, cid: nat)
    requires IdsOK(s) && t < |s.threads| && (FlightOf(s.threads[t]).Opening? || FlightOf(s.threads[t]).Closing?)
    requires cid == if FlightOf(s.threads[t]).Opening? then FlightOf(s.threads[t]).near.cid else FlightOf(s.threads[t]).gone.cid
    ensures forall i | 0 <= i < |s.threads| && i != t && FlightOf(s.threads[i]).Opening? :: FlightOf(s.threads[i]).near.cid != cid
  {
    forall i | 0 <= i < |s.threads| && i != t ensures FlightOf(s.threads[i]).Opening? ==> FlightOf(s.threads[i]).near.cid != cid {
      assert FlightsApart(FlightOf(s.threads[i]), FlightOf(s.threads[t]));
    }
  }

  // ---------------------------------------------------------------- where a run's records come from

  /** The step begins connection `cid`, and the initiator's own side says no. */
  predicate RefusesOwn(s: State, a: Action, cid: nat) {
    a.Connect? && !a.may && s.nextCid == cid
  }

  /** The step makes a deleted object that is being printed accept connection `cid`. */
  predicate AcceptsLate(s: State, a: Action, cid: nat) {
    && a.Ask? && a.t < |s.threads| && s.threads[a.t].Busy? && s.threads[a.t].act.Far?
    && s.threads[a.t].act.there.owner < |s.objs| && s.threads[a.t].act.there.cid == cid
    && AcceptsAfterDelete(s, a)
  }

  /** A connection begins to be opened by its Connect step. */
  lemma OpeningBegins(s: State, a: Action, t: nat)
    requires Inv(s) && Enabled(s, a) && t < |Step(s, a).threads| && FlightOf(Step(s, a).threads[t]).Opening?
    ensures t < |s.threads|
    ensures FlightOf(s.threads[t]) != FlightOf(Step(s, a).threads[t]) ==>
              a.Connect? && a.t == t
              && FlightOf(Step(s, a).threads[t]).near == NearEnd(s, t, a.target, a.nearStrong)
  {
    hide Step, MonInv, Symmetric, DeletedOK, LateOK, IdsOK;
    if Neutral(a) {
      NeutralEffect(s, a);
    } else {
      ActorOK(s, a);
      match a
      case Connect(_, _, _, _, _, _) => ConnectEffect(s, a);
      case Ask(_, _, _) =>
        if Accepts(s, a) {
          AcceptEffect(s, a);
        } else {
          AskWaits(s, a);
        }
      case UndoNear(_, _) => UndoEffect(s, a);
      case Disconnect(_, _, _) => DisconnectEffect(s, a);
      case SeekMate(_) => SeekEffect(s, a);
      case DeleteMate(_, _) => MateEffect(s, a);
    }
  }

  /** In every run: while a connection is being opened, its near end is listed exactly if the initiator's
      own side agreed when it began. */
  lemma {:induction false} RunNear(states: seq<State>, acts: seq<Action>, j: nat, t: nat) returns (k: nat)
    requires IsRun(states, acts) && j < |states| && t < |states[j].threads| && FlightOf(states[j].threads[t]).Opening?
    ensures k < j && acts[k].Connect? && acts[k].t == t
    ensures FlightOf(states[j].threads[t]).near.cid == states[k].nextCid
    ensures FlightOf(states[j].threads[t]).near in states[j].recs <==> acts[k].may
  {
    hide Inv, Step, Enabled;
    if j > 0 {
      var s, a := states[j - 1], acts[j - 1];
      RunInv(states, acts, j - 1);
      assert Follows(states[j - 1], acts[j - 1], states[j - 1 + 1]);
      OpeningBegins(s, a, t);
      if FlightOf(s.threads[t]) == FlightOf(states[j].threads[t]) {
        k := RunNear(states, acts, j - 1, t);
        NearStays(s, a, t);
      } else {
        k := j - 1;
        NearDecided(s, a);
      }
    } else {
      k := 0;
      NothingOpening(states[0], t);
    }
  }

  lemma NothingOpening(s: State, t: nat)
    requires s == Start(|s.objs|, |s.threads|, |s.uses|) && t < |s.threads|
    ensures FlightOf(s.threads[t]).NoFlight?
  {
  }

  /** What makes the history sets grow. */
  lemma HistoryGrows(s: State, a: Action, r: Rec)
    requires Inv(s) && Enabled(s, a)
    ensures r in Step(s, a).late && r !in s.late ==> AcceptsLate(s, a, r.cid)
    ensures r in Step(s, a).half && r !in s.half ==>
              a.Ask? && a.t < |s.threads| && FlightOf(s.threads[a.t]).Opening?
              && FlightOf(s.threads[a.t]).near.cid == r.cid && FlightOf(s.threads[a.t]).near !in s.recs
  {
    hide Step, Symmetric, DeletedOK, LateOK, FlightChanged, SameFlights;
    if Neutral(a) {
      NeutralEffect(s, a);
    } else {
      ActorOK(s, a);
      match a
      case Connect(_, _, _, _, _, _) => ConnectEffect(s, a);
      case Ask(t, _, _) =>
        if Accepts(s, a) {
          AcceptEffect(s, a);
          AcceptedRest(s, s.threads[t].act.there.owner);
        } else {
          AskWaits(s, a);
        }
      case UndoNear(_, _) => UndoEffect(s, a);
      case Disconnect(_, _, _) => DisconnectEffect(s, a);
      case SeekMate(_) => SeekEffect(s, a);
      case DeleteMate(_, _) => MateEffect(s, a);
    }
  }

  /** In every run a late connection was accepted by a deleted object that was being printed. */
  lemma {:induction false} RunLate(states: seq<State>, acts: seq<Action>, i: nat, r: Rec) returns (k: nat)
    requires IsRun(states, acts) && i < |states| && r in states[i].late
    ensures k < i && AcceptsLate(states[k], acts[k], r.cid)
  {
    hide Inv, Step, Enabled, AcceptsLate;
    k := 0;
    if i > 0 {
      RunInv(states, acts, i - 1);
      assert Follows(states[i - 1], acts[i - 1], states[i - 1 + 1]);
      HistoryGrows(states[i - 1], acts[i - 1], r);
      if r in states[i - 1].late {
        k := RunLate(states, acts, i - 1, r);
      } else {
        k := i - 1;
      }
    }
  }

  /** In every run the initiator of a half accepted connection had refused it. */
  lemma {:induction false} RunHalf(states: seq<State>, acts: seq<Action>, i: nat, r: Rec) returns (k: nat)
    requires IsRun(states, acts) && i < |states| && r in states[i].half
    ensures k < i && RefusesOwn(states[k], acts[k], r.cid)
  {
    hide Inv, Step, Enabled;
    k := 0;
    if i > 0 {
      RunInv(states, acts, i - 1);
      assert Follows(states[i - 1], acts[i - 1], states[i - 1 + 1]);
      HistoryGrows(states[i - 1], acts[i - 1], r);
      if r in states[i - 1].half {
        k := RunHalf(states, acts, i - 1, r);
      } else {
        k := RunNear(states, acts, i - 1, acts[i - 1].t);
      }
    }
  }

  /** Connection symmetry: at every point of every run, whatever else goes on, A has a record of a
      connection to B exactly if B has the other end to A, whenever the initiator agreed to it and it is
      not itself just being opened or closed. */
  lemma RunSymmetric(states: seq<State>, acts: seq<Action>, i: nat, r: Rec)
    requires IsRun(states, acts) && i < |states| && r in states[i].recs && !Excused(states[i], r)
    requires forall k | 0 <= k < i :: !RefusesOwn(states[k], acts[k], r.cid)
    ensures HasOtherEnd(states[i].recs, r)
  {
    hide Inv, Excused;
    RunInv(states, acts, i);
    if r in states[i].half {
      var k := RunHalf(states, acts, i, r);
    }
    BothEndsListed(states[i], r);
  }

  /** Safe deletion: at every point of every run, a record in the list of a deleted and cleared object
      belongs to a connection that it accepted while it was printed; a record of it in another's list
      belongs to one of those, to one that its own initiator had refused, or is itself just being opened or
      closed. */
  lemma RunSafeDeletion(states: seq<State>, acts: seq<Action>, i: nat, r: Rec, o: nat) returns (k: nat)
    requires IsRun(states, acts) && i < |states| && r in states[i].recs
    requires Deleted(states[i], o) && Cleared(states[i], o) && Mentions(r, o)
    requires r.owner != o ==> !Excused(states[i], r)
    ensures k < i && (AcceptsLate(states[k], acts[k], r.cid) || (r.owner != o && RefusesOwn(states[k], acts[k], r.cid)))
  {
    hide Inv, Excused, Cleared, Deleted, AcceptsLate;
    RunInv(states, acts, i);
    SafeDeletion(states[i], o, r);
    if r in states[i].late {
      k := RunLate(states, acts, i, r);
    } else {
      k := RunHalf(states, acts, i, r);
    }
  }

  /** In every run, if none of the connections that mention a deleted and cleared object fell into these
      two gaps, its own list is empty, and another list has it only in a connection that is just being
      opened or closed, whatever goes on elsewhere. */
  lemma ProperRunsAreSafe(states: seq<State>, acts: seq<Action>, i: nat, o: nat)
    requires IsRun(states, acts) && i < |states| && Deleted(states[i], o) && Cleared(states[i], o)
    requires forall k, r | 0 <= k < i && r in states[i].recs && Mentions(r, o) :: !AcceptsLate(states[k], acts[k], r.cid)
    requires forall k, r | 0 <= k < i && r in states[i].recs && r.oside == o :: !RefusesOwn(states[k], acts[k], r.cid)
    ensures OwnedBy(states[i].recs, o) == {}
    ensures forall r | r in states[i].recs && Mentions(r, o) :: Excused(states[i], r)
  {
    hide Cleared, Deleted, Excused, AcceptsLate, RefusesOwn, IsRun;
    forall r | r in states[i].recs && Mentions(r, o) ensures r.owner != o && Excused(states[i], r) {
      if r.owner == o || !Excused(states[i], r) {
        var k := RunSafeDeletion(states, acts, i, r, o);
      }
    }
  }

  // ---------------------------------------------------------------- disconnected for good, cleared in bounded time

  lemma {:induction false} RunGone(states: seq<State>, acts: seq<Action>, i: nat, j: nat, cid: nat)
    requires IsRun(states, acts) && i <= j < |states| && Gone(states[i], cid)
    ensures Gone(states[j], cid)
  {
    hide Inv, Step, Enabled, Gone;
    if i < j {
      RunGone(states, acts, i, j - 1, cid);
      RunInv(states, acts, j - 1);
      assert Follows(states[j - 1], acts[j - 1], states[j - 1 + 1]);
      GoneStays(states[j - 1], acts[j - 1], cid);
    }
  }

  /** In every run, once a disconnect has ended, or both ends are being disconnected at once, neither side
      has the connection, then or ever after. */
  lemma RunDisconnected(states: seq<State>, acts: seq<Action>, i: nat, j: nat, t: nat, u: nat, cid: nat)
    requires IsRun(states, acts) && i <= j < |states| && t < |states[i].threads| && u < |states[i].threads|
    requires FlightOf(states[i].threads[t]).Closing? && FlightOf(states[i].threads[t]).gone.cid == cid
    requires (i < j && t < |states[i + 1].threads| && FlightOf(states[i + 1].threads[t]).NoFlight?)
             || (FlightOf(states[i].threads[u]).Closing?
                 && IsMate(FlightOf(states[i].threads[t]).gone, FlightOf(states[i].threads[u]).gone))
    ensures forall r | r in states[j].recs :: r.cid != cid
  {
    hide Inv, Step, Enabled;
    RunInv(states, acts, i);
    if i < j && t < |states[i + 1].threads| && FlightOf(states[i + 1].threads[t]).NoFlight? {
      assert Follows(states[i], acts[i], states[i + 1]);
      ClosingEnds(states[i], acts[i], t);
      RunGone(states, acts, i + 1, j, cid);
    } else {
      BothEndsGone(states[i], t, u);
      RunGone(states, acts, i, j, cid);
    }
  }

  lemma ClosingEnds(s: State, a: Action, t: nat)
    requires Inv(s) && Enabled(s, a) && t < |s.threads| && FlightOf(s.threads[t]).Closing?
    requires t < |Step(s, a).threads| && FlightOf(Step(s, a).threads[t]).NoFlight?
    ensures Gone(Step(s, a), FlightOf(s.threads[t]).gone.cid)
  {
    hide Step, MonInv, Symmetric, DeletedOK, LateOK, IdsOK, Gone;
    if Neutral(a) {
      NeutralEffect(s, a);
    } else {
      ActorOK(s, a);
      match a
      case Connect(_, _, _, _, _, _) => ConnectEffect(s, a);
      case Ask(_, _, _) =>
        if Accepts(s, a) {
          AcceptEffect(s, a);
        } else {
          AskWaits(s, a);
        }
      case UndoNear(_, _) => UndoEffect(s, a);
      case Disconnect(_, _, _) => DisconnectEffect(s, a);
      case SeekMate(_) =>
        SeekEffect(s, a);
        DisconnectCompletes(s, a);
      case DeleteMate(_, _) =>
        MateEffect(s, a);
        DisconnectCompletes(s, a);
    }
  }

  /** How many of the steps from `i` to `j` are the thread's own, and at how many a late connection appears. */
  function OwnSteps(acts: seq<Action>, i: nat, j: nat, t: nat): nat
    requires i <= j <= |acts|
    decreases j
  {
    if i == j then 0
    else OwnSteps(acts, i, j - 1, t) + if !ByUser(acts[j - 1]) && acts[j - 1].t == t then 1 else 0
  }

  function LateSteps(states: seq<State>, i: nat, j: nat): nat
    requires i <= j < |states|
    decreases j
  {
    if i == j then 0 else LateSteps(states, i, j - 1) + if states[j].late == states[j - 1].late then 0 else 1
  }

  /** In every run the clearing of a deleted object ends: it takes at most three steps for each record that
      was in the list, and three for each connection that is accepted late meanwhile. */
  lemma {:induction false} RunCleaningBounded(states: seq<State>, acts: seq<Action>, i: nat, j: nat, t: nat)
    requires IsRun(states, acts) && i <= j < |states| && t < |states[i].threads| && states[i].threads[t].Cleaning?
    requires StillCleans(states[i], states[j], t) && forall k | i <= k <= j :: StillCleans(states[i], states[k], t)
    ensures OwnSteps(acts, i, j, t) + Left(states[j], t) <= Left(states[i], t) + 3 * LateSteps(states, i, j)
    decreases j
  {
    hide Inv, Step, Enabled, Left;
    if i < j {
      assert StillCleans(states[i], states[j - 1], t) && StillCleans(states[i], states[j], t);
      RunCleaningBounded(states, acts, i, j - 1, t);
      RunInv(states, acts, j - 1);
      InvFacts(states[j - 1]);
      assert Follows(states[j - 1], acts[j - 1], states[j - 1 + 1]);
      var a := acts[j - 1];
      if !ByUser(a) && a.t == t {
        CleaningStep(states[j - 1], a);
        OwnStepGoesOn(states[j - 1], a);
      } else {
        OthersStep(states[j - 1], a, t);
      }
    }
  }

  lemma OwnStepGoesOn(s: State, a: Action)
    requires WF(s) && Enabled(s, a) && !ByUser(a) && s.threads[a.t].Cleaning?
    requires a.t < |Step(s, a).threads| && Step(s, a).threads[a.t].Cleaning?
    ensures !a.CleanEnd?
  {
  }
}
