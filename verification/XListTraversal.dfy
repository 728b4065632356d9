/**
  Readers of `XList` are complete: a forward walk from `begin()`, whatever writers and erasers do
  meanwhile, visits every node that stays in the list, each once and in order.
 */
module XListTraversal {
  import opened XListProtocol
  import opened XListCounts
  import opened XListInvariant
  import opened XListCountSteps
  import opened XListShapeSteps
  import opened XListSafety
  import opened XListMemory
  import opened XListRefinement

  // ---------------------------------------------------------------- how nodes evolve

  /** Nodes below `Joined(s)` never come back, unlinked ones keep stamp and horizon, and those
      unlinked by the step are stamped after all others. */
  ghost predicate Evolves(s: State, t: State) {
    && |s.nodes| <= |t.nodes| && Joined(s) <= Joined(t) && s.unlinks <= t.unlinks
    && (forall n | IsLinked(t, n) && n < Joined(s) :: s.nodes[n].phase.Linked?)
    && (forall n | IsUnlinked(s, n) ::
          Unlinked(t.nodes[n].phase)
          && t.nodes[n].stamp == s.nodes[n].stamp && t.nodes[n].horizon == s.nodes[n].horizon)
    && (forall n | IsUnlinked(t, n) :: n < |s.nodes| &&
          (Unlinked(s.nodes[n].phase) || (t.nodes[n].stamp >= s.unlinks && t.nodes[n].horizon >= Joined(s))))
  }

  lemma SameNodesEvolve(s: State, t: State)
    requires SameNodes(s, t) && PushEarly(s.w) == PushEarly(t.w)
    ensures Evolves(s, t)
  {
    assert forall n | 0 <= n < |s.nodes| :: SameNode(s.nodes[n], t.nodes[n]);
  }

  lemma WriterEvolves(s: State)
    requires Inv(s) && WriterEnabled(s)
    ensures Evolves(s, WriterStep(s))
  {
    hide Inv, SameNodes, SameMarks, UnlinkedKept, OneMoreUnlinked, SameForward, WriterInRange;
    WriterFacts(s);
    match s.w
    case PushB(_) =>
      NewIsLast(s);
      NewIsTop(s);
      LinkLastKeeps(s);
      KeptEvolves(s, LinkLast(s));
    case PushD(_) =>
      CloseRingKeeps(s);
      KeptEvolves(s, CloseRing(s));
    case PrepCopy(_) =>
      ArgumentFacts(s);
      TestErasingKeeps(s);
      SameNodesEvolve(s, TestErasing(s));
    case PrepB(_) =>
      RedirectPrevKeeps(s);
      KeptEvolves(s, RedirectPrev(s));
    case PrepE(_) =>
      NotOwnPrev(s);
      RedirectNextKeeps(s);
      UnlinkEvolves(s, RedirectNext(s));
    case PrepG(_) => SameNodesEvolve(s, LeaveTrue(s)) by { LeaveTrueKeeps(s); }
    case Idle =>
    case _ =>
      ArgumentFacts(s);
      CountingKeeps(s);
      SameNodesEvolve(s, WriterStep(s));
  }

  lemma NewIsTop(s: State)
    requires Inv(s) && s.w.PushB?
    ensures s.w.node == |s.nodes| - 1 && s.nodes[s.w.node].phase.New?
  {
  }

  lemma ArgumentFacts(s: State)
    requires Inv(s) && !s.w.Idle?
    ensures WriterInRange(s)
    ensures s.w.PrepCopy? ==> s.w.node > 0 && InRange(s) && !s.nodes[s.w.node].phase.New?
  {
    WriterNodeOK(s);
  }

  lemma LeaveTrueKeeps(s: State)
    requires s.w.PrepG? && s.w.node < |s.nodes| && s.nodes[s.w.node].phase.Unlinking?
    ensures SameNodes(s, LeaveTrue(s))
  {
  }

  lemma KeptEvolves(s: State, t: State)
    requires WF(s) && UnlinkedKept(s, t)
    ensures Evolves(s, t)
  {
    forall n | IsUnlinked(s, n)
      ensures Unlinked(t.nodes[n].phase)
      ensures t.nodes[n].stamp == s.nodes[n].stamp && t.nodes[n].horizon == s.nodes[n].horizon
    {
      assert IsUnlinked(t, n);
    }
  }

  lemma UnlinkEvolves(s: State, t: State)
    requires WF(s) && s.w.PrepE? && OneMoreUnlinked(s, t, s.w.node)
    ensures Evolves(s, t)
  {
  }

  lemma CreateEvolves(s: State)
    requires WF(s) && s.w.Idle?
    ensures Evolves(s, Create(s))
  {
  }

  lemma StepEvolves(s: State, a: Action)
    requires Inv(s) && Enabled(s, a)
    ensures Evolves(s, Step(s, a))
  {
    hide Inv, WriterStep, EraseStep, SameNodes, SameMarks, Create, CopyArgument, Evolves;
    WriterFacts(s);
    match a
    case Write => WriterEvolves(s);
    case StartPush => CreateEvolves(s);
    case StartPrepare(i) => SameNodesEvolve(s, CopyArgument(s, s.iters[i])) by { CopyKeeps(s, s.iters[i]); }
    case Erase(n) =>
      EraseKeeps(s, n);
      SameNodesEvolve(s, EraseStep(s, n));
    case _ =>
      OthersKeep(s, a);
      SameNodesEvolve(s, Step(s, a));
  }

  lemma CopyKeeps(s: State, n: nat)
    requires n < |s.nodes| && s.w.Idle?
    ensures SameNodes(s, CopyArgument(s, n)) && !PushEarly(CopyArgument(s, n).w)
  {
  }

  // ---------------------------------------------------------------- a traversal

  /** The action neither moves nor reassigns iterator `r`. */
  predicate Leaves(a: Action, r: nat) {
    match a
    case CopyInto(i, _) => i != r
    case Begin(i) => i != r
    case End(i) => i != r
    case Next(i) => i != r
    case Prev(i) => i != r
    case Fini(i) => i != r
    case StartErase(i) => i != r
    case _ => true
  }

  /** From `s0` iterator `r` is taken from begin() and then only advanced, until it reaches the end;
      every other step is arbitrary. */
  ghost predicate IsTraversal(states: seq<State>, acts: seq<Action>, r: nat) {
    && |states| == |acts| + 1 && |acts| > 0
    && Inv(states[0])
    && (forall i | 0 <= i < |acts| :: Follows(states[i], acts[i], states[i + 1]))
    && acts[0] == Begin(r)
    && forall i | 0 < i < |acts| :: Leaves(acts[i], r) || Advances(states[i], acts[i], r)
  }

  predicate Advances(s: State, a: Action, r: nat) {
    a == Next(r) && r < |s.iters| && s.iters[r] != 0
  }

  /** The nodes that iterator `r` has come to stand on in the first `m` steps. */
  ghost function Visited(states: seq<State>, acts: seq<Action>, r: nat, m: nat): seq<nat>
    requires |states| == |acts| + 1 && m <= |acts|
  {
    if m == 0 then []
    else Visited(states, acts, r, m - 1) + Arrival(acts[m - 1], states[m], r)
  }

  function Arrival(a: Action, t: State, r: nat): seq<nat> {
    if (a == Begin(r) || a == Next(r)) && r < |t.iters| && t.iters[r] > 0 then [t.iters[r]] else []
  }

  predicate Increasing(v: seq<nat>) {
    forall i, j | 0 <= i < j < |v| :: v[i] < v[j]
  }

  // ---------------------------------------------------------------- the traversal's invariant

  /** Linked, or unlinked since `e0` nodes had been unlinked. */
  predicate Fresh(nd: Node, e0: nat) {
    nd.phase.Linked? || (Unlinked(nd.phase) && nd.stamp >= e0)
  }

  /** What the whole state owes to the moment `s0` of begin(). */
  ghost predicate Since(s0: State, s: State) {
    && |s0.nodes| <= |s.nodes| && Joined(s0) <= Joined(s) && s0.unlinks <= s.unlinks
    && (forall n | IsLinked(s, n) && n < Joined(s0) :: s0.nodes[n].phase.Linked?)
    && (forall n | IsUnlinked(s0, n) :: Unlinked(s.nodes[n].phase) && s.nodes[n].stamp == s0.nodes[n].stamp)
    && (forall n | IsUnlinked(s, n) && s.nodes[n].stamp >= s0.unlinks :: s.nodes[n].horizon >= Joined(s0))
  }

  lemma SinceStart(s: State)
    requires Inv(s)
    ensures Since(s, s)
  {
  }

  lemma SinceStep(s0: State, s: State, t: State)
    requires Since(s0, s) && Evolves(s, t)
    ensures Since(s0, t)
  {
    forall n | IsLinked(t, n) && n < Joined(s0) ensures s0.nodes[n].phase.Linked? {
      assert IsLinked(s, n);
    }
    forall n | IsUnlinked(s0, n) ensures Unlinked(t.nodes[n].phase) && t.nodes[n].stamp == s0.nodes[n].stamp {
      assert IsUnlinked(s, n);
    }
    forall n | IsUnlinked(t, n) && t.nodes[n].stamp >= s0.unlinks ensures t.nodes[n].horizon >= Joined(s0) {
      assert Unlinked(s.nodes[n].phase) ==> IsUnlinked(s, n);
    }
  }

  /** Where the reader stands and what it has visited. */
  ghost predicate Reading(s0: State, s: State, p: int, v: seq<nat>) {
    && 0 <= p < |s.nodes|
    && Increasing(v)
    && (forall i | 0 <= i < |v| :: 0 < v[i] < |s.nodes| && !IsUnlinked(s0, v[i]))
    && (p > 0 ==> |v| > 0 && v[|v| - 1] == p && Fresh(s.nodes[p], s0.unlinks))
    && (forall x | IsLinked(s, x) && 0 < x < Joined(s0) :: x in v || (0 < p < x))
  }

  lemma ReadingKept(s0: State, s: State, t: State, p: int, v: seq<nat>)
    requires Since(s0, s) && Evolves(s, t) && Reading(s0, s, p, v)
    requires p > 0 ==> !t.nodes[p].phase.New?
    ensures Reading(s0, t, p, v)
  {
    forall x | IsLinked(t, x) && 0 < x < Joined(s0) ensures x in v || (0 < p < x) {
      assert IsLinked(s, x);
    }
    if p > 0 {
      assert IsUnlinked(s, p) || s.nodes[p].phase.Linked?;
      assert IsUnlinked(t, p) || t.nodes[p].phase.Linked?;
    }
  }

  /** Along next a fresh node skips nothing that was in the list at begin() and still is. */
  lemma NextCovers(s0: State, s: State, p: nat, x: nat)
    requires Inv(s) && Since(s0, s) && p < |s.nodes| && Fresh(s.nodes[p], s0.unlinks)
    requires IsLinked(s, x) && p < x < Joined(s0)
    ensures 0 < s.nodes[p].next <= x
  {
    assert IsLinked(s, p) || IsUnlinked(s, p);
  }

  /** Along next a fresh node leads to a fresh and newer node, or to the end. */
  lemma NextFresh(s0: State, s: State, p: nat)
    requires Inv(s) && p < |s.nodes| && Fresh(s.nodes[p], s0.unlinks)
    ensures Fresh(s.nodes[s.nodes[p].next], s0.unlinks)
    ensures s.nodes[p].next == 0 || p < s.nodes[p].next
  {
    assert IsLinked(s, p) || IsUnlinked(s, p);
  }

  lemma FreshNotOld(s0: State, s: State, q: nat)
    requires Inv(s0) && Since(s0, s) && q < |s.nodes| && Fresh(s.nodes[q], s0.unlinks)
    ensures !IsUnlinked(s0, q)
  {
  }

  /** The reader moves from `p` (the sentinel at first) to its successor. */
  lemma ReadingAdvances(s0: State, s: State, p: nat, v: seq<nat>)
    requires Inv(s0) && Inv(s) && Since(s0, s) && p < |s.nodes| && Fresh(s.nodes[p], s0.unlinks)
    requires if p == 0 then v == [] else Reading(s0, s, p, v)
    ensures var q := s.nodes[p].next; Reading(s0, s, q, if q > 0 then v + [q] else v)
  {
    hide Inv, Since, Fresh, IsUnlinked;
    var q := s.nodes[p].next;
    var v' := if q > 0 then v + [q] else v;
    InvWF(s);
    NextFresh(s0, s, p);
    FreshNotOld(s0, s, q);
    forall x | IsLinked(s, x) && 0 < x < Joined(s0) ensures x in v' || (0 < q < x) {
      if x !in v {
        NextCovers(s0, s, p, x);
        assert q == x ==> v'[|v|] == x;
      }
    }
  }

  // ---------------------------------------------------------------- one step of the traversal

  lemma IterLeft(s: State, a: Action, r: nat)
    requires WF(s) && Enabled(s, a) && r < |s.iters| && Leaves(a, r)
    ensures r < |Step(s, a).iters| && Step(s, a).iters[r] == s.iters[r]
  {
    hide WriterStep, EraseStep;
    match a
    case Write => WriterIters(s);
    case Erase(n) => EraseIters(s, n);
    case _ =>
  }

  lemma WriterIters(s: State)
    requires WF(s) && !s.w.Idle?
    ensures WriterStep(s).iters == s.iters
  {
  }

  lemma EraseIters(s: State, n: nat)
    requires WF(s) && EraseEnabled(s, n)
    ensures EraseStep(s, n).iters == s.iters
  {
  }

  lemma NotNewAgain(s: State, t: State, p: nat)
    requires Inv(t) && Evolves(s, t) && p < |s.nodes| && !s.nodes[p].phase.New?
    requires p < Joined(s)
    ensures !t.nodes[p].phase.New?
  {
    assert t.nodes[p].phase.New? ==> Joined(t) == p;
  }

  lemma NewIsUnjoined(s: State, p: nat)
    requires Inv(s) && p < |s.nodes| && !s.nodes[p].phase.New?
    ensures p < Joined(s)
  {
  }

  lemma ReadingStep(s0: State, s: State, a: Action, r: nat, v: seq<nat>)
    requires Inv(s0) && Inv(s) && WF(s) && Since(s0, s) && Enabled(s, a) && r < |s.iters|
    requires Reading(s0, s, s.iters[r], v)
    requires Leaves(a, r) || Advances(s, a, r)
    ensures r < |Step(s, a).iters|
    ensures Reading(s0, Step(s, a), Step(s, a).iters[r], v + if Leaves(a, r) then [] else Arrival(a, Step(s, a), r))
  {
    hide Inv, Since, Evolves, Reading, WF;
    var t := Step(s, a);
    InvStep(s, a);
    StepEvolves(s, a);
    ReaderFresh(s0, s, s.iters[r], v);
    if Leaves(a, r) {
      IterLeft(s, a, r);
      ReadingKeptAt(s0, s, t, s.iters[r], v);
      assert v + [] == v;
    } else {
      var q := s.nodes[s.iters[r]].next;
      ReadingAdvances(s0, s, s.iters[r], v);
      var v' := if q > 0 then v + [q] else v;
      ReadingKeptAt(s0, s, t, q, v');
      assert v + [] == v;
    }
  }

  lemma ReaderFresh(s0: State, s: State, p: int, v: seq<nat>)
    requires Inv(s) && Reading(s0, s, p, v)
    ensures 0 <= p < |s.nodes| && Fresh(s.nodes[p], s0.unlinks)
  {
    SentinelLinked(s);
  }

  lemma ReadingKeptAt(s0: State, s: State, t: State, p: int, v: seq<nat>)
    requires Inv(s) && Inv(t) && Since(s0, s) && Evolves(s, t) && Reading(s0, s, p, v)
    ensures Reading(s0, t, p, v)
  {
    hide Inv, Since, Evolves;
    ReaderFresh(s0, s, p, v);
    EvolvesGrows(s, t);
    if p > 0 {
      NewIsUnjoined(s, p);
      NotNewAgain(s, t, p);
    }
    ReadingKept(s0, s, t, p, v);
  }

  lemma EvolvesGrows(s: State, t: State)
    requires Evolves(s, t)
    ensures |s.nodes| <= |t.nodes|
  {
  }

  lemma ReadingBegins(s: State, r: nat)
    requires Inv(s) && WF(s) && Enabled(s, Begin(r))
    ensures var t := Step(s, Begin(r));
            r < |t.iters| && Reading(s, t, t.iters[r], Arrival(Begin(r), t, r)) && Since(s, t)
  {
    hide Inv, Since, Evolves, Reading;
    var t := Step(s, Begin(r));
    InvStep(s, Begin(r));
    StepEvolves(s, Begin(r));
    SinceStart(s);
    SinceStep(s, s, t);
    SentinelFresh(s);
    ReadingAdvances(s, s, 0, []);
    var q := s.nodes[0].next;
    assert Arrival(Begin(r), t, r) == if q > 0 then [] + [q] else [];
    ReadingKeptAt(s, s, t, q, Arrival(Begin(r), t, r));
  }

  lemma SentinelFresh(s: State)
    requires Inv(s)
    ensures 0 < |s.nodes| && Fresh(s.nodes[0], s.unlinks)
  {
    SentinelLinked(s);
  }

  // ---------------------------------------------------------------- the theorem

  lemma {:induction false} TraversalInv(states: seq<State>, acts: seq<Action>, r: nat, m: nat)
    requires IsTraversal(states, acts, r) && 0 < m <= |acts|
    ensures Inv(states[m]) && Since(states[0], states[m])
    ensures r < |states[m].iters|
    ensures Reading(states[0], states[m], states[m].iters[r], Visited(states, acts, r, m))
    decreases m
  {
    hide Inv, Since, Reading, Step, Enabled, WF, Leaves, Advances, Arrival, Evolves;
    assert Follows(states[m - 1], acts[m - 1], states[m - 1 + 1]);
    if m == 1 {
      assert Visited(states, acts, r, 0) == [];
      assert Visited(states, acts, r, 1) == Arrival(acts[0], states[1], r);
      ReadingBegins(states[0], r);
      InvStep(states[0], acts[0]);
    } else {
      TraversalInv(states, acts, r, m - 1);
      InvStep(states[m - 1], acts[m - 1]);
      StepEvolves(states[m - 1], acts[m - 1]);
      SinceStep(states[0], states[m - 1], states[m]);
      ReadingStep(states[0], states[m - 1], acts[m - 1], r, Visited(states, acts, r, m - 1));
      ArrivalOnlyIfMoved(states[m - 1], acts[m - 1], states[m], r);
    }
  }

  lemma ArrivalOnlyIfMoved(s: State, a: Action, t: State, r: nat)
    requires Leaves(a, r) || Advances(s, a, r)
    ensures Arrival(a, t, r) == if Leaves(a, r) then [] else Arrival(a, t, r)
  {
  }

  /** Reader completeness.  When the walk reaches the end it has visited every node that was in the
      list at begin() and still is, no node that was unlinked before begin(), and no node twice; the
      order is that of the list. */
  lemma ReaderComplete(states: seq<State>, acts: seq<Action>, r: nat)
    requires IsTraversal(states, acts, r)
    requires r < |states[|acts|].iters| && states[|acts|].iters[r] == 0
    ensures forall x | x in Content(states[0]) && IsLinked(states[|acts|], x) :: x in Visited(states, acts, r, |acts|)
    ensures forall x | x in Visited(states, acts, r, |acts|) :: !IsUnlinked(states[0], x)
    ensures Increasing(Visited(states, acts, r, |acts|))
  {
    hide Inv, Since, Visited, Content, Follows, Leaves, Advances;
    TraversalInv(states, acts, r, |acts|);
    var s := states[|acts|];
    forall x | x in Content(states[0]) && IsLinked(s, x)
      ensures x in Visited(states, acts, r, |acts|)
    {
      ContentMembers(states[0], x);
      NewIsUnjoined(states[0], x);
    }
  }

  /** A walk ends: it can advance at most as many times as nodes have been created. */
  lemma WalkBounded(states: seq<State>, acts: seq<Action>, r: nat, m: nat)
    requires IsTraversal(states, acts, r) && 0 < m <= |acts|
    ensures |Visited(states, acts, r, m)| < |states[m].nodes|
  {
    hide Inv, Since, Visited, Follows, Leaves, Advances;
    TraversalInv(states, acts, r, m);
    IncreasingBounded(Visited(states, acts, r, m), |states[m].nodes|);
  }

  lemma {:induction false} IncreasingBounded(v: seq<nat>, bound: nat)
    requires Increasing(v) && (forall i | 0 <= i < |v| :: 0 < v[i] < bound) && bound > 0
    ensures |v| < bound
  {
    if v != [] {
      IncreasingBounded(v[..|v| - 1], v[|v| - 1]);
    }
  }
}
