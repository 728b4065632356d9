/**
  The reader/writer protocol of `XList`, as a step machine on values.

  Nodes are numbered in push order; node 0 is the sentinel that `begin()` and
  `end()` are taken from.  Iterator objects are numbered in the order they are
  constructed; an iterator holds the number of the node it stands on, or NULL.
  One step is one of
    - an iterator operation made under the lock of the node it leaves,
    - one line of `push_back` or `xerase_prepare`, run by the single writer, or
    - one line of `xerase`, of which any number may be pending.
 */
module XListProtocol {

  const NULL: int := -1

  /** Where a node is between its creation and the end of the `xerase` that freed it. */
  datatype Phase =
    | New        // created by push_back; no node points at it
    | Linked     // reached along next from the sentinel
    | Unlinking  // unlinked, xerase_prepare has not returned
    | Prepared   // xerase_prepare returned true
    | XCopied    // xerase runs: it holds its own copy and the caller's count
    | XReleased  // the caller's count is released
    | WaitLock   // waitForUsage has yet to take the node's lock
    | Checked    // holds the node's lock, saw usageNO > 0
    | Asleep     // waits on usage_cond
    | OwesBoth   // freed; the counts on both old neighbours are still held
    | OwesPrev   // freed; the count on the old prev is still held
    | Gone       // freed and settled

  /** `stamp` and `horizon` are history: how many nodes were unlinked before this
      one, and how many nodes had been created when it was unlinked. */
  datatype Node = Node(next: nat, prev: nat, usage: int, erasing: bool, phase: Phase, stamp: nat, horizon: nat)

  /** The writer's position in `push_back` or `xerase_prepare`, and the node it works on. */
  datatype Writer =
    | Idle
    | PushA(node: nat)      // node created
    | PushB(node: nat)      // node counted once
    | PushC(node: nat)      // last.next redirected
    | PushD(node: nat)      // node counted twice
    | PrepCopy(node: nat)   // argument copied
    | PrepFalse(node: nat)  // erasing() answered false
    | PrepA(node: nat)      // erasing() answered true
    | PrepB(node: nat)      // prev counted
    | PrepC(node: nat)      // next.prev redirected
    | PrepD(node: nat)      // first release done
    | PrepE(node: nat)      // next counted
    | PrepF(node: nat)      // prev.next redirected
    | PrepG(node: nat)      // second release done

  datatype State = State(nodes: seq<Node>, iters: seq<int>, w: Writer, unlinks: nat)

  /** Iterator operations name iterators, erase steps the node that is erased; the writer
      and each pending `xerase` then know their own next line. */
  datatype Action =
    | NewIter
    | CopyInto(i: nat, j: nat)
    | Begin(i: nat)
    | End(i: nat)
    | Next(i: nat)
    | Prev(i: nat)
    | Fini(i: nat)
    | StartPush
    | StartPrepare(i: nat)
    | Write
    | StartErase(i: nat)
    | Erase(n: nat)
    | Wake(n: nat)

  // ---------------------------------------------------------------- fields

  predicate IsLinked(s: State, n: int) {
    0 <= n < |s.nodes| && s.nodes[n].phase.Linked?
  }

  /** Unlinked by some `xerase_prepare`. */
  predicate IsUnlinked(s: State, n: int) {
    0 <= n < |s.nodes| && Unlinked(s.nodes[n].phase)
  }

  predicate Unlinked(p: Phase) {
    !p.New? && !p.Linked?
  }

  predicate Freed(p: Phase) {
    p.OwesBoth? || p.OwesPrev? || p.Gone?
  }

  /** The node's lock is held outside a single step only by a waiter that is about to sleep. */
  predicate LockFree(s: State, n: nat)
    requires n < |s.nodes|
  {
    !s.nodes[n].phase.Checked?
  }

  function Bump(s: State, n: nat): State
    requires n < |s.nodes|
  {
    s.(nodes := s.nodes[n := s.nodes[n].(usage := s.nodes[n].usage + 1)])
  }

  /** `dec_usage`: a decrement that reaches zero signals the sleeping waiter. */
  function Drop(s: State, n: nat): State
    requires n < |s.nodes|
  {
    var u := s.nodes[n].usage - 1;
    var p := if u <= 0 && s.nodes[n].phase.Asleep? then WaitLock else s.nodes[n].phase;
    s.(nodes := s.nodes[n := s.nodes[n].(usage := u, phase := p)])
  }

  function SetNext(s: State, n: nat, v: nat): State
    requires n < |s.nodes|
  {
    s.(nodes := s.nodes[n := s.nodes[n].(next := v)])
  }

  function SetPrev(s: State, n: nat, v: nat): State
    requires n < |s.nodes|
  {
    s.(nodes := s.nodes[n := s.nodes[n].(prev := v)])
  }

  function SetPhase(s: State, n: nat, p: Phase): State
    requires n < |s.nodes|
  {
    s.(nodes := s.nodes[n := s.nodes[n].(phase := p)])
  }

  function SetIter(s: State, i: nat, v: int): State
    requires i < |s.iters|
  {
    s.(iters := s.iters[i := v])
  }

  // ---------------------------------------------------------------- well-formedness

  /** Every pointer and iterator names a node that was created. */
  predicate WF(s: State) {
    && |s.nodes| > 0
    && (forall n | 0 <= n < |s.nodes| :: s.nodes[n].next < |s.nodes| && s.nodes[n].prev < |s.nodes|)
    && (forall i | 0 <= i < |s.iters| :: NULL <= s.iters[i] < |s.nodes|)
    && (s.w.Idle? || s.w.node < |s.nodes|)
  }

  function Init(): State {
    State([Node(0, 0, 0, false, Linked, 0, 0)], [], Idle, 0)
  }

  // ---------------------------------------------------------------- iterator operations

  /** An iterator leaves its node for `to` while it holds the lock of the node it leaves. */
  function Move(s: State, i: nat, to: nat): State
    requires i < |s.iters| && 0 <= s.iters[i] < |s.nodes| && to < |s.nodes|
  {
    SetIter(Bump(Drop(s, s.iters[i]), to), i, to)
  }

  function Enter(s: State, i: nat, to: nat): State
    requires i < |s.iters| && to < |s.nodes|
  {
    SetIter(Bump(s, to), i, to)
  }

  function Leave(s: State, i: nat): State
    requires i < |s.iters| && s.iters[i] < |s.nodes|
  {
    if s.iters[i] < 0 then s else SetIter(Drop(s, s.iters[i]), i, NULL)
  }

  // ---------------------------------------------------------------- lines of push_back

  function Create(s: State): State
    requires |s.nodes| > 0
  {
    s.(nodes := s.nodes + [Node(0, s.nodes[0].prev, 0, false, New, 0, 0)], w := PushA(|s.nodes|))
  }

  function CountNew(s: State): State
    requires s.w.PushA? && s.w.node < |s.nodes|
  {
    Bump(s, s.w.node).(w := PushB(s.w.node))
  }

  /** last.next := node */
  function LinkLast(s: State): State
    requires s.w.PushB? && s.w.node < |s.nodes| && s.nodes[0].prev < |s.nodes|
  {
    SetPhase(SetNext(s, s.nodes[0].prev, s.w.node), s.w.node, Linked).(w := PushC(s.w.node))
  }

  function CountNewAgain(s: State): State
    requires s.w.PushC? && s.w.node < |s.nodes|
  {
    Bump(s, s.w.node).(w := PushD(s.w.node))
  }

  /** sentinel.prev := node */
  function CloseRing(s: State): State
    requires s.w.PushD? && s.w.node < |s.nodes|
  {
    SetPrev(s, 0, s.w.node).(w := Idle)
  }

  // ---------------------------------------------------------------- lines of xerase_prepare

  function CopyArgument(s: State, n: nat): State
    requires n < |s.nodes|
  {
    Bump(s, n).(w := PrepCopy(n))
  }

  function TestErasing(s: State): State
    requires s.w.PrepCopy? && s.w.node < |s.nodes|
  {
    if s.nodes[s.w.node].erasing then s.(w := PrepFalse(s.w.node))
    else s.(nodes := s.nodes[s.w.node := s.nodes[s.w.node].(erasing := true)], w := PrepA(s.w.node))
  }

  function CountPrev(s: State): State
    requires s.w.PrepA? && s.w.node < |s.nodes| && s.nodes[s.w.node].prev < |s.nodes|
  {
    Bump(s, s.nodes[s.w.node].prev).(w := PrepB(s.w.node))
  }

  /** next.prev := prev */
  function RedirectPrev(s: State): State
    requires s.w.PrepB? && s.w.node < |s.nodes| && s.nodes[s.w.node].next < |s.nodes|
  {
    SetPrev(s, s.nodes[s.w.node].next, s.nodes[s.w.node].prev).(w := PrepC(s.w.node))
  }

  function ReleaseOnce(s: State): State
    requires s.w.PrepC? && s.w.node < |s.nodes|
  {
    Drop(s, s.w.node).(w := PrepD(s.w.node))
  }

  function CountNext(s: State): State
    requires s.w.PrepD? && s.w.node < |s.nodes| && s.nodes[s.w.node].next < |s.nodes|
  {
    Bump(s, s.nodes[s.w.node].next).(w := PrepE(s.w.node))
  }

  function MarkUnlinked(s: State, n: nat): State
    requires n < |s.nodes|
  {
    s.(nodes := s.nodes[n := s.nodes[n].(phase := Unlinking, stamp := s.unlinks, horizon := |s.nodes|)],
       unlinks := s.unlinks + 1)
  }

  /** prev.next := next; from here no walk along next over linked nodes meets the node. */
  function RedirectNext(s: State): State
    requires s.w.PrepE? && s.w.node < |s.nodes| && s.nodes[s.w.node].prev < |s.nodes|
  {
    MarkUnlinked(SetNext(s, s.nodes[s.w.node].prev, s.nodes[s.w.node].next), s.w.node).(w := PrepF(s.w.node))
  }

  function ReleaseTwice(s: State): State
    requires s.w.PrepF? && s.w.node < |s.nodes|
  {
    Drop(s, s.w.node).(w := PrepG(s.w.node))
  }

  /** The destructor of the argument; the caller has the answer. */
  function LeaveTrue(s: State): State
    requires s.w.PrepG? && s.w.node < |s.nodes|
  {
    SetPhase(Drop(s, s.w.node), s.w.node, Prepared).(w := Idle)
  }

  function LeaveFalse(s: State): State
    requires s.w.PrepFalse? && s.w.node < |s.nodes|
  {
    Drop(s, s.w.node).(w := Idle)
  }

  // ---------------------------------------------------------------- lines of xerase

  /** xerase copies the caller's iterator `i`, which from here counts as reset. */
  function TakeOver(s: State, i: nat): State
    requires i < |s.iters| && 0 <= s.iters[i] < |s.nodes|
  {
    SetIter(SetPhase(Bump(s, s.iters[i]), s.iters[i], XCopied), i, NULL)
  }

  /** Releases a count of xerase on the node, without the lock and then with it. */
  function ReleaseAs(s: State, n: nat, p: Phase): State
    requires n < |s.nodes|
  {
    SetPhase(Drop(s, n), n, p)
  }

  /** Under the lock: free the node, or go to sleep if it is still in use. */
  function CheckUsage(s: State, n: nat): State
    requires n < |s.nodes|
  {
    SetPhase(s, n, if s.nodes[n].usage > 0 then Checked else OwesBoth)
  }

  /** After the free: release an old neighbour. */
  function GiveBack(s: State, n: nat, neighbour: nat, p: Phase): State
    requires n < |s.nodes| && neighbour < |s.nodes|
  {
    SetPhase(Drop(s, neighbour), n, p)
  }

  // ---------------------------------------------------------------- steps

  predicate WriterEnabled(s: State)
    requires WF(s)
  {
    match s.w
    case Idle => false
    case PushB(_) => LockFree(s, s.nodes[0].prev)
    case PushD(_) => LockFree(s, 0)
    case PrepB(k) => LockFree(s, s.nodes[k].next)
    case PrepE(k) => LockFree(s, s.nodes[k].prev)
    case PrepG(k) => LockFree(s, k)
    case PrepFalse(k) => LockFree(s, k)
    case _ => true
  }

  function WriterStep(s: State): (t: State)
    requires WF(s) && !s.w.Idle?
    ensures |t.nodes| == |s.nodes|
  {
    match s.w
    case PushA(_) => CountNew(s)
    case PushB(_) => LinkLast(s)
    case PushC(_) => CountNewAgain(s)
    case PushD(_) => CloseRing(s)
    case PrepCopy(_) => TestErasing(s)
    case PrepFalse(_) => LeaveFalse(s)
    case PrepA(_) => CountPrev(s)
    case PrepB(_) => RedirectPrev(s)
    case PrepC(_) => ReleaseOnce(s)
    case PrepD(_) => CountNext(s)
    case PrepE(_) => RedirectNext(s)
    case PrepF(_) => ReleaseTwice(s)
    case PrepG(_) => LeaveTrue(s)
  }

  predicate EraseEnabled(s: State, n: nat)
    requires WF(s)
  {
    n < |s.nodes| &&
    match s.nodes[n].phase
    case XCopied => true
    case XReleased => true
    case WaitLock => true
    case Checked => true
    case OwesBoth => LockFree(s, s.nodes[n].next)
    case OwesPrev => LockFree(s, s.nodes[n].prev)
    case _ => false
  }

  function EraseStep(s: State, n: nat): (t: State)
    requires WF(s) && EraseEnabled(s, n)
    ensures |t.nodes| == |s.nodes|
  {
    match s.nodes[n].phase
    case XCopied => ReleaseAs(s, n, XReleased)
    case XReleased => ReleaseAs(s, n, WaitLock)
    case WaitLock => CheckUsage(s, n)
    case Checked => SetPhase(s, n, Asleep)
    case OwesBoth => GiveBack(s, n, s.nodes[n].next, OwesPrev)
    case OwesPrev => GiveBack(s, n, s.nodes[n].prev, Gone)
  }

  predicate Enabled(s: State, a: Action)
    requires WF(s)
  {
    match a
    case NewIter => true
    case CopyInto(i, j) => i < |s.iters| && j < |s.iters| && s.iters[i] == NULL
    case Begin(i) => i < |s.iters| && s.iters[i] == NULL && LockFree(s, 0)
    case End(i) => i < |s.iters| && s.iters[i] == NULL
    case Next(i) => i < |s.iters| && s.iters[i] != NULL && LockFree(s, s.iters[i])
    case Prev(i) => i < |s.iters| && s.iters[i] != NULL && LockFree(s, s.iters[i])
    case Fini(i) => i < |s.iters| && (s.iters[i] == NULL || LockFree(s, s.iters[i]))
    case StartPush => s.w.Idle?
    case StartPrepare(i) => s.w.Idle? && i < |s.iters| && s.iters[i] > 0
    case Write => WriterEnabled(s)
    case StartErase(i) => i < |s.iters| && s.iters[i] > 0 && s.nodes[s.iters[i]].phase.Prepared?
    case Erase(n) => EraseEnabled(s, n)
    case Wake(n) => n < |s.nodes| && s.nodes[n].phase.Asleep?
  }

  function Step(s: State, a: Action): (t: State)
    requires WF(s) && Enabled(s, a)
    ensures |t.nodes| == |s.nodes| + if a.StartPush? then 1 else 0
  {
    match a
    case NewIter => s.(iters := s.iters + [NULL])
    case CopyInto(i, j) => if s.iters[j] == NULL then s else Enter(s, i, s.iters[j])
    case Begin(i) => Enter(s, i, s.nodes[0].next)
    case End(i) => Enter(s, i, 0)
    case Next(i) => Move(s, i, s.nodes[s.iters[i]].next)
    case Prev(i) => Move(s, i, s.nodes[s.iters[i]].prev)
    case Fini(i) => Leave(s, i)
    case StartPush => Create(s)
    case StartPrepare(i) => CopyArgument(s, s.iters[i])
    case Write => WriterStep(s)
    case StartErase(i) => TakeOver(s, i)
    case Erase(n) => EraseStep(s, n)
    case Wake(n) => SetPhase(s, n, WaitLock)
  }

  // ---------------------------------------------------------------- steps stay well-formed

  lemma WriterWF(s: State)
    requires WF(s) && WriterEnabled(s)
    ensures WF(WriterStep(s))
  {
  }

  lemma EraseWF(s: State, n: nat)
    requires WF(s) && EraseEnabled(s, n)
    ensures WF(EraseStep(s, n))
  {
  }

  /** Steps keep every pointer and iterator inside the created nodes, so `WF` never blocks a run. */
  lemma StepWF(s: State, a: Action)
    requires WF(s) && Enabled(s, a)
    ensures WF(Step(s, a))
  {
    hide WriterStep, EraseStep;
    match a
    case Write => WriterWF(s);
    case Erase(n) => EraseWF(s, n);
    case _ =>
  }
}
