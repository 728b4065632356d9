/**
  The statuses of an `XObject` and the table of transitions between them.
 */
module XObjectStatus {

  datatype Status =
    | LOADED | ADDING | NORMAL | MODIFYING | DELETING
    | DELETED | SCANNING | QUERYING | RELOADING | PRINTING

  /** From one status to another: at once, after waiting for a change, or not at all. */
  datatype Transition = D | W | N

  function Index(s: Status): (i: nat)
    ensures i < 10
  {
    match s
    case LOADED => 0
    case ADDING => 1
    case NORMAL => 2
    case MODIFYING => 3
    case DELETING => 4
    case DELETED => 5
    case SCANNING => 6
    case QUERYING => 7
    case RELOADING => 8
    case PRINTING => 9
  }

  function Row(from: Status): (row: seq<Transition>)
    ensures |row| == 10
  {
    match from
    case LOADED =>    [N, D, N, N, D, N, N, D, D, D]
    case ADDING =>    [D, W, D, W, W, N, W, W, W, W]
    case NORMAL =>    [N, N, N, D, D, N, D, D, N, D]
    case MODIFYING => [N, N, D, W, W, N, W, W, N, W]
    case DELETING =>  [N, N, D, W, W, D, W, W, N, W]
    case DELETED =>   [N, N, N, N, N, N, N, N, N, D]
    case SCANNING =>  [N, N, D, W, W, N, W, W, N, W]
    case QUERYING =>  [D, N, D, W, W, N, W, W, N, W]
    case RELOADING => [D, W, N, N, N, N, N, N, W, W]
    case PRINTING =>  [D, W, D, W, W, D, W, W, W, W]
  }

  function CanTransit(from: Status, to: Status): Transition {
    Row(from)[Index(to)]
  }

  /** Between operations. */
  predicate Resting(s: Status) {
    s.LOADED? || s.NORMAL? || s.DELETED?
  }

  /** Nobody waits on a resting object, an operation is entered only from a resting status, and between
      resting statuses nothing changes without an operation. */
  lemma RestingRows(from: Status, to: Status)
    ensures Resting(from) ==> !CanTransit(from, to).W?
    ensures !Resting(to) && CanTransit(from, to).D? ==> Resting(from)
    ensures Resting(from) && Resting(to) ==> CanTransit(from, to).N?
  {
  }

  /** Which resting statuses an operation can be entered from. */
  function Origins(op: Status): set<Status>
    requires !Resting(op)
  {
    match op
    case ADDING => {LOADED}
    case RELOADING => {LOADED}
    case MODIFYING => {NORMAL}
    case SCANNING => {NORMAL}
    case DELETING => {LOADED, NORMAL}
    case QUERYING => {LOADED, NORMAL}
    case PRINTING => {LOADED, NORMAL, DELETED}
  }

  /** Going back to where an operation came from is a direct transition of the table, but for a
      delete of a loaded object that is given up; so are the ends of an addition and of a delete, and
      from no operation is there a direct transition to another. */
  lemma ReturnsAreDirect(from: Status, op: Status)
    requires !Resting(op)
    ensures CanTransit(ADDING, NORMAL).D? && CanTransit(DELETING, DELETED).D?
    ensures CanTransit(op, from).D? ==> Resting(from)
    ensures CanTransit(from, op).D? <==> from in Origins(op)
    ensures from in Origins(op) ==>
              (CanTransit(op, from).D? <==> !(op.DELETING? && from.LOADED?))
  {
  }

  /** Which resting statuses an operation can end in: where it came from, and what an addition and a delete
      are for. */
  function EndsIn(op: Status): set<Status>
    requires !Resting(op)
  {
    Origins(op) + if op.ADDING? then {NORMAL} else if op.DELETING? then {DELETED} else {}
  }

  /** The operations that are given up at once although the one that is on may end where they begin: an
      addition or a reload meets a delete or a query, a delete or a query meets a reload. */
  predicate GivesUp(on: Status, op: Status) {
    || ((on.DELETING? || on.QUERYING?) && (op.ADDING? || op.RELOADING?))
    || (on.RELOADING? && (op.DELETING? || op.QUERYING?))
  }

  /** The operation that is on may end in a status that the other one can be entered from. */
  predicate WorthWaiting(on: Status, op: Status)
    requires !Resting(on) && !Resting(op)
  {
    EndsIn(on) * Origins(op) != {} && !GivesUp(on, op)
  }

  /** While an operation is on, another one waits for its end exactly if that may let it in, and is given up
      otherwise. */
  lemma WaitingIsWorthwhile(on: Status, op: Status)
    requires !Resting(on) && !Resting(op)
    ensures CanTransit(on, op).W? <==> WorthWaiting(on, op)
    ensures !CanTransit(on, op).D?
  {
    if CanTransit(on, op).W? {
      assert LOADED in EndsIn(on) * Origins(op) || NORMAL in EndsIn(on) * Origins(op);
    }
  }

  /** An operation goes at once to every status that it can end in, but for a delete of a loaded object,
      and to no other resting one. */
  lemma EndsAreDirect(op: Status, to: Status)
    requires !Resting(op) && Resting(to)
    ensures CanTransit(op, to).D? <==> to in EndsIn(op) && !(op.DELETING? && to.LOADED?)
    ensures !CanTransit(op, to).W?
  {
  }
}
