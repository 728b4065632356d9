# PParam, verified

PParam is a C++ library of typed parameters.  This project models four parts of it in Dafny and proves
what each is for.

1. **`XList`**: a doubly linked list that readers walk without stopping writers.  Iterators count the
   node they stand on; `xerase_prepare` unlinks a node that readers may still stand on, and `xerase`
   waits until nobody uses it, frees it and drops the counts it held on its old neighbours.
   `XListProtocol` is a step machine in which every line of a writer is a step of its own, with any
   number of readers, one writer at a time and any number of pending frees; the other `XList*` modules
   prove its invariant, memory safety, refinement of a sequence, completeness of readers' walks and the
   draining of pending frees.  `XLists` has the classes, whose methods update fields in place, line by
   line the protocol's steps.
2. **`XObject`**: a monitor driven by a ten by ten table of status transitions, and a two-sided
   protocol of connections.  `XObjectProtocol` is a machine of threads over objects; the other
   `XObject*` modules prove what each step comes to, mutual exclusion, absence of lost wake-ups and deadlock, the lifecycle,
   symmetry of connections, safe deletion and exactly when use counts are conserved, over whole runs.  `XObjects`
   has the class, over an `XList` of connections.  `XObjectScan` is the cut prefix walk of a scanner.
3. **`XSetParam` and `XListParam`**: a container with an optional search map.  In `XListParam` the
   map's values are counted iterators, so the index takes part in the counts of the list.
4. **Text forms and networks**: IPv4 and IPv6 addresses, security identifiers, netmasks and prefixes.

## How the state is modelled

A node of the list is known by the order of its push; 0 is the sentinel.  A node's phase says how far its
push, its unlinking or its freeing has come.  The fields `stamp`, `horizon` and `unlinks` of the list
machine and `late`, `half`, `owner`, `adds` and `holds` of the object machine are history: no step's outcome
depends on them, but a release asks for an outstanding hold.  `inc_ruse` and `dec_ruse` take no lock and the
count is a plain `int`, so each of their reads and writes is a step; `recent` holds the values that the
count has had since the last section of code under the object's lock, any of which the next section may have
read before it writes.  A thread that clears a deleted object carries the records that its walk has yet to
meet: it takes one off by removing it or by finding it gone, may meet records that were appended since, and
ends when none is left.  In the classes, the ghost field `model` is the protocol state that the objects
hold, and `Valid` ties it to the real fields.  A section of code under one lock, such as moving an iterator,
is one step. A thread that `xdel` or `xdelConnection` detaches is a pending free.  What user callbacks
answer (`mayConnect`, the outcome of `_add` and `_del`, a scanner's decisions, `assignHelper`) is arbitrary.

## Where a promise does not hold

- A deleted object takes a new connection while it is being printed: `addConnection` looks at the
  current status only (`include/xobject.hpp:1011-1021`), its comment promises more.
  `XObjectRuns.LateExactly` says when, `XObjectGaps.DeletedStillConnected` gives a run,
  `XObjectRuns.RunSafeDeletion` proves for all runs that only this gap and the next leave anything behind.
- `connect` ignores the answer of its own side (`include/xobject.hpp:936`), so a connection that the
  initiator refuses is kept by the far side alone: `XObjectRuns.HalfExactly`, with a run in
  `XObjectGaps.HalfConnected`.  All other connections are symmetric: `XObjectRuns.RunSymmetric`.
- Enabling a search map that is on, over a non-empty list, empties it but leaves it in use; the comment at
  `include/xparam.hpp:770-775` allows enabling at any time.  `XSetParamIndex.EnabledSound` has the condition.
- Assigning a set to itself empties it (`include/xparam.tcc:588-590`): `XSetParams.XSetParam.Assign`.
- `xdel_prepare` with an iterator on a node that was unlinked before takes another parameter's entry out of
  the map if one is stored under the same key: `XListParams.XListParam.XDelPrepareIter` has the condition,
  `XListParams.StaleDelete` an object.
- `inc_ruse` and `dec_ruse` update the use count without the lock that other updates of it hold
  (`include/xobject.hpp:515-520`, `1027`, `1089`), so updates can get lost: an object in use can be found
  not busy, and be deleted with a strong connection in its list.  `XObjectRuns.RunUseCounts` says exactly
  when counts are conserved, `XObjectGaps.InUseDeleted` gives a run in which one is not;
  `XObjectRuns.RunDeletedBare` says what a right count is enough for.
- `dec_ruse` without an outstanding `inc_ruse` takes the count of a strong connection away, if there is one:
  `XObjects.XObject.DecRuse`.
- Nine fields are printed for an IPv6 address whose first run of zeros is word 0 alone or word 7 alone, and
  the parser rejects them: `IPv6Text.RoundTrip`.  `checkNetworkAvailability` with an `IPv6Param` goes by
  way of the text and fails for the same addresses: `IPParams.IPv6Param.CheckNetwork`.
- A text with a readable address and an unreadable netmask is rejected, but its address has been taken over:
  `IPParams.IPv6Param.Set`, `IPParams.IPv4Param.Set`.
- The number of sub-authorities is written in hexadecimal and read in decimal: `SIDText.RoundTrip`.
- The mask of 32 ones is read as length 31: `Netmasks.CompactToSimple`.

## Model

| member | source | states |
|---|---|---|
| XListProtocol.StepWF | include/xlist.hpp:797-899 | every line of push_back, xerase_prepare, xerase and of the iterator operations, run by any thread, keeps all references inside the list |
| XListInvariant.InitInv | include/xlist.hpp:60-66 | an empty list, its sentinel pointing at itself, satisfies the invariant |
| XListCountSteps.ConservedStep | include/xlist.hpp:797-899 | conservation: after every single line, each node's usageNO is its iterators plus the next/prev fields pointing at it plus what the writer and the node's own xerase have counted in advance |
| XListSafety.ShapeStep | include/xlist.hpp:797-870 | after every single line, next runs through the un-erased nodes in push order and back to the sentinel, prev mirrors it but at the writer's tentative moments, erased nodes lead to later-erased or live ones |
| XListSafety.WaitersStep | include/xlist.hpp:125-156 | a waiter that has gone to sleep stands on a node that is still in use, whatever line runs next; a decrement to zero wakes it |
| XListSafety.InvStep | include/xlist.hpp:797-899 | every interleaved line of any number of readers, one writer and any number of pending frees keeps the whole invariant |
| XListSafety.RunInv | include/xlist.hpp:797-899 | the invariant holds at every point of every run |
| XListMemory.CountsAtRest | include/xlist.hpp:73-79 | when no operation is in flight, usageNO is exactly the iterators on the node plus the pointers to it from unfreed nodes; the sentinel's is two less |
| XListMemory.FreedUnreferenced | include/xlist.hpp:878-899 | no iterator stands on a freed node and no unfreed node points at it |
| XListMemory.NoUseAfterFree | include/xlist.hpp:878-899 | no line of any thread reads or writes a freed node |
| XListMemory.UnlinkedFrozen | include/xlist.hpp:839-870 | the next and prev of an erased node never change again, and it is never linked again |
| XListMemory.ZeroIsFinal | include/xlist.hpp:125-156 | once the count of a node being erased is zero no step of any thread raises it again |
| XListMemory.RunMemorySafe | include/xlist.hpp:839-899 | over every run: nobody sleeps on an unused node, freed nodes are referenced by nothing, no step touches freed memory |
| XListRefinement.StepContent | include/xlist.hpp:797-870 | refinement: every step of every thread has its effect on the abstract sequence and no other; push_back appends once, at one of its lines, xerase_prepare removes its node once, all other lines change nothing |
| XListRefinement.ForwardReadsContent | include/xlist.hpp:764-772 | at every moment, even in the middle of a writer, following next from the sentinel meets exactly the abstract sequence |
| XListRefinement.BackwardReadsContent | include/xlist.hpp:839-870 | outside the writer's tentative moments following prev meets the same sequence |
| XListRefinement.SecondPrepare | include/xlist.hpp:91-105 | a second xerase_prepare on an erased node answers false and restores the very state it started from |
| XListTraversal.StepEvolves | include/xlist.hpp:797-870 | what any step can change for a reader: nodes join at the end, leave, and leave behind pointers that skip nothing still listed |
| XListTraversal.TraversalInv | include/xlist.hpp:269-287 | what a reader has visited and where it stands account for every node that was listed at begin() and still is, over any interleaving |
| XListTraversal.ReaderComplete | include/xlist.hpp:269-287 | a walk from begin() to end() against any interleaved writers visits every node that was in the list at begin() and still is, exactly once and in list order, and none that was erased before |
| XListTraversal.WalkBounded | include/xlist.hpp:269-287 | a walk advances at most as often as nodes have been created, so it ends once pushes stop |
| XListDrain.PointedAtByEarlier | include/xlist.hpp:839-899 | an erased node is pointed at only by nodes erased before it |
| XListDrain.EarliestFree | include/xlist.hpp:839-899 | nothing points at the earliest pending erased node, whatever readers stand on other erased nodes |
| XListDrain.EarliestAwake | include/xlist.hpp:125-156 | when its own readers have left, its waiter is neither asleep nor about to sleep, and its count is zero but for what its xerase holds itself |
| XListDrain.ForemostMoves | include/xlist.hpp:878-899 | then its xerase can take a step, or waits for a neighbour's lock whose holder can |
| XListDrain.ForemostDrains | include/xlist.hpp:878-899 | the earliest pending erased node that nobody stands on is freed and gives its neighbours' counts back while any readers stay on other erased nodes |
| XListDrain.SomeEraseEnabled | include/xlist.hpp:878-899 | deferred frees cannot block each other in a cycle: while one is pending some xerase can take a step |
| XListDrain.EraseDecreases | include/xlist.hpp:878-899 | every step of an xerase strictly lowers the work left to all of them |
| XListDrain.EraseRunBounded | include/xlist.hpp:878-899 | so every schedule of the pending frees is finite, and bounded by the work left at its start |
| XListDrain.StuckMeansDrained | include/xlist.hpp:878-899 | a schedule that cannot continue has freed every erased node and given back all its counts |
| XListDrain.Drains | include/xlist.hpp:878-899 | from every quiet state there is a schedule that drains all pending frees |
| XListSequential.PushBackAppends | include/xlist.hpp:797-808 | the lines of one undisturbed push_back append exactly the new node and keep the invariant |
| XListSequential.PrepareRemoves | include/xlist.hpp:839-870 | the lines of one undisturbed true xerase_prepare remove exactly that node |
| XListSequential.EraseFrees | include/xlist.hpp:878-899 | xerase frees its node within the call exactly when the caller's iterator held the only count, and sleeps otherwise; the list stays as it was |
| XListSequential.WalkAdvances | include/xlist.hpp:269-287 | advancing from a listed node passes that node and no other listed one |
| XLists.XList.constructor | include/xlist.hpp:755-757 | a new list object shows the protocol's initial state |
| XLists.XList.Access | include/xlist.hpp:73 | counts one more use of the node, and changes nothing else |
| XLists.XList.Release | include/xlist.hpp:79 | counts one use less, and changes nothing else |
| XLists.XList.PushBack | include/xlist.hpp:797-808 | the objects' fields end up as the protocol's lines say, and the list's value has exactly the new node at its end |
| XLists.XList.XErasePrepare | include/xlist.hpp:839-870 | true exactly if the node was not marked, then exactly that node leaves the list; false leaves everything as it was |
| XLists.XList.XErase | include/xlist.hpp:878-899 | consumes the iterator, frees the node and drops the counts on its old neighbours exactly if the iterator held its only count, sleeps otherwise |
| XLists.XList.Begin | include/xlist.hpp:764-772 | the iterator stands on the first node and counts it; the list stays as it was |
| XLists.XList.Next | include/xlist.hpp:269-276 | releases the node it leaves and counts the one it reaches |
| XLists.XList.Prev | include/xlist.hpp:288-295 | releases the node it leaves and counts the one it reaches, backwards |
| XLists.XList.Fini | include/xlist.hpp:333-342 | releases the node and stands nowhere |
| XLists.XList.Assign | include/xlist.hpp:313-325 | releases its old node, then counts the one it is assigned |
| XLists.XList.ReadAll | include/xlist.hpp:758-763 | a loop from begin() to end() yields the data of the list in order, and leaves the list as it was |
| XListSlots.SlotsRemoved | include/xlist.hpp:839-870 | removing a node from the list's value removes its data at its place, once |
| XObjectStatus.RestingRows | src/xobject.cpp:13-26 | nobody is told to wait at a resting status, operations are entered only from one, and no resting status turns into another without an operation |
| XObjectStatus.ReturnsAreDirect | src/xobject.cpp:13-26 | every return from an operation to where it came from is a DIRECT cell, except a delete of a loaded object that is given up; DIRECT cells out of operations lead only to LOADED, NORMAL and DELETED |
| XObjectStatus.WaitingIsWorthwhile | src/xobject.cpp:13-26 | while one operation is on, another is told to wait exactly if the first may end in a status that the second begins from, with the eight pairs named that are given up all the same; none is entered at once |
| XObjectStatus.EndsAreDirect | src/xobject.cpp:13-26 | an operation goes at once to exactly the resting statuses that it can end in, but for the given up delete of a loaded object |
| XObjectOutcomes.TryOutcome | include/xobject.hpp:871-891 | a thread in chStatus enters its operation exactly if the object rests where it begins, sleeps exactly if the operation that is on may end there, and is sent away otherwise |
| XObjectOutcomes.SpuriousOutcome | include/xobject.hpp:871-891 | a sleeper that wakes up without cause tries once more |
| XObjectOutcomes.CheckOutcome | include/xobject.hpp:619-653 | with a right use count, a delete goes on exactly if the object has no strong connection and no hold |
| XObjectOutcomes.BackOutcome | include/xobject.hpp:897-914 | an operation that is gone back from ends in the status it began in, and every sleeper on the object tries once more |
| XObjectOutcomes.CommitOutcome | include/xobject.hpp:581-653 | an addition that succeeds ends in NORMAL, a delete that goes on in DELETED with the whole list still to be disconnected, and every sleeper on the object tries once more |
| XObjectOutcomes.ConnectOutcome | include/xobject.hpp:926-941 | an added or modified object can always connect: with a new id its own end is listed, and counted if strong, exactly if its own side agrees; the other side is asked either way |
| XObjectOutcomes.AskOutcome | include/xobject.hpp:1001-1035 | the side that is asked, if willing, waits exactly in DELETING, refuses exactly in DELETED, and otherwise lists and, if strong, counts exactly its end |
| XObjectOutcomes.AskedAgain | include/xobject.hpp:1011-1017 | who waits keeps its connection in mind and asks again; who is refused has its own end to undo |
| XObjectOutcomes.DisconnectOutcome | include/xobject.hpp:987-996 | any connection of the object can be taken off the list, and is uncounted if strong; the other side's delConnection follows |
| XObjectOutcomes.HoldOutcome | include/xobject.hpp:515 | inc_ruse first reads the count |
| XObjectOutcomes.HoldWritten | include/xobject.hpp:515 | and then writes one more than it has read |
| XObjectMonitor.MonStep | include/xobject.hpp:871-914 | every step of every thread keeps all objects sound monitors: one owner per operation, its origin saved, sleepers with something to wait for |
| XObjectMonitor.GoBackMon | include/xobject.hpp:897-914 | bkStatus, which bypasses the table, restores exactly the status the operation was entered from |
| XObjectMonitor.MutualExclusion | include/xobject.hpp:871-914 | at most one operation is on at an object, and the saved status is the LOADED, NORMAL or DELETED it started from |
| XObjectMonitor.NoLostWakeup | include/xobject.hpp:871-914 | a thread asleep in chStatus or addConnection implies an operation of another thread on that object (a delete in the latter case), whose end wakes it |
| XObjectMonitor.NoDeadlock | include/xobject.hpp:871-914 | the thread that a sleeper waits for is awake, or waits itself for one that is; and that last one is inside its operation and can take a step of its own |
| XObjectMonitor.LifecycleForward | include/xobject.hpp:581-704 | each step moves the resting status forward only, by a commit, and NORMAL is reached from LOADED exactly by a successful addition |
| XObjectConnections.IdsStep | include/xobject.hpp:926-1111 | a connection id names at most one record per side, the two name each other's owner; a connection being opened has only its near record, one being closed only its far one |
| XObjectConnections.NotOpeningElsewhere | include/xobject.hpp:980-996 | nobody disconnects a connection that is still being opened |
| XObjectConnections.SeekEffect | include/xobject.hpp:1058-1066 | delConnection's walk meets the only record left of the connection, or there is none |
| XObjectConnections.MateEffect | include/xobject.hpp:1071-1092 | then removing what it met leaves no record of the connection, whoever removed it first |
| XObjectConnections.SymmetryStep | include/xobject.hpp:926-1111 | every step keeps both ends of every connection together, but for connections in flight and half-accepted ones |
| XObjectCounts.StepWF | include/xobject.hpp:581-1111 | every step of every thread keeps the records and threads well formed |
| XObjectCounts.CountStep | include/xobject.hpp:515-520 | a step keeps an object's ruse equal to its strong records plus outstanding holds exactly if, where it updates the count, the count still is what was read |
| XObjectDeletion.NewRecords | include/xobject.hpp:1001-1035 | a record appears only at an object that is neither being deleted nor resting in DELETED |
| XObjectDeletion.CheckedStep | include/xobject.hpp:619-653 | if the count is right when a delete checks it, the object has no strong connection from there to the end of the delete |
| XObjectDeletion.StaysToMeet | include/xobject.hpp:980-996 | the walk of disconnectAll passes a record only by removing it or by finding it gone |
| XObjectDeletion.DeletedStep | include/xobject.hpp:980-996 | what is left in a deleted object's list is yet to be met by the walk that clears it, or was accepted late |
| XObjectDeletion.CleaningStep | include/xobject.hpp:980-996 | every step of a clearing thread leaves it less to do, or is its last |
| XObjectDeletion.OthersStep | include/xobject.hpp:980-996 | no step of another thread leaves it more to do, except a connection that its object accepts late, which adds three steps |
| XObjectRuns.RunInv | include/xobject.hpp:581-1111 | all invariants hold at every point of every run of any threads on any objects |
| XObjectRuns.RunLifecycle | include/xobject.hpp:581-704 | over every run resting statuses only move forward, DELETED is absorbing, at most one addition of an object succeeds |
| XObjectRuns.BothEndsListed | include/xobject.hpp:926-1111 | A's record of a connection to B has its other end at B, unless it is itself being opened or closed or its initiator had refused it |
| XObjectRuns.SafeDeletion | include/xobject.hpp:619-653 | what a deleted and cleared object still lists was accepted after the deletion; what another list has of it was that too, or refused by its own initiator, or is itself being opened or closed |
| XObjectRuns.LateExactly | include/xobject.hpp:1001-1035 | a deleted object gets a new connection exactly if it accepts one while it is being printed, since addConnection looks at the current status only |
| XObjectRuns.NearDecided | include/xobject.hpp:926-941 | connect leaves its own end in the list exactly if its own side's mayConnect agrees |
| XObjectRuns.NearStays | include/xobject.hpp:926-941 | no step of any thread changes that while the connection is being opened |
| XObjectRuns.HalfExactly | include/xobject.hpp:926-941 | a step leaves an end without its other end exactly if the far side accepts what the initiator's own side has refused |
| XObjectRuns.RunNear | include/xobject.hpp:926-941 | in every run, while a connection is being opened its near end is listed exactly if the initiator's own side agreed at the Connect that began it |
| XObjectRuns.RunHalf | include/xobject.hpp:926-941 | in every run the initiator of a half accepted connection had refused it |
| XObjectRuns.RunLate | include/xobject.hpp:1001-1035 | in every run a late connection was accepted by a deleted object that was being printed |
| XObjectRuns.RunSymmetric | include/xobject.hpp:926-1111 | connection symmetry: at every point of every run, whatever else is in flight, a record that is not itself being opened or closed has its other end on the other side, if its initiator agreed to it |
| XObjectRuns.ProperRunsAreSafe | include/xobject.hpp:619-653 | at every point of every run, if none of the connections that mention a deleted and cleared object was accepted late or refused by its initiator, the object's list is empty and another list has it only in a connection that is just being opened or closed |
| XObjectRuns.RunExclusive | include/xobject.hpp:871-914 | in every run at most one operation owns an object, its status is that operation and the saved one the LOADED, NORMAL or DELETED it came from |
| XObjectRuns.RunNoLostWakeup | include/xobject.hpp:871-914 | in every run a sleeper's object is in an operation of another thread, which is awake or sleeps on a third thread's that is; the awake one is inside its operation and can take a step of its own |
| XObjectRuns.RunSafeDeletion | include/xobject.hpp:619-653 | at every point of every run a record in a deleted and cleared object's list was accepted late at an earlier step; one of it in another list likewise, or was refused by its initiator, unless it is itself being opened or closed |
| XObjectRuns.RunUseCounts | include/xobject.hpp:515-520 | conservation, exactly: in every run an object's ruse has been its strong records plus outstanding holds all along if and only if at every update of it the count still was what had been read |
| XObjectRuns.RunUndisturbedCounts | include/xobject.hpp:515-520 | so it is in every run in which no other update of the count falls between the read and the write of one |
| XObjectRuns.SeenStays | include/xobject.hpp:515-520 | what a caller of inc_ruse or dec_ruse has read was the count then, and still is if nobody has updated it since |
| XObjectRuns.RunSectionsFresh | include/xobject.hpp:1022-1027 | sections of code under the object's lock lose no update among themselves: until a caller without the lock writes, they read what the count is |
| XObjectRuns.RunSectionCounts | include/xobject.hpp:1022-1027 | so connections alone never make the count wrong: it is right as long as no inc_ruse or dec_ruse of the object has written it |
| XObjectRuns.RunDeletedBare | include/xobject.hpp:619-653 | in every run an object enters DELETED without a strong connection, if the count was right when its deletes checked it |
| XObjectRuns.CleaningNeverBlocks | include/xobject.hpp:980-996 | a thread clearing a deleted object always has a step to take |
| XObjectRuns.CleaningEnds | include/xobject.hpp:980-996 | its own steps bring the clearing to its end, within the work left, and then nothing is left of what the walk had to meet |
| XObjectRuns.RunCleaningBounded | include/xobject.hpp:980-996 | in every run the clearing takes at most three steps a record and three more for each connection accepted late meanwhile |
| XObjectRuns.DeletedUnused | include/xobject.hpp:619-653 | no strong connection enters DELETED if the count was right when the delete checked it; the count still is right exactly if it is the number of holds |
| XObjectRuns.DisconnectCompletes | include/xobject.hpp:987-996 | the end of a disconnect, whether its walk met the other end or not, leaves no record of the connection on either side |
| XObjectRuns.BothEndsGone | include/xobject.hpp:987-996 | while both ends disconnect the same connection at once it is gone already |
| XObjectRuns.GoneStays | include/xobject.hpp:987-996 | a connection that is gone does not come back, whatever step is taken |
| XObjectRuns.RunDisconnected | include/xobject.hpp:987-996 | in every run, once a disconnect has ended or both ends are being disconnected at once, no later state has a record of the connection |
| XObjectGaps.DeletedStillConnected | include/xobject.hpp:1011-1021 | a run in which a deleted object accepts a connection while being printed and keeps it with nothing in flight |
| XObjectGaps.HalfConnected | include/xobject.hpp:926-941 | a run in which the initiator refuses its own end and the far side keeps a connection alone |
| XObjectGaps.InUseDeleted | include/xobject.hpp:515-520 | a run in which an inc_ruse overwrites the count of a strong connection; after the dec_ruse the object is not busy, and is deleted with the connection in its list |
| XObjects.XObject.ChStatus | include/xobject.hpp:871-891 | one pass of the loop: an operation is entered exactly from where it begins, waits exactly if the one that is on may end there, and is given up otherwise; it keeps in mind what the object rested in |
| XObjects.XObject.BkStatus | include/xobject.hpp:897-902 | ends an operation in the resting status that the object had when the operation was entered, one of those it can be entered from |
| XObjects.XObject.EnterAndBack | include/xobject.hpp:544-554 | an operation that is entered and gone back from leaves the object in the status it had |
| XObjects.XObject.IncRuse | include/xobject.hpp:515 | one more hold, and the count follows |
| XObjects.XObject.IsBusy | include/xobject.hpp:521 | busy exactly if a hold or a strong connection is left |
| XObjects.XObject.DecRuse | include/xobject.hpp:516-520 | undoes one hold, never below zero; the count stays right exactly if there was a hold to undo or no strong connection to miscount |
| XObjects.XObject.AddConnection | include/xobject.hpp:1001-1035 | waits exactly if mayConnect agrees in DELETING, refuses exactly if it does not or in DELETED, and otherwise appends exactly the connection and counts it if strong |
| XObjects.XObject.XDelConnectionPrepare | include/xobject.hpp:1082-1092 | true removes exactly the connection under the iterator and uncounts it if strong, false leaves the list; the version counts either way |
| XObjects.XObject.QueryConnection | include/xobject.hpp:825-831 | the loop stops at the first connection with the id, or at the end if there is none |
| XObjects.XObject.DelConnection | include/xobject.hpp:1058-1066 | removes the first connection with the id and nothing else, or nothing if there is none |
| XObjects.XObject.DisconnectAll | include/xobject.hpp:980-996 | undisturbed, the loop comes to every connection and takes it off the list: the list is empty at the end, the version counts each, and the use count is the number of holds |
| XObjectScan.WellNested | include/xobject.hpp:711-778 | scan and scan_return calls nest like brackets, one scan_return per scan |
| XObjectScan.WalkVisits | include/xobject.hpp:711-778 | SA_END is returned exactly if some scan was answered so; an object that cannot be entered adds nothing; SA_BACKWARD is returned exactly if the object's own scan answered it |
| XObjectScan.WalkConsistent | include/xobject.hpp:711-778 | the visits are a prefix walk in connection order over the matching connections, where SA_BACKWARD drops exactly the remaining siblings |
| XObjectScan.EndOfFlat | include/xobject.hpp:711-778 | an SA_END among the visits is an SA_END among the events, and the other way round |
| XObjectScan.FollowsEnds | include/xobject.hpp:711-778 | after a scan that was answered SA_END there are scan_returns only |
| XObjectScan.ScanIsBracketed | include/xobject.hpp:711-778 | one scan as a whole: events are appended, well nested, silent after SA_END; SA_FORWARD is never returned |
| XObjectScan.RankOf | include/xobject.hpp:711-778 | a finite graph without circles along matching connections can be ranked so that the rank falls along them |
| XObjectScan.RankedHasNoCycle | include/xobject.hpp:711-778 | and only such a graph can |
| XObjectScan.ScanFrom | include/xobject.hpp:711-778 | the recursive method with its loop gives the answer and the events of the reference walk |
| XObjectScan.Scan | include/xobject.hpp:711-778 | on every finite graph without circles scan terminates with a prefix walk with the cuts asked for: well nested, silent after SA_END, SA_END returned exactly if a scan answered it, SA_FORWARD never |
| XSetParamIndex.LookupIsScan | include/xparam.hpp:800-806 | a look-up in the map finds the one parameter with the key that a scan of the list finds, or none |
| XSetParamIndex.AddedSound | include/xparam.hpp:732-754 | an addition succeeds exactly if the longer list has pairwise distinct keys or the map is off; a rejected one leaves list and map as they were |
| XSetParamIndex.EnabledSound | include/xparam.hpp:777-789 | enabling succeeds exactly if all parameters have keys and no two the same, and otherwise changes nothing; list and map disagree afterwards exactly if the map was on already and the list not empty |
| XSetParamIndex.AddedAllSound | include/xparam.tcc:590-606 | adding one by one gives the whole list or, at the first duplicate, nothing |
| XSetParamIndex.DeleteKeySound | include/xparam.hpp:862-875 | deleting by key removes the one parameter with that key, and afterwards no parameter has it |
| XSetParamIndex.ApplySound | include/xparam.hpp:732-794 | an operation keeps list and map in agreement, with the exact condition for a second enabling |
| XSetParamIndex.ApplyDoes | include/xparam.hpp:732-794 | what each operation does to the parameters and to whether the map is on: added at the end, assigned, cleared, removed at one place, enabled, each with the exact condition under which it is refused |
| XSetParamIndex.SearchIsScan | include/xparam.hpp:732-894 | over any sequence of operations that enables the map once, find(k) is a linear scan and keys stay pairwise distinct |
| XSetParams.XSetParam.Add2SMap | include/xparam.hpp:1005-1018 | succeeds exactly for a key that is there and new, and then adds exactly that entry |
| XSetParams.XSetParam.AddParam | include/xparam.hpp:732-754 | into list and map, or, after the element is popped again, into neither |
| XSetParams.XSetParam.AddT | include/xparam.hpp:716-731 | a copy with the same key and value is added |
| XSetParams.XSetParam.EnableSmap | include/xparam.hpp:777-789 | the loop indexes the whole list or clears the map; validity is lost exactly by a second enabling over a non-empty list |
| XSetParams.XSetParam.Find | include/xparam.hpp:800-806 | with the map on, the one parameter whose key it is, or none |
| XSetParams.XSetParam.Query | include/xparam.hpp:812-819 | the loop finds the first parameter with the key, map or no map |
| XSetParams.XSetParam.DelSoft | include/xparam.hpp:862-875 | removes from list and map the parameter that a scan finds, and gives it back; none leaves both as they were |
| XSetParams.XSetParam.DelSoftAt | include/xparam.hpp:883-894 | removes exactly the parameter at the place, from list and map |
| XSetParams.XSetParam.Assign | include/xparam.tcc:568-606 | becomes an element-by-element copy, or is left empty at the first duplicate, or untouched on a different name; assigned to itself it is left empty |
| XListParams.XListParam.Find | include/xparam.hpp:1191-1204 | with the map on, the iterator stands on the one listed node with the key, or at the end if there is none |
| XListParams.XListParam.Add2SMap | include/xparam.hpp:1005-1018 | a new entry's own iterator is assigned the node's place and counts it; a refused one changes nothing |
| XListParams.XListParam.AddParam | include/xparam.hpp:732-754 | into list and map exactly if the key is new; a refused parameter is unlinked again and map and list value are as before |
| XListParams.XListParam.ClearSMap | include/xparam.hpp:1350 | every iterator of the map lets its node go |
| XListParams.XListParam.EnableSmap | include/xparam.hpp:777-789 | the loop indexes the whole list or empties the map; with the map off it succeeds exactly if all keys are there and distinct; list and map disagree afterwards exactly if it was on and the list not empty |
| XListParams.XListParam.DisableSmap | include/xparam.hpp:790-794 | the map is empty and off, and valid again whatever was in it |
| XListParams.XListParam.Clear | include/xparam.hpp:1177-1184 | the loop empties list and map, and every entry's iterator lets its node go |
| XListParams.XListParam.XDelPrepareKey | include/xparam.hpp:1238-1248 | removes the node with the key from the list and its entry from the map, whose iterator lets the node go; the returned iterator stands on the node |
| XListParams.XListParam.XDelPrepareIter | include/xparam.hpp:1249-1260 | unlinks the iterator's node and drops its entry, whose iterator lets its node go; index and list disagree afterwards exactly if the node had been unlinked before and a newer parameter is stored under its key |
| XListParams.StaleDelete | include/xparam.hpp:1249-1260 | an object for which they do: a listed parameter that its own map, though on, does not find |
| XListParams.XListParam.IndexPinsNothing | include/xparam.hpp:1346 | each entry of the map holds one count, on the listed node with its key, so the index never holds a node that is no longer listed |
| XListParams.XListParam.CountWithoutIndex | include/xparam.hpp:1249-1260 | the usageNO that xerase waits for on an unlinked node is that of iterators that are not the index's and of pointers from nodes that were erased before it |
| Fields.JoinSplit | src/sparam.cpp:884-913 | joining the fields of any text gives the text back |
| Fields.SplitJoin | src/sparam.cpp:884-913 | splitting the join of separator-free fields gives the fields back |
| Fields.BetweenSplits | src/sparam.cpp:884-913 | cutting between the positions of the separator yields the fields |
| Fields.SplitByPositions | src/sparam.cpp:884-913 | the loop over positions computes the fields of the text |
| Fields.SplitByErasing | src/sparam.cpp:2325-2335 | the loop that erases field after field computes the same fields |
| Numerals.ParsePrint | src/sparam.cpp:1490-1513 | a printed number parses to itself, in every base up to sixteen |
| Numerals.DigitsInOrder | src/sparam.cpp:1490-1513 | the sixteen digits and their values, in both cases |
| Numerals.PlaceValue | src/sparam.cpp:1416-1433 | the first digit of a numeral is worth the base to the power of the digits that follow |
| Numerals.PrintNumeral | src/sparam.cpp:1490-1513 | what is printed has no digit too many and letters in lower case |
| Numerals.NumeralUnique | src/sparam.cpp:1490-1513 | and is the only such numeral of its number |
| Numerals.FixedParse | src/sparam.cpp:2337-2358 | fixed-width upper-case digits are restored from their value |
| Numerals.ParseFixed | src/sparam.cpp:2283-2358 | a number below 16^len is restored from its len digits |
| IPv6Text.PiecesAreFields | src/sparam.cpp:1490-1513 | what the printing loop writes piece by piece is the colon-separated list of fields with the first run of zeros left out |
| IPv6Text.RunIsUnique | src/sparam.cpp:1490-1501 | the run of zeros that the scan finds is the first one, up to where it ends |
| IPv6Text.ReadInRange | src/sparam.cpp:1386-1470 | whatever text is accepted, eight words of sixteen bits are read |
| IPv6Text.ReadMeans | src/sparam.cpp:1386-1470 | exactly which fields are accepted, and as what: eight of up to sixteen bits one by one, or with one empty field inside for the zeros that are missing; an empty field at an end is zero |
| IPv6Text.TextIs | src/sparam.cpp:1490-1513 | the printed fields: a lower-case numeral of least width for each word outside of the first run of zeros, one empty field for the run, and one more where it reaches an end |
| IPv6Text.RoundTrip | src/sparam.cpp:1386-1513 | reading back the printed address restores it exactly if its words have sixteen bits and the first run of zeros is not word 0 alone or word 7 alone; otherwise the parser rejects |
| IPParams.ValidateString | src/sparam.cpp:935-941 | the loop finds a character that is not allowed, if there is one |
| IPParams.AllowedChars | src/sparam.cpp:1388-1389 | the texts that are looked at are those of the characters in the source's lists |
| IPParams.IPv6Param.SkippedRun | src/sparam.cpp:1490-1501 | the loop finds the first run of zeros |
| IPParams.IPv6Param.GetAddress | src/sparam.cpp:1490-1513 | the loops print the address's fields |
| IPParams.IPv6Param.SetAddress | src/sparam.cpp:1386-1470 | the loops accept exactly the readable texts; a rejected text leaves the address as it was |
| IPParams.FindGap | src/sparam.cpp:1404-1414 | finds the one empty field, or that there is none, or that there are several |
| IPParams.IPv6Param.WordMasks | src/sparam.cpp:1585-1589 | the nested loops give each word the part of the netmask that covers it |
| IPParams.IPv6Param.Set | src/sparam.cpp:1334-1368 | an IPv6 address, or else an IPv4 address that is embedded, with or without a netmask; a rejected text leaves the object as it was, unless its address reads as IPv6 and only its netmask does not read: then the address has changed |
| IPParams.IPv6Param.SetNetmask | src/sparam.cpp:1545-1559 | accepts exactly decimal lengths up to 128, the empty text as 0, and leaves the rest of the object alone |
| IPParams.ValueReads | src/sparam.cpp:1334-1577 | the printed value, with its netmask if it has one, is read back exactly if the address text is |
| IPParams.IPv6Param.CheckNetwork | src/sparam.cpp:1578-1600 | answered exactly if the other address survives its own text form; then containment is equality of the leading bits, of the network's words only the low halves counting |
| IPParams.IPv6Param.SetIPv4 | src/sparam.cpp:1317-1332 | becomes the embedding of the IPv4 address with 96 more bits of netmask |
| IPv4Text.RoundTrip | src/sparam.cpp:1084-1119 | every IPv4 address is restored from its dotted text |
| IPv4Text.ReadMeans | src/sparam.cpp:1084-1119 | exactly which texts are accepted, and as what: four non-empty fields with the numbers of the bytes, or one number whose bytes they are, the highest first |
| IPv4Text.TextIs | src/sparam.cpp:1194-1199 | the printed fields are the four numbers, of least width |
| IPv4Text.IntOf | src/sparam.cpp:1105-1107 | a field's value as an int: exact below 2^31, its low half up to the largest long, minus one beyond |
| IPv4Text.UnsignedOf | src/sparam.cpp:1116 | a number's value as an unsigned int: exact below 2^32, its low half up to the largest unsigned long, all ones beyond |
| IPv4Text.CompactBytes | src/sparam.cpp:1201-1209 | the compact form and the four bytes determine each other |
| IPv4Text.ColonIsNotIPv4 | src/sparam.cpp:1084-1095 | a text with a colon is never read as an IPv4 address |
| IPParams.IPv4Param.SetAddress | src/sparam.cpp:1084-1119 | accepts exactly four byte-valued fields or one number; a rejected text leaves the address as it was |
| IPParams.IPv4Param.SetNetmask | src/sparam.cpp:1131-1192 | accepts exactly lengths up to 32 and masks of ones followed by zeros, as four bytes or as a number |
| IPParams.IPv4Param.Set | src/sparam.cpp:1020-1042 | an address with or without a netmask; a rejected netmask has changed the address already |
| IPParams.ValueReads4 | src/sparam.cpp:1020-1254 | the printed value, with its netmask if it has one, is read back |
| NetworkText.PartsMean | src/sparam.cpp:1334-1351 | which texts have an address and a netmask: those with exactly one backslash or, without any, exactly one slash, and something on both sides |
| NetworkText.MaskMeans6 | src/sparam.cpp:1545-1559 | digits mean their number up to 128; larger ints and other characters are rejected |
| NetworkText.DottedMask | src/sparam.cpp:1143-1161 | four bytes are accepted exactly if they are ones followed by zeros, as the number of ones, but 31 for 32 |
| NetworkText.NumberMask | src/sparam.cpp:1162-1175 | a number up to 32 is a length, and a larger one is accepted exactly if it is such a mask |
| NetworkText.NoMask | src/sparam.cpp:1131-1161 | other characters and other dotted texts are rejected |
| NetworkText.ValueIs | src/sparam.cpp:1569-1577 | value() is the address, and if there is a netmask a slash and its length of least width behind it |
| NetworkText.ValueParts | src/sparam.cpp:1334-1351 | a printed value falls into the parts it was made of |
| NetworkText.LengthOfMask | src/sparam.cpp:1163-1175 | the conversion computes the length that the mask has |
| IPParams.IPv4Param.CheckNetwork | src/sparam.cpp:1256-1266 | containment by masking is equality of the leading netmask bits, asked by way of the text |
| Netmasks.AndMask | src/sparam.cpp:1256-1266 | masking keeps exactly the bits that division keeps |
| Netmasks.MaskedEqual | src/sparam.cpp:1256-1266 | two addresses agree under a mask of n bits exactly if they agree after division by 2^(width-n) |
| Netmasks.CompactToSimple | src/sparam.cpp:914-927 | accepts exactly ones followed by zeros and gives their number, but 31 for all ones |
| Netmasks.SimpleToCompact | src/sparam.cpp:928-934 | the loop and the shift give the mask of that many leading ones |
| Netmasks.MaskThereAndBack | src/sparam.cpp:914-934 | the conversions are inverse on lengths 1 to 31, and 32 comes back as 31 |
| Netmasks.NotAMask | src/sparam.cpp:914-927 | a one below a zero is never a mask |
| Prefixes.PrefixWords | src/sparam.cpp:1578-1594 | agreeing word by word under the masks of n bits is agreeing on the 128-bit number divided by 2^(128-n) |
| Prefixes.EmbeddingKeepsNetworks | src/sparam.cpp:1317-1332 | the IPv4-to-IPv6 embedding with netmask 96+n preserves and reflects being in a network |
| SIDText.SwapInvolution | src/sparam.cpp:2312-2323 | reversing the bytes of eight digits twice changes nothing |
| SIDText.SwapIsLittleEndian | src/sparam.cpp:2312-2323 | and turns the lowest byte first into the highest byte first |
| SIDText.ToHexMeans | src/sparam.cpp:2239-2272 | what any text with parts in range becomes: version, count, authority and each sub-authority with its lowest byte first, in upper-case digits |
| SIDText.ToStrMeans | src/sparam.cpp:2207-2237 | what any long enough hexadecimal becomes: S, 1, the authority and as many sub-authorities as the misread count says, each a numeral of least width |
| SIDText.AtoiOfTwo | src/sparam.cpp:2220-2221 | atoi of two characters: the digits at their front, in decimal |
| SIDText.CountMisread | src/sparam.cpp:2220-2221 | the count, written in hexadecimal and read with decimal atoi, is read right exactly up to nine, and too small otherwise |
| SIDText.ThereAndBack | src/sparam.cpp:2207-2272 | strToHex then hexToStr keeps authority and exactly as many sub-authorities as the misread count says |
| SIDText.RoundTrip | src/sparam.cpp:2207-2272 | a canonical identifier is restored exactly if it has at most nine sub-authorities |
| SIDText.RoundTripHex | src/sparam.cpp:2207-2272 | well-formed upper-case hexadecimal is restored exactly if it has at most nine sub-authorities |
| SIDText.DecimalToHex | src/sparam.cpp:2337-2358 | the buffer filled from its end holds the fixed-width digits of the number |
| SIDText.HexToDecimal | src/sparam.cpp:2283-2310 | the loop from the last digit gives the number's value |
| SIDText.ToBigOrLittleEndian | src/sparam.cpp:2312-2323 | the loop reverses the bytes |
| SIDText.StrToHex | src/sparam.cpp:2239-2272 | the loops write version, count, authority and reversed sub-authorities |
| SIDText.HexToStr | src/sparam.cpp:2207-2237 | the loops write the canonical text of what they read |

## Left out

- `erase`, `pop_back` and `clear` of `XList` as written: their local iterators are finalised after the node is gone. `XListParams.XListParam.PopBack` models the unlinking half of `pop_back`.
- Reverse iterators, constant iterators, postfix `++` and `--`, self-assignment of iterators, `size()`, allocation and node recycling: nothing new beside the operations that are modelled.
- The atomicity of `usageNO` and of one mutex-protected iterator move is taken for granted. Reads and writes of the use count are steps of one global order; what else a data race on a plain `int` may do is not part of this model.
- Waking of sleepers without cause is modelled for objects; for the list a waiter rechecks its count whenever it wakes, so it would change nothing.
- XLists.XList.XErase: one undisturbed call, which goes to sleep where other threads would have to act; waking up and finishing are steps of `XListProtocol`.
- XObjects.XObject.IncRuse: one undisturbed call; its read and its write as two steps, with others in between, are the object machine's `HoldRead` and `HoldWrite`.
- XObjects.XObject.DecRuse: one undisturbed call; its test, its read and its write are the object machine's `ReleaseTest`, `ReleaseRead` and `ReleaseWrite`.
- XObjects.XObject.DisconnectAll: one undisturbed call, without what `delConnection` does on the other sides and without the detached frees.
- XObjects.XObject.ChStatus: one pass of the loop; the loop over wake-ups is the thread machine's `Try`, `Asleep` and broadcast.
- XObjects.XObject.AddConnection: one pass of its wait loop, likewise.
- XObjects.XObject.DelConnection: the notice and the detached free that follow the unlinking are not in it; the free is a pending free of the list.
- In the object machine the walks of `delConnection` and `disconnectAll` are what they meet, one record a step, and not their moves from node to node; `XListTraversal.ReaderComplete` is why a walk meets a record that stays, and `XObjects.XObject.DisconnectAll` is the walk of one undisturbed call.
- Callbacks that call back into the same object, the notification of dependent objects, and connections opened or closed outside of an operation (the failure path of `XObjectList::add`, `XObjectRepository::unload`).
- Repository locking, keys and names of objects, and everything about XML, the database, files, logging, UUIDs and regular expressions.
- XObjectScan.Scan: the lists of connections do not change during the scan.
- `XSetParam::sort`, `max`, `min`, `query` with other predicates, and allocation failures in `newT`.
- XSetParams.XSetParam.DelSoftAt: an iterator at the end, or one whose parameter has no key while the map is on, is undefined in the source and excluded.
- Bulk assignment of `XListParam`: the loop is that of `XSetParam`.
- XListParams.XListParam.Clear: the nodes' frees are pending frees of the list.
- XListParams.XListParam.AddParam: the node of a refused parameter is unlinked, its freeing is a pending free of the list.
- Fields.SplitByPositions: a text without the separator is excluded, since the source reads before its buffer there; positions are kept in a sequence and not counted first.
- IPParams.IPv6Param.SetAddress: texts of allowed characters without a colon are excluded for the same reason.
- IPParams.IPv6Param.Set: texts whose address part has allowed characters but no colon, as above.
- IPParams.IPv4Param.CheckNetwork: a netmask of length 0 is excluded, since the source shifts an `int` by its width there; the equality of names that assignment asks for is taken as given.
- `IPxParam`, ranges of addresses, ports, MAC and e-mail addresses, dates and times.
- SIDText.HexToDecimal: at most fifteen digits, beyond which the source's `long` overflows.
- SIDText.DecimalToHex: numbers of at most `len` digits; for larger ones the source writes before its buffer.
- SIDText.StrToHex: texts with fewer than three parts or with parts that are not decimal numbers in range, which the source does not check.
- SIDText.HexToStr: hexadecimal shorter than its count announces, which the source does not check either.
