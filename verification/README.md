# Pacemaker: attribute manager and crm_resource, modelled in Dafny

Two parts of Pacemaker are modelled here and proved correct, or proved to fail exactly where they do.

**The attribute manager** (`daemons/attrd`) keeps a table of attributes, each with a value per node, replicated by
cluster broadcasts. One elected node, the writer, copies the table to the CIB (the cluster's configuration and status
database) in asynchronous transactions. Write delays, deferral while a transaction is in flight, retries after
failure, nodes whose XML ID is not known yet, removed peers still to be erased, and the hand-over of the table to
joining nodes all meet in a handful of flags; what they guarantee only shows over whole runs.

**crm_resource** (`tools`) sets a meta-attribute along a colocation graph that may have cycles, creates and clears
location constraints, moves resources, and stops a resource and waits for the effect.

## How it is laid out

| file | contents |
|---|---|
| `Common.dfy`, `Model.dfy` | text folding, hash traversal, the state of one attribute manager |
| `Elections.dfy`, `CibWrites.dfy`, `Attributes.dfy`, `Corosync.dfy` | what each handler of the daemon does, as functions on that state |
| `Daemon.dfy` | a node together with the CIB, as a state machine: events, steps, runs |
| `Manager.dfy`, `ManagerRuns.dfy` | the daemon itself: an object whose handlers change its tables in place, in loops, proved equal to those functions, and the run theorems on its fields |
| `CibAgreement.dfy`, `WriterRuns.dfy` | the invariant between memory, calls in flight and CIB, kept by every handler, and what follows for every run |
| `WriteDelays.dfy`, `WriteTriggers.dfy` | when a change is held back, and what makes the writer write |
| `BlankEntries.dfy`, `ForeignEdits.dfy` | the two ways in which memory and CIB come to differ: entries no write covers, and edits by others |
| `Replica.dfy`, `ClearRequests.dfy`, `Convergence.dfy` | the part of the table that peers share, and why peers agree on it |
| `ClearOrder.dfy` | the one place where the order of traversal shows |
| `SyncTransfer.dfy`, `Corrections.dfy`, `Joining.dfy` | handing the table to another node, what becomes of that node's own values, and when the table is sent |
| `Lifecycle.dfy`, `Succession.dfy`, `KnownWriter.dfy` | removed peers, winning an election, never being without a writer, and which writer a node knows |
| `Limits.dfy` | where the daemon does less than one would expect, each with its exact condition |
| `Client.dfy`, `ClientBroadcasts.dfy`, `RegexUpdates.dfy` | requests from clients, what peers are told of them, and updates by regular expression |
| `ResourceAttributes.dfy`, `AttributeLoops.dfy`, `AttributeOrder.dfy` | recursive attribute updates over colocations, when they end, and when they change each resource once |
| `Constraints.dfy`, `ConstraintEditor.dfy`, `ConstraintMeaning.dfy`, `ConstraintAlgebra.dfy` | ban, prefer, clear and move, and what constraints ask of the scheduler |
| `TargetRole.dfy`, `Restart.dfy` | the target role that a restart sets and puts back, and its stop phase |

The functions are the specification: the run theorems are about them, and the classes (`Manager`, `Handling`,
`Updater`, `Editor`, `Restarter`) are proved to compute them. `dafny verify dfyconfig.toml` checks everything.

What the outside world decides is a parameter of each step: the order in which hash tables are traversed (any order
that visits every key once), which CIB calls cannot be sent, whether the node is an active member, how a vote turns
out, what a pattern matches. Every theorem holds for all of these.

## Findings

Properties that one would expect and that the code does not have are stated with a concrete case or for the whole
family, together with the condition under which they do hold:

- An entry for a value that is not taken over is one that no transaction covers, so memory and CIB may differ: a
  value that was never held is unset, or a sync response sets the node's own (`BlankEntries.BlankIffNotTaken`,
  `BlankEntries.UnsetOfUnknownDisagrees`, `BlankEntries.OwnValueFromSyncDisagrees`).
- A removed peer for which one attribute is set again is taken off the list of peers to erase, and keeps its other
  values in the CIB (`Limits.WinCleansIffListed`, `Limits.ReturnedPeerKeepsStaleValues`, `Limits.StaleValueSurvives`).
- A request to write everything passes over an attribute with a transaction in flight and leaves no note of it. So
  an edit of the CIB by somebody else is repaired, unless it falls between the application of a transaction and its
  reply (`Limits.RefreshWritesIffIdle`, `ForeignEdits.AgreementAfterEdit`, `ForeignEdits.EditIsRepaired`,
  `ForeignEdits.EditInWindowIsNotRepaired`, `ForeignEdits.EditLeavesDisagreement`).
- A request to clear failures whose children name no attribute clears only the attribute matched first, which may
  differ between nodes (`ClearOrder.ClearsTheFirst`, `ClearOrder.OrderMatters`, `ClearOrder.OrdersDisagree`).
- The broadcast with which a node corrects a peer's idea of its value is ignored by every receiver, because its only
  child is not an operation element (`SyncTransfer.CorrectionIsIgnored`). So a writer that has a wrong value for a
  joining node keeps it (`Corrections.OwnValueIsLearned`, `Corrections.WriterLearnsIff`).
- A node that loses its writer while it is not an active member calls no election (`Succession.NeverWithoutAWriter`).
- A client operation with both a name and a regular expression makes the daemon recurse without end
  (`Client.AnswersIffNotStuck`).
- Without force, two groups that are each colocated with a member of the other make a recursive update endless
  (`AttributeLoops.CrossedGroupsNeverEnd`). That is so even if the attribute is set nowhere to begin with, since the
  update sets it on the members along the way (`AttributeLoops.AcquiredLoopNeverEnds`); and a resource may be changed
  twice (`AttributeLoops.ChangedTwice`, `AttributeOrder.ChangedOnceIff`). `AttributeLoops.EndsIffNoLateLoop` and
  `AttributeLoops.EndsWhateverIsSet` say exactly when updates end.
- A move can succeed and leave a ban from its destination, because errors while clearing are ignored
  (`ConstraintAlgebra.MoveLeaves`, `ConstraintAlgebra.MoveCanLeaveBan`).
- Ban IDs of different resources can coincide, and then clearing one resource removes another's ban
  (`ConstraintAlgebra.BanIdsClashIff`, `ConstraintAlgebra.ClearCanTakeAnothersBan`).
- A restart looks for the target role anywhere below the resource, but sets and deletes it among the meta-attributes:
  an instance attribute of that name becomes a meta-attribute, and a target role beside such an attribute is lost
  (`TargetRole.RoleIsRestored`, `TargetRole.InstanceRoleBecomesMeta`, `TargetRole.RoleIsLost`).
- If resources come and go while a restart waits for them to stop, the waiting need not end
  (`Restart.WaitingCanBeEndless`).

Where a comment and the code disagree, the model follows the code: `find_matching_attr_resources()` says its result is
in pre-order, but the search is post-order with the root last (`tools/crm_resource_runtime.c:236-238, 248`).

## Model

| member | source | states |
|---|---|---|
| WriterRuns.StepKeeps | daemons/attrd/attrd_cib.c:249-723 | Every step a node or the CIB can take keeps the invariant that ties memory, the transactions in flight, their callbacks and the CIB together. |
| WriterRuns.RunKeeps | daemons/attrd/attrd_cib.c:249-723 | The invariant holds in every state of every run from start-up. |
| WriterRuns.QuiescentAgreement | daemons/attrd/attrd_cib.c:249-338 | In every run, at the writer, an attribute for the CIB with nothing in flight, no running timer and no node of unknown XML ID has the same value in the CIB as in memory, for a node with an entry, if and only if a transaction has covered the entry or the CIB has no value. |
| WriterRuns.NoLostWakeUp | daemons/attrd/attrd_cib.c:264-337 | In every state of every run, at the writer, an attribute with an unwritten change has a transaction in flight or a running timer. |
| WriterRuns.InFlightSnapshot | daemons/attrd/attrd_cib.c:529-659 | While a transaction is outstanding each value equals the one requested unless the attribute is flagged, and exactly one callback is registered for the attribute, for that call. |
| WriterRuns.NeverConsideredLost | daemons/attrd/attrd_cib.c:529-539 | A transaction in flight always has a later call ID than the last one completed, so it is never given up as lost. |
| WriterRuns.RemovedHasNoValue | daemons/attrd/attrd_corosync.c:27-50 | In every reachable state, a peer still listed for erasure has no value of any attribute in memory. |
| WriterRuns.PrivateStaysPrivate | daemons/attrd/attrd_cib.c:522-525 | In every run, no transaction carries a private attribute, nor any attribute in stand-alone mode. |
| WriteDelays.DelayHolds | daemons/attrd/attrd_corosync.c:359-366 | In every run, while the delay of an attribute is running it goes on and no transaction for the attribute is issued, until its timer fires, a client asks for a refresh, or a message forces the write or changes the delay. |
| WriteDelays.ChangeIsDelayed | daemons/attrd/attrd_corosync.c:344-366 | In every state that the invariant allows, a changed value of an attribute with a delay is held and flagged, its timer runs, and no call is issued. |
| WriteDelays.ChangeIsWritten | daemons/attrd/attrd_corosync.c:359-366 | Without a delay, and with nothing in the way, the writer issues one transaction at once: the changed value for its node, and all other values as they are, for exactly the nodes whose XML ID is known. |
| WriteTriggers.RefreshWritesAll | daemons/attrd/attrd_ipc.c:219-228 | A client's refresh asks the CIB for the current value of every attribute on every known node, unless the attribute is being written already, whatever delays are running. |
| WriteTriggers.TimerWrites | daemons/attrd/attrd_cib.c:240-246 | When a delay is over, the writer issues one transaction with the current values, and neither a flag nor a running delay is left. |
| WriteTriggers.ReplyWritesDeferred | daemons/attrd/attrd_cib.c:305-311 | What was changed while a write was in flight is written when the reply comes, unless a delay is running. |
| WriteTriggers.ReplyConfirms | daemons/attrd/attrd_cib.c:264-303 | A reply that a write has succeeded is noted as the last one done; if nothing has changed meanwhile, nothing is outstanding, no call is issued, and a timer that was only there to try again is gone. |
| WriteTriggers.FailureIsRetried | daemons/attrd/attrd_cib.c:298-337 | A write that failed is not repeated at once but leaves a running timer, and when that fires the current values are written. |
| WriteTriggers.DelayChangeWrites | daemons/attrd/attrd_attributes.c:101-117 | A changed delay, capped at the largest 32-bit integer, writes the attribute at once even if the old delay was running, and leaves no delay running. |
| WriteTriggers.ForceIsNoted | daemons/attrd/attrd_corosync.c:368-384 | A message that repeats a value causes no call; that it asks for the value to be written is noted if and only if the attribute has a delay. |
| WriteTriggers.ForcedIsWritten | daemons/attrd/attrd_cib.c:691-723 | The next time the writer goes through its attributes, it writes one so noted in spite of its delay. |
| WriteTriggers.ForcedIsDeferred | daemons/attrd/attrd_cib.c:691-723 | If the attribute is being written at that moment, it is flagged, and nothing else about it changes, so that the reply leads to another write. |
| WriteTriggers.LearningWrites | daemons/attrd/attrd_corosync.c:389-405 | When the writer learns the XML ID of a node, the values that could not be written without it are. |
| WriteTriggers.MembershipMakesKnown | daemons/attrd/attrd_cib.c:578-650 | Once the membership has the XML ID of a node that is not remote, the node's values are ready to be written, under that ID. |
| WriteTriggers.WriteRemembersId | daemons/attrd/attrd_cib.c:578-650 | A write remembers the XML ID it was made under: a remote node's name, or else what the membership says, or else what was known before. |
| BlankEntries.BlankIffNotTaken | daemons/attrd/attrd_corosync.c:288-406 | After any update of a host, from a client or a sync response, the entry is one that no transaction covers if and only if it was so before or was not there, the value is not taken over, and no write is caused by learning the XML ID. |
| BlankEntries.UnsetOfUnknownDisagrees | daemons/attrd/attrd_corosync.c:326-328 | A run at whose end the writer is quiescent, memory says unset and the CIB has a value, after a value never held was unset. |
| BlankEntries.OwnValueFromSyncDisagrees | daemons/attrd/attrd_corosync.c:329-341 | The same after another writer has set the node's own value in the CIB and told the node so. |
| ForeignEdits.AgreementAfterEdit | daemons/attrd/attrd_cib.c:47-100 | In every run with an edit of the CIB by somebody else and the refresh it causes, a quiescent entry agrees with the CIB if and only if it has been written since the edit or the edit left its value there; it has been written unless the edit fell between the application of a transaction for the attribute and its reply. |
| ForeignEdits.EditIsRepaired | daemons/attrd/attrd_cib.c:47-100 | Outside that window, memory and CIB agree again at quiescence. |
| ForeignEdits.EditInWindowIsNotRepaired | daemons/attrd/attrd_cib.c:529-551 | In that window, if nothing else has changed the attribute and the reply comes next, the attribute is quiescent and the CIB has what the edit put there. |
| ForeignEdits.EditLeavesDisagreement | daemons/attrd/attrd_cib.c:529-551 | A run from start-up at whose end the writer is quiescent with a value that the CIB does not have. |
| Succession.OnlyTheWriterWrites | daemons/attrd/attrd_cib.c:726-733 | In any step other than a client's refresh, a node that is not and does not become writer issues no CIB call. |
| Succession.StartErasesOwn | daemons/attrd/attrd_cib.c:217-231 | In every run, the first thing a node asks of the CIB is to erase the attributes left under its own name. |
| Succession.WinIsSafeAndComplete | daemons/attrd/attrd_elections.c:23-36 | Winning in any reachable state erases exactly the removed peers, none of which has a value, leaves none listed, and every attribute for the CIB with a value on a known node is in flight or timer-pending. |
| Succession.RemovalObligation | daemons/attrd/attrd_corosync.c:650-700 | From the moment a peer is removed, and as long as no value is set for it again, it is still listed for erasure or its erasure has been requested since. |
| Succession.NeverWithoutAWriter | daemons/attrd/attrd_elections.c:143-174 | From a state with a recorded writer, an election in progress or a shutdown under way, a step leads to such a state if and only if the node is an active member or the step does not make it forget its writer. |
| Succession.LedForever | daemons/attrd/attrd_elections.c:45-54 | The same over whole runs of a node that stays an active member. |
| Succession.WriterKnowsItself | daemons/attrd/attrd_elections.c:111-140 | In every run, a node that has won the election records no other node as writer. |
| Succession.RivalMakesItStepDown | daemons/attrd/attrd_elections.c:111-132 | A writer that gets another writer's sync response stays writer if and only if it is not an active member and so cannot call an election. |
| KnownWriter.WriterIsLastLearned | daemons/attrd/attrd_elections.c:63-174 | In every run, the recorded writer is the one learned of last, by its declaration, by a vote or by winning, and no event since has put it in question; if none is recorded, none has been learned of or the last such event was a loss or a call for a new election. |
| KnownWriter.StepTeaches | daemons/attrd/attrd_elections.c:63-174 | Every step leaves as recorded writer what a table of lessons, one for each kind of event, says. |
| KnownWriter.DeclarationIsBelieved | daemons/attrd/attrd_elections.c:111-132 | A node that is not writer takes the sender of a writer's sync response for the writer, whatever it thought before, and no other sync response changes its mind. |
| KnownWriter.LoserRecordsWinner | daemons/attrd/attrd_elections.c:81-98 | A node that has just lost a vote steps down and records the peer it lost to. |
| KnownWriter.ElectionGoesOn | daemons/attrd/attrd_elections.c:63-108 | How every vote, the time-out and the departure of a voter change the state of the election. |
| KnownWriter.TimerCallsElection | daemons/attrd/attrd_elections.c:45-54 | A member that knows no writer calls an election when a delay is over. |
| KnownWriter.RemovalCallsElection | daemons/attrd/attrd_corosync.c:650-700 | So it does when told to remove a peer. |
| KnownWriter.LossCallsElection | daemons/attrd/attrd_corosync.c:221-280 | So it does when a node is lost. |
| KnownWriter.ChangeCallsElection | daemons/attrd/attrd_cib.c:726-733 | So it does when a value without delay changes. |
| KnownWriter.VoteIsCast | daemons/attrd/attrd_elections.c:45-54 | No step takes back a message, and whenever an election is under way that was not before, a vote has been sent. |
| Convergence.NonInterference | daemons/attrd/attrd_corosync.c:288-616 | The table at the end of any run of a node, live or shutting down, is the one its updates, failure clearings, sync responses and peer removals alone produce; timers, CIB replies, elections and refreshes do not show in it, nor does hash order, but for the attribute that a failure clearing matches first. |
| Convergence.EqualTablesStayEqual | daemons/attrd/attrd_corosync.c:736-769 | Two nodes with equal tables that see the same updates, failure clearings and removals, each interleaved with anything of its own, hold equal tables; only for failure clearings with children that name no attribute is the order of traversal to be the same. |
| Convergence.OthersStayEqual | daemons/attrd/attrd_corosync.c:589-616 | With sync responses from third nodes as well, they hold tables that are equal but for the values of the two nodes themselves. |
| Convergence.ReachableTables | daemons/attrd/attrd_attributes.c:24-81 | In every reachable state, values are filed under folded node names, and every attribute for the CIB has a valid set type. |
| Replica.PeerUpdateView | daemons/attrd/attrd_corosync.c:736-769 | Applying an update message does to the shared table what an order-free definition of updates says, on any node and in any traversal order. |
| ClearRequests.ClearFailureView | daemons/attrd/attrd_corosync.c:539-578 | Any request to clear failures changes the table in a way that depends on the order of traversal only through the attribute matched first, whose name children without one then keep: the matching rows are unset, for the host named or all hosts, or the children are applied once for each match. |
| ClearRequests.NamedInAnyOrder | daemons/attrd/attrd_corosync.c:539-578 | Without children, or with children that all name their attributes, the order does not matter at all. |
| ClearOrder.ClearsTheFirst | daemons/attrd/attrd_corosync.c:560-574 | If no child names its attribute, no attribute but the one matched first is changed, however many match; the children are carried out on it once for each match. |
| ClearOrder.OrderMatters | daemons/attrd/attrd_corosync.c:560-574 | Two orders of traversal that match different attributes first then lead to equal tables if and only if both attributes are already as the children would have them: entries for all nodes named, marked as seen and remote where asked, with the values and the delay that the children leave. |
| ClearOrder.ClearingOrderMatters | daemons/attrd/attrd_corosync.c:560-574 | For children that only clear: if and only if both attributes are already unset for the node each child addresses, or for all nodes if it names none. |
| ClearOrder.OrdersDisagree | daemons/attrd/attrd_corosync.c:560-574 | A node with two failures, and two orders in which one request leads to different tables. |
| Replica.PeerRemoveView | daemons/attrd/attrd_corosync.c:650-700 | Removing a peer removes its entry from every row and changes nothing else in the table. |
| SyncTransfer.OwnValuesWin | daemons/attrd/attrd_corosync.c:326-341 | No sync response, whatever its children, changes the current value of any attribute the node holds for itself. |
| SyncTransfer.HandOff | daemons/attrd/attrd_corosync.c:453-487 | Having loaded the writer's response, a node rebroadcasts exactly those of its own values without an accepted entry in it, each once, with the value it had, its XML ID as far as known, and marked to be written in spite of a delay if there is one. |
| SyncTransfer.HandOffReachesPeers | daemons/attrd/attrd_corosync.c:589-616 | Each such value is, after a peer has handled the rebroadcast, held by that peer. |
| SyncTransfer.SyncRoundTrip | daemons/attrd/attrd_corosync.c:709-733 | Loading a node's sync message into an empty table rebuilds its table, except that attributes without values are absent, delays are rounded to seconds, and the receiver's own values stay unset. |
| SyncTransfer.JoiningNodeRebuildsTable | daemons/attrd/attrd_corosync.c:589-616 | The same for a node that joins with an empty table and handles the writer's message. |
| Joining.JoinSendsTable | daemons/attrd/attrd_corosync.c:246-262 | When a node joins, the writer sends it one message, with which, if its table is empty, it rebuilds the writer's; a node that is not writer sends it no table but its name. |
| Joining.WinSendsTable | daemons/attrd/attrd_elections.c:23-36 | A node that wins sends everyone, once, a message that does the same. |
| Joining.TableBringsIds | daemons/attrd/attrd_corosync.c:709-733 | With the table a joining node gets the XML IDs of all nodes with a value in it that the writer knows. |
| Joining.DelayIsRounded | lib/common/utils.c:403-421 | The delay told to peers is the nearest whole number of seconds, but at least one second for any delay. |
| Joining.NamelessTeachesNoId | daemons/attrd/attrd_corosync.c:427-437 | An update that names no node, and so may concern many, teaches a node that is not writer no XML ID. |
| Joining.ReapForgets | daemons/attrd/attrd_corosync.c:650-700 | The removal of a peer makes a node forget the peer's XML ID if and only if the request says so, and no other. |
| SyncTransfer.CorrectionIsIgnored | daemons/attrd/attrd_corosync.c:200-208 | No receiver acts on the broadcast that corrects a value. |
| Corrections.OwnValueIsLearned | daemons/attrd/attrd_corosync.c:326-341 | After a node has handled the writer's table, and a peer everything the node has sent in answer, the peer has the node's own value of an attribute if and only if the table had no entry for it that the node accepts, or the peer had the value before. |
| Corrections.WriterLearnsIff | daemons/attrd/attrd_corosync.c:589-616 | The writer that has sent its table then has the node's own value if and only if it had no entry for it or the same value. |
| Corrections.CorrectionIsSent | daemons/attrd/attrd_corosync.c:326-341 | A node that is sent a wrong value of its own broadcasts the right one, in one message that names the attribute, the value and the node. |
| Corrections.OthersAreNotAnswered | daemons/attrd/attrd_corosync.c:589-616 | To a sync response from a node that is not writer, a node answers with nothing but corrections and votes. |
| Limits.WinCleansIffListed | daemons/attrd/attrd_corosync.c:625-639 | For an attribute without a value on a node, winning touches what the CIB has there if and only if the node is listed as removed. |
| Limits.ReturnedPeerKeepsStaleValues | daemons/attrd/attrd_corosync.c:298-309 | After one attribute of a removed peer is set again, winning issues no call that touches the peer's other attributes. |
| Limits.StaleValueSurvives | daemons/attrd/attrd_corosync.c:298-309 | A run from start-up in which a peer with two attributes is lost and returns with one: the other is still in the CIB when this node is writer, has no such value and no peer to erase, and all its calls have been processed. |
| Limits.RefreshWritesIffIdle | daemons/attrd/attrd_cib.c:529-551 | Asked to write an attribute with a value to write, the node issues a call if and only if nothing is in flight and no delay holds it back; otherwise its state does not change. |
| Limits.RefreshDuringFlight | daemons/attrd/attrd_cib.c:47-100 | A refresh while a transaction is applied but not answered, followed by the reply, leaves the attribute looking written: nothing in flight, flagged or scheduled, and no call issued for it. |
| Limits.ShutdownIgnores | daemons/attrd/attrd_corosync.c:85-91 | A node that is shutting down answers votes, but no other message, and no change of the CIB, has any effect on it. |
| AttributeManager.Manager.WriteAttribute | daemons/attrd/attrd_cib.c:509-682 | The write, with its waits, flags, loop over values and refused commits, has exactly the effect that the run theorems are about. |
| AttributeManager.Manager.Collect | daemons/attrd/attrd_cib.c:578-650 | The loop puts into the transaction exactly the values of nodes with known XML ID, notes them as requested, remembers the IDs, and flags the attribute if and only if some node is unknown. |
| AttributeManager.Manager.CibCallback | daemons/attrd/attrd_cib.c:249-338 | A reply confirms or reschedules the attribute it is about, and writes what was deferred, as specified. |
| AttributeManager.Manager.TimerExpired | daemons/attrd/attrd_cib.c:240-246 | Expiry writes the attribute or calls an election, as specified. |
| AttributeManager.Manager.WriteAttributes | daemons/attrd/attrd_cib.c:691-723 | The loop over all attributes writes those asked for, flagged or waiting for a node, as specified. |
| AttributeManager.Manager.CreateAttribute | daemons/attrd/attrd_attributes.c:24-81 | Creates the specified attribute, or nothing if the set type is invalid. |
| AttributeManager.Manager.UpdateDampening | daemons/attrd/attrd_attributes.c:84-120 | Changes the delay and writes at once, or rejects the delay, as specified. |
| AttributeManager.Manager.Populate | daemons/attrd/attrd_attributes.c:186-222 | Finds, creates or re-delays the attribute and says whether a value is to be set, as specified. |
| AttributeManager.Manager.ClearValueSeen | daemons/attrd/attrd_attributes.c:169-183 | The nested loops take the mark off every value and change nothing else. |
| AttributeManager.Manager.UpdateOnHost | daemons/attrd/attrd_corosync.c:288-406 | One host's value is created, compared, kept, corrected, delayed or written, and its XML ID learned: the effect that `WriteDelays`, `WriteTriggers`, `BlankEntries` and `Corrections` are about. |
| AttributeManager.Manager.PeerUpdateOne | daemons/attrd/attrd_corosync.c:409-450 | One update for the host named, or for every host with an entry, as specified. |
| AttributeManager.Manager.PeerUpdate | daemons/attrd/attrd_corosync.c:736-769 | The loop over operation children, each completed from its parent, as specified. |
| AttributeManager.Manager.ClearFailure | daemons/attrd/attrd_corosync.c:539-578 | The loop over matching attributes, as specified. |
| AttributeManager.Manager.AllValues | daemons/attrd/attrd_corosync.c:709-733 | The nested loops list every value of every attribute, as the round trip needs. |
| AttributeManager.Manager.UnseenValues | daemons/attrd/attrd_corosync.c:453-487 | The nested loops list the local values no peer is known to have, as the hand-off needs. |
| AttributeManager.Manager.HandleSyncResponse | daemons/attrd/attrd_messages.c:176-196 | A sync response is checked for a new writer, loaded child by child, and answered, as specified. |
| AttributeManager.Manager.EraseRemoved | daemons/attrd/attrd_corosync.c:625-639 | The writer's loop erases and forgets every removed peer. |
| AttributeManager.Manager.PeerRemove | daemons/attrd/attrd_corosync.c:650-700 | A peer's values go from every attribute; the writer erases it at once, others list it and see to an election. |
| AttributeManager.Manager.WinElection | daemons/attrd/attrd_elections.c:23-36 | Declaring, syncing, erasing and writing everything, as specified. |
| AttributeManager.Manager.HandleElectionOp | daemons/attrd/attrd_elections.c:63-108 | The writer recorded after a vote, for every election state and outcome, as specified. |
| AttributeManager.Manager.CheckForNewWriter | daemons/attrd/attrd_elections.c:111-132 | A writer learned from a sync response, or a contest between two: the effect that `KnownWriter.DeclarationIsBelieved` and `Succession.RivalMakesItStepDown` are about. |
| AttributeManager.Manager.RemoveVoter | daemons/attrd/attrd_elections.c:143-174 | Losing the writer or another voter, as specified. |
| AttributeManager.Manager.PeerLost | daemons/attrd/attrd_corosync.c:221-280 | A lost node is removed and, unless remote, no longer votes. |
| AttributeManager.Manager.Handle | daemons/attrd/attrd_messages.c:267-312 | Every kind of event that runs consist of changes the object as the state machine says, so the run theorems are about this object. |
| ManagerRuns.Live | daemons/attrd/attrd_messages.c:267-312 | The object that handles the events of any run one after the other ends in the state of that run; on its own fields, no change at the writer is forgotten, what is quiescent agrees with the CIB, and a winner records no other writer. |
| Client.AnswersIffNotStuck | daemons/attrd/attrd_ipc.c:391-479 | The recursion on a request ends if and only if no operation it reaches has both a name and a regular expression. |
| Client.NamedOnceEnds | daemons/attrd/attrd_ipc.c:247-276 | In particular it ends for every request none of whose elements has both. |
| Client.BroadcastsAreAddressed | daemons/attrd/attrd_ipc.c:231-241 | Whatever a client asks for, every operation that is broadcast names a node. |
| Client.AllOrNothing | daemons/attrd/attrd_ipc.c:404-430 | When peers take several operations at once, one message is broadcast if the client is told the request is done, and none otherwise. |
| ClientBroadcasts.BroadcastsWhatIsAsked | daemons/attrd/attrd_ipc.c:391-479 | Whatever a client asks for, exactly that is broadcast, in order: each operation names the client's node or else the local one, and carries the value asked for, or the outcome of its increment on the value of that node; operations on unknown attributes are left out, or, if peers take all at once, stop all. |
| ClientBroadcasts.PreparedIsTold | daemons/attrd/attrd_ipc.c:231-241 | An operation is made ready for peers by adding the local node and its XML ID where no node is named and replacing an increment by its outcome, and in no other way; only the change of the delay of an unknown attribute fails. |
| ClientBroadcasts.RepliesAre | daemons/attrd/attrd_ipc.c:296-322 | What the client is told: done, no such attribute, a bad regular expression, or nothing named. |
| ClientBroadcasts.BatchIsTheRequest | daemons/attrd/attrd_ipc.c:404-430 | Several operations at once are broadcast in one message that is otherwise the client's own. |
| ClientBroadcasts.ClientSetsLocalValue | daemons/attrd/attrd_ipc.c:465-478 | End to end, a client that sets a value without naming a node sets it, at every peer, for the node that the client runs on. |
| Client.Handling.Update | daemons/attrd/attrd_ipc.c:391-479 | The request is edited, split, expanded and broadcast, with the reply the client gets: the effect that `ClientBroadcasts.BroadcastsWhatIsAsked` and `ClientBroadcasts.RepliesAre` are about. |
| Client.Handling.PrepareChildren | daemons/attrd/attrd_ipc.c:404-430 | The loop puts in the local node where none is named and the outcomes of increments, in all operation children, as `ClientBroadcasts.PreparedIsTold` says, or fails if and only if one of them cannot be prepared. |
| Client.Handling.ExpandRegex | daemons/attrd/attrd_ipc.c:247-294 | The loop adds one operation for each attribute that matches. |
| RegexUpdates.RegexBroadcast | daemons/attrd/attrd_ipc.c:247-294 | Peers get one operation for each matching attribute and no other, each once, for the node the client named or else the local one, with the value asked for or the outcome of an increment on the local table; in one message or in one message each. |
| RegexUpdates.BatchIsSplit | daemons/attrd/attrd_ipc.c:404-445 | A peer that takes in the single message ends in the very state the separate messages lead to. |
| RegexUpdates.BatchRefinesSplit | daemons/attrd/attrd_corosync.c:736-760 | A peer that takes in the single message and one that takes in the separate messages in any order, each traversing its tables as it likes, end with equal tables. |
| ResourceAttributes.UpdatesTheReachable | tools/crm_resource_runtime.c:431-595 | If no resource concerned comes to stand for another, however much of the attribute the update itself sets, an update over any colocation graph ends, marks exactly the resources reachable by positive colocations, and changes each of them (that the CIB accepts) once. |
| ResourceAttributes.ForceUpdatesTheReachable | tools/crm_resource_runtime.c:431-595 | With force this holds of every update over every colocation graph. |
| ResourceAttributes.ForceIsDirect | tools/crm_resource_runtime.c:260-265 | With force no resource stands for another, whatever has the attribute. |
| AttributeLoops.UpdateTerminates | tools/crm_resource_runtime.c:562-590 | With or without force, an update ends if, however much of the attribute it sets along the way, there is no cycle of dependents that are updated before the resource they depend on is marked. |
| AttributeLoops.ForceIsRanked | tools/crm_resource_runtime.c:260-265 | With force there is no such cycle. |
| AttributeLoops.LateLoopNeverEnds | tools/crm_resource_runtime.c:562-590 | If there is such a cycle, whatever the update sets, updating any resource on it never ends. |
| AttributeLoops.EndsIffNoLateLoop | tools/crm_resource_runtime.c:562-590 | If all resources have the attribute, every update ends if and only if there is no such cycle. |
| AttributeLoops.EndsWhateverIsSet | tools/crm_resource_runtime.c:562-590 | For groups and primitives, every update ends, from every state of the CIB, if and only if there is no such cycle once all resources have the attribute. |
| AttributeLoops.AcquiredLoopNeverEnds | tools/crm_resource_runtime.c:483-590 | An update with the attribute set nowhere, where each resource stands for itself, that never ends. |
| AttributeLoops.ChangedTwice | tools/crm_resource_runtime.c:483-590 | An update with the attribute set nowhere that changes a resource twice. |
| AttributeOrder.ChangedOnceIff | tools/crm_resource_runtime.c:483-590 | For groups and primitives, with no member of a group having the attribute yet: an update without force ends and changes each resource once if and only if, in the order in which an update with force changes them, no group comes after one of its members; and then it does the same as with force. |
| AttributeLoops.CrossedGroupsNeverEnd | tools/crm_resource_runtime.c:562-590 | Two groups colocated with each other's members, which have the attribute, are such a cycle, and updating either never ends. |
| ResourceAttributes.RootIsLast | tools/crm_resource_runtime.c:213-245 | The search for resources with the attribute lists the one it starts from last. |
| ResourceAttributes.InstanceOrClone | tools/crm_resource_runtime.c:260-275 | An update of an instance of a clone changes the instance first if it has the attribute, and otherwise the clone; with force, the instance. |
| ResourceAttributes.CloneOrChild | tools/crm_resource_runtime.c:277-296 | An update of a clone changes its child first if that is a primitive that has the attribute, and otherwise the clone; with force, the clone. |
| ResourceAttributes.SingleIsTheOneNamed | tools/crm_resource_runtime.c:398-407 | An update meant for a single resource changes the one named first, even if it has children with the attribute. |
| ResourceAttributes.Updater.Update | tools/crm_resource_runtime.c:431-595 | Whenever an update ends, the recursion with its marks, its list of changes and the attribute set that it queries and changes does what the specification says, with or without force. |
| ConstraintAlgebra.ClearExactly | tools/crm_resource_ban.c:320-359 | Clearing that succeeds leaves exactly the constraints that none of the nodes clears, in order; clearing that fails has not removed any of those. |
| ConstraintAlgebra.ClearNodeExactly | tools/crm_resource_ban.c:254-316 | Clearing one node, after any bans and preferences, removes its ban, if asked to, and the preference if it is for that node or with force, and nothing else. |
| ConstraintAlgebra.BanForbids | tools/crm_resource_ban.c:67-150 | Whatever was there before, a ban that succeeds leaves one constraint of its ID, which keeps the resource in its role off the node, for as long as asked; one that fails changes nothing, and no other constraint changes. |
| ConstraintAlgebra.PreferDemands | tools/crm_resource_ban.c:154-230 | Likewise, a preference that succeeds leaves one that demands the resource to be on the node. |
| ConstraintAlgebra.ClearUndoesHistory | tools/crm_resource_ban.c:67-359 | After any history of bans and preferences on known nodes, some of which may have failed, every constraint that was not there before says what one of the commands asked for; clearing a resource on all nodes removes every constraint made for it and nothing else. |
| ConstraintAlgebra.MoveLeaves | tools/crm_resource_runtime.c:2625-2664 | Without force a resource is not moved to where it is. A successful move leaves one preference, which demands the resource at the destination; a ban from there remains if and only if there was one and the CIB refused one of the two calls to clear it; with force, a ban from the current location, which forbids the resource there, is left if and only if it was there or the CIB accepts it; nothing else changes. |
| ConstraintAlgebra.MoveCanLeaveBan | tools/crm_resource_runtime.c:2641-2650 | A move that succeeds and leaves both the ban from the destination and the preference for it. |
| ConstraintAlgebra.BanIdsClashIff | tools/crm_resource_ban.c:84 | Bans of two resources have the same ID apart from case, for some nodes, if and only if one name followed by the separator begins with the other followed by the separator. |
| ConstraintAlgebra.SeparateWhenApart | tools/crm_resource_ban.c:84 | If that is so for no two resources, node names differ apart from case, and other constraints do not use the tool's prefixes, constraint IDs tell resources and nodes apart. |
| ConstraintAlgebra.ClearCanTakeAnothersBan | tools/crm_resource_ban.c:84 | Otherwise clearing one resource can remove another's ban. |
| ConstraintEditor.Editor.Ban | tools/crm_resource_ban.c:67-150 | Creates or merges the ban, trying the role's old name if need be: the effect that `ConstraintAlgebra.BanForbids` is about. |
| ConstraintEditor.Editor.Prefer | tools/crm_resource_ban.c:154-230 | Creates or merges the preference likewise: the effect that `ConstraintAlgebra.PreferDemands` is about. |
| ConstraintEditor.Editor.Remove | lib/common/xml_element.c:869-926 | The search deletes the first matching constraint only. |
| ConstraintEditor.Editor.ClearHost | tools/crm_resource_ban.c:254-316 | Deletes a node's preference in either form, and its ban if asked, as specified. |
| ConstraintEditor.Editor.Clear | tools/crm_resource_ban.c:320-359 | The loop over nodes stops at the first error, as specified. |
| ConstraintEditor.Editor.Move | tools/crm_resource_runtime.c:2625-2664 | Clears, clears, prefers and perhaps bans, with the result of the preference, as specified. |
| Restart.RoundsEnd | tools/crm_resource_runtime.c:1870-1914 | If no look shows a resource that was not active before, waiting ends after at most as many rounds as there are resources to stop. |
| Restart.StoppedMeansTarget | tools/crm_resource_runtime.c:1870-1914 | Whatever is observed, a normal end means that everything active was predicted to be; giving up means that something else is still active. |
| Restart.RoundLooksAsAllowed | tools/crm_resource_runtime.c:1880-1901 | A round looks again as long as something is left to stop, no more often than allowed and not after a look that failed, and ends with what the last look showed. |
| Restart.TimedOutMeansNoProgress | tools/crm_resource_runtime.c:1906-1912 | Giving up means that the last round used all its looks, none of which failed, and left as many resources to stop as before. |
| Restart.WaitingCanBeEndless | tools/crm_resource_runtime.c:1870-1914 | There is a course of events, with a resource that starts and stops in turn, in which waiting does not end after any number of rounds. |
| TargetRole.RoleIsRestored | tools/crm_resource_runtime.c:1824-1844 | However the phase ends, the name/value pairs below the resource are as before if and only if the role cannot be set (the CIB refuses, there are several, or none while the ID for one is taken outside the set), or it is the only pair of that name, or it is not among the meta-attributes while none or several are elsewhere and the ID for a new pair is free; if the CIB refuses to put it back, only if it was stopped already. |
| TargetRole.InstanceRoleBecomesMeta | tools/crm_resource_runtime.c:1830-1844 | With an instance attribute named like the target role and nothing else, the phase adds a meta-attribute with its value. |
| TargetRole.RoleIsLost | tools/crm_resource_runtime.c:1915-1935 | With a target role and another pair of that name elsewhere below the resource, the phase deletes the target role. |
| Restart.ActiveIffRunning | tools/crm_resource_runtime.c:1382-1404 | A resource counts as active if and only if it runs, however deep it sits in groups. |
| Restart.Restarter.FindRole | tools/crm_resource_runtime.c:139-208 | The look-up finds nothing, the one pair, or several, which is an error, among the meta-attributes or anywhere below the resource. |
| Restart.Restarter.SetRole | tools/crm_resource_runtime.c:431-595 | Changes the pair that is there, or adds one under the fixed IDs, and fails if there are several or the CIB refuses, as specified. |
| Restart.Restarter.DeleteRole | tools/crm_resource_runtime.c:647-749 | Deletes the pair if there is exactly one, as specified. |
| Restart.Restarter.Poll | tools/crm_resource_runtime.c:1880-1901 | The inner loop looks until nothing is left to stop, the looks are used up, or a look fails, as specified. |
| Restart.Restarter.AwaitStop | tools/crm_resource_runtime.c:1870-1914 | Whenever the outer loop ends, it ends as specified. |
| Restart.Restarter.StopPhase | tools/crm_resource_runtime.c:1817-1946 | Whenever the waiting ends, every exit leaves the name/value pairs that setting the role and putting it back lead to; success means that both worked, the stop could be predicted, and nothing is active that was not predicted to be. |

## Left out

- Failures of starting a transaction or of adding to it: `write_attribute()` then returns without a retry; the model takes them to succeed.
- CIB paths: values are addressed by attribute and node, so nvpair IDs that coincide after sanitising, and a node whose XML ID changes, are not modelled.
- Order of CIB replies: the CIB is taken to process calls and reply in order; a callback may time out at any point. Call IDs do not wrap around.
- Other writers of transient attributes: while this node is writer or has a write in flight, nobody else changes them, except in `ForeignEdits`, where one edit is made at a writer that is not shutting down and the node is told of it in a later step.
- Stand-alone mode: there is no CIB connection then, which the model reflects as no calls rather than as errors.
- The vote comparison and the tally of votes (`lib/cluster/election.c`): the outcome of each election message is chosen by the environment; a complete tally makes the node win.
- Sync points, confirmations, protocol versions of peers, acknowledgements, alerts and user permissions: plumbing around the handlers modelled.
- Convergence.OthersStayEqual: leaves out sync responses that one of the two nodes has sent, which it ignores while the other loads it; `Corrections.OwnValueIsLearned` says what that other node then knows.
- Adding attributes to the table while it is traversed, which a child of a request to clear failures with a task of its own might do: the traversal visits the attributes there at its start.
- Parsing: delays, durations, regular expressions, failure patterns and increment expressions enter parsed, or as functions given by the environment.
- Client.Handling.Update: the edits that splitting makes to the children of a request are made on copies, since nothing reads them afterwards; a child without a name is treated as naming an unknown attribute.
- Multi-operation requests other than regex expansions: splitting them does not pass the parent's attributes on to the children, so no equivalence is claimed.
- AttributeLoops.UpdateTerminates: one direction for a given state of the CIB in which some resources lack the attribute, since whether a cycle arises then depends on the order of updates; the exact conditions are for all resources having it, and for all states of the CIB together.
- AttributeLoops.EndsWhateverIsSet: for groups and primitives; clones and bundles, whose attributes are redirected to the resources within, are covered by the one-way results.
- AttributeOrder.ChangedOnceIff: exact where no member of a group has the attribute to begin with; otherwise there is only the sufficient condition of `ResourceAttributes.UpdatesTheReachable`. Clones, and changes that the CIB refuses, are not covered by it.
- Instance numbers in the names of clone instances: resources are looked up under the names given.
- ConstraintAlgebra.ClearUndoesHistory: assumes constraint IDs that are distinct apart from case, for which `ConstraintAlgebra.SeparateWhenApart` gives a condition on the names.
- WriteDelays.DelayHolds: counts a request to clear failures that carries a task, a delay or a forced write of its own as one that may end a delay.
- Rules in location constraints: those the tool makes, on a node name and an end date, which apply if all their expressions do; the date arithmetic is left out.
- Schema validation: of a location constraint, only the rule that a node and rules exclude each other is modelled.
- How a move finds out where a resource is, and that it refuses a primitive active in several places: the current location is a parameter.
- Clearing expired constraints, and the date arithmetic behind lifetimes: string building and library calls.
- TargetRole.RoleIsRestored: for a primitive that is in no group or clone, whose attributes would be looked up elsewhere; the IDs of name/value pairs are taken to be unique, as the schema demands.
- Restart by ban, the prediction of what will stop, and the start phase: the first is covered by the constraint commands, the second is the scheduler, the third looks at a stale resource object.
- Integer widths: time-outs and call IDs are unbounded integers, except that delays are capped as the source caps them.
