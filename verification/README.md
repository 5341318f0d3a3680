# A verified model of the CPE simulator's core

The simulator plays a subscriber device towards a management server. This project models
five parts of it in Dafny and proves what they promise. Where the code changes state step by
step the model is imperative as well (classes with `modifies` frames, loops with invariants),
and each method is tied to a function of the state before it; the lemmas are about those
functions.

**Sessions** (`Events`, `EventTracker`, `RetryState`, `Session`, `SessionEngine`, `SessionSafety`,
`SessionGuarantees`, `SessionDelivery`, `SessionRetries`, `SessionRunner`). The session runner with its one-slot priority latch,
offline window, retry timer and BOOTSTRAP latch is a transition system in which requests,
queueings, resets, timers and the offline window interleave freely and the server answers
whatever it likes. `SessionRunners.SessionRunner` is the object with the runner's own fields;
every method of it is proved to be a run of that system, so what holds of all runs holds of it.

**The parameter tree** (`Paths`, `ParamStore`, `ParamNode`, `ParamBatch`, `ParamTable`, `ParamGraft`,
`ParamMount`, `ParamTree`). `ParamTrees.Tree` is a heap of mutable nodes; its meaning is a map
from paths to cells, and each method is proved against a function of that map. On it stand
`SoftwareUnits`, `SoftwareModules` and `SoftwareWitness` (installing, updating and uninstalling
apps), `SetParameterValues`, `SearchPath` and `UspAdd`.

**The generator scheduler** (`HeapOrder`, `Scheduler`), **the STUN codec** (`Stun`), **bulk data and
the address pools** (`BulkData`, `Powers`, `FleetPools`).

## Model

| member | source | states |
|---|---|---|
| SessionGuarantees.NothingIsLost | cmd/cpe-sim/main.go:1718-1768 | in every reachable state, every queued event, every persisting trigger event of a begun session and every periodic tick is pending, in flight in a session drawn no earlier, latched, or was carried by such a session that ended well |
| SessionGuarantees.ArrivalsAreRecorded | internal/cwmp/eventtracker.go:258-277 | supports NothingIsLost: the account it is about grows by every tick requested and every method event queued, and never shrinks |
| SessionGuarantees.NewEventsAreRecorded | internal/cwmp/eventtracker.go:92-128 | supports NothingIsLost: a session that is no retry opens with its trigger's event, named code by code, and the account grows by it unless it is a connection request or a finished transfer |
| SessionGuarantees.IdleMeansDelivered | internal/cwmp/runsession.go:47-118 | a device that is idle with nothing queued and nothing latched has delivered all it owed |
| SessionGuarantees.DisplacedTickIsQueued | cmd/cpe-sim/main.go:1720-1737 | supports NothingIsLost: a periodic tick that loses the latch, as newcomer or as the one displaced, is queued as 2 PERIODIC |
| SessionGuarantees.WillingServerDelivers | internal/cwmp/session.go:133-182 | a server that answers the Inform and each call and then closes gets everything the session in flight holds, and the retry count goes to zero |
| SessionDelivery.DeliveryIsWithinReach | internal/cwmp/runsession.go:47-118 | from every reachable state some run leads to one in which the device is idle and everything owed, events and records, has been delivered: it comes online, drains the latch before a willing server and runs one more session |
| SessionGuarantees.RecordsAreConserved | internal/cwmp/runsession.go:61-118 | counted as multisets, the transfer and DU records ever queued are those pending, plus those held by the session in flight, plus those of sessions that ended well |
| SessionGuarantees.DeliveredRecordsWereAnswered | internal/cwmp/session.go:133-182 | a session that ended well made one call for each record it held, transfers first, in drained order, each answered by its matching response, and the server closed last |
| SessionGuarantees.HeldTransferIsAnnounced | internal/cwmp/eventtracker.go:142-144 | any session that holds a transfer record announces 7 TRANSFER COMPLETE |
| SessionGuarantees.OneSessionOneTimer | cmd/cpe-sim/main.go:1799-1838 | at most one thread is inside the runner, `busy` says whether, and at most one retry timer is armed, the one the runner can cancel |
| SessionGuarantees.InlineClaimsOnlyOnline | cmd/cpe-sim/main.go:1718-1754 | supports OneSessionOneTimer and SessionRunner.Request: a request claims the device only online and with no other thread inside |
| SessionGuarantees.DeferredClaimsOnlyOnline | cmd/cpe-sim/main.go:1755-1768 | supports the same: a latched trigger is claimed only online, by the thread that was running |
| SessionGuarantees.NothingElseClaims | cmd/cpe-sim/main.go:1718-1768 | supports the same: no step but a request and the drain loop claims the device |
| SessionGuarantees.ReleasesOnlyWhenDrained | cmd/cpe-sim/main.go:1755-1761 | supports LatchKeepsTheBest and SessionRunner.Request: no step releases the device while the latch is full, unless it is offline |
| SessionGuarantees.LatchKeepsTheBest | cmd/cpe-sim/main.go:1720-1741 | a full latch holds a highest-ranked trigger of those latched since it was last empty, the earliest of them on ties; `LatchRanks` says what the ranking is |
| SessionGuarantees.LatchRanks | cmd/cpe-sim/main.go:1778-1793 | trigger by trigger: a full latch holds a startup if one was latched since it was last empty, or else a connection request, a finished transfer, a retry, a tick; with none of these, the first trigger latched |
| SessionGuarantees.LatchedSince | cmd/cpe-sim/main.go:1718-1765 | supports LatchRanks: a request is latched exactly when the device is busy or offline, and the record of what was latched is emptied exactly when the loop takes the latched trigger |
| SessionSafety.LatchesTheBetter | cmd/cpe-sim/main.go:1720-1741 | one latched request, trigger against trigger: which of the two stays, and that 2 PERIODIC is queued just when the other one is a tick |
| SessionGuarantees.SatisfiedRetryIsDropped | cmd/cpe-sim/main.go:1799-1806 | a retry whose count is back at zero starts no session and leaves the timers alone; every other claim goes on with no retry timer armed |
| SessionGuarantees.ChangesWait | internal/cwmp/eventtracker.go:195-291 | a changed path is listed once and stays listed over every step but the end of a session that ends well, which clears them all |
| SessionGuarantees.BootstrapRidesAlong | internal/cwmp/eventtracker.go:122-128 | a session begun before BOOTSTRAP is delivered carries it exactly once, and one begun after does not carry it |
| SessionGuarantees.BootstrapLatchedByFreshSession | internal/cwmp/eventtracker.go:195-216 | BOOTSTRAP becomes delivered only at the end of a session that carried it and drew its events after the last factory reset |
| SessionGuarantees.ResetInsideSessionSurvives | internal/cwmp/eventtracker.go:195-216 | a factory reset during a session is not swallowed by that session's acknowledgement |
| SessionGuarantees.OverlapWouldSwallowReset | internal/cwmp/eventtracker.go:195-216 | that takes mutual exclusion: with two sessions in flight the first one's end loses the reset |
| SessionGuarantees.RetryCountIsTheStreak | internal/cwmp/runsession.go:92-101 | the count an Inform carries is the number of failed sessions accounted for since the last success or reboot |
| SessionGuarantees.RetryStateFollowsAccount | internal/cwmp/retry.go:59-87 | the retry count is that streak in every reachable state |
| SessionRetries.FailedSessionIsPursued | cmd/cpe-sim/main.go:1799-1826 | over every run, while the retry count is positive a retry timer is armed, or one has fired and is about to make its request, or a trigger is latched, or a session thread is inside |
| SessionSafety.SafeAlways | cmd/cpe-sim/main.go:1679-1838 | every reachable state satisfies the conjunction of invariants behind these results |
| SessionRunners.SessionRunner.Request | cmd/cpe-sim/main.go:1718-1768 | the request method, drain loop included, is a run of the transition system; it runs inline exactly when neither busy nor offline, and then returns with the device free and the latch empty unless offline; otherwise the latch holds the better of the two triggers, as listed pair by pair |
| SessionRunners.SessionRunner.RunOne | cmd/cpe-sim/main.go:1799-1826 | one session with its retry accounting, on the object's own fields, is a run of the system |
| SessionRunners.SessionRunner.RunSession | internal/cwmp/runsession.go:47-118 | drawing, conversing while others act, and acknowledging or giving back is a run of the system |
| SessionRunners.SessionRunner.RetryFires | cmd/cpe-sim/main.go:1813-1819 | so is the retry timer's callback |
| EventTrackers.RedeliveryFixpoint | internal/cwmp/eventtracker.go:92-166 | however many retries fail, the tracker stays as the first failure left it, so each announces the same sequence |
| EventTrackers.RedeliverableExactly | internal/cwmp/runsession.go:206-214 | the retry announces everything the failed session announced if and only if its trigger was no connection request, nor a transfer trigger without a record |
| EventTrackers.RetryAnnouncesSameSet | internal/cwmp/runsession.go:206-214 | and then the two arrays hold the same events, the retry's without duplicates |
| EventTrackers.RetryLeadsWithPrimary | internal/cwmp/eventtracker.go:129-147 | when the failed session's own event is put back, the retry leads with it |
| EventTrackers.LoneConnectionRequest | internal/cwmp/runsession.go:62-65 | a lone connection request that fails leaves its retry nothing to announce |
| EventTrackers.EventTracker.NextSessionEvents | internal/cwmp/eventtracker.go:92-147 | the list built in place is the deduplicated lineup, and the queue and latch change as drawn |
| EventTrackers.OpensWith | internal/cwmp/eventtracker.go:92-121 | a session's array opens with the event of its trigger, named code by code, and a retry's with the head of the queue |
| EventTrackers.AnnouncesExactly | internal/cwmp/eventtracker.go:92-147 | the array holds exactly the trigger's event, everything queued, 0 BOOTSTRAP while undelivered and 7 TRANSFER COMPLETE while a record waits |
| EventTrackers.AnnouncedInOrder | internal/cwmp/eventtracker.go:92-166 | in that order, each entry once, where it comes first; a retry puts the queue before BOOTSTRAP |
| EventTrackers.GivesBackExactly | internal/cwmp/runsession.go:103-214 | a failed session puts back, behind what is queued, exactly what it announced but 6 CONNECTION REQUEST, 0 BOOTSTRAP and 7 TRANSFER COMPLETE, and both kinds of record |
| EventTrackers.GivesBackInOrder | internal/cwmp/runsession.go:206-214 | in the order in which it was announced |
| Sessions.SucceedsExactly | internal/cwmp/session.go:133-182 | a session ends without error if and only if the server answers the Inform with InformResponse and each call with TransferCompleteResponse or DUStateChangeCompleteResponse as it must, its own requests being well formed, and closes |
| Sessions.CallsMade | internal/cwmp/session.go:270-296 | a session makes a prefix of its calls in order, and exactly all of them when it ends well |
| Sessions.EachMessageIsAnswered | internal/cwmp/session.go:158-265 | however the session ends, it opens with the Inform, and after the device's own calls comes an empty post and then one answer to each message: fault 9000 without a handler, the handler's own fault, 9002 when it just fails, otherwise the method's response |
| Sessions.Session.Run | internal/cwmp/session.go:133-182 | the loop computes that conversation |
| RetryStates.RetryState.OnFailure | internal/cwmp/retry.go:59-80 | the n-th failure in a row waits within the n-th band, as far into it as was drawn |
| RetryStates.BandsAreAdjacent | internal/cwmp/retry.go:59-80 | the bands are [5·2^(k-1), 5·2^k) seconds with k = min(n, 10): adjacent, and flat from the tenth |
| Paths.ParseJoin | internal/paramtree/path.go:17-57 | parsing a joined path, with or without a trailing dot, gives its segments back |
| Paths.PathsParseExactly | internal/paramtree/path.go:17-57 | a text leads to a path if and only if it is its segments joined by dots, with or without a dot behind |
| Paths.SegmentsExactly | internal/paramtree/path.go:32-53 | a segment is one or more of the characters with the codes of a-z, A-Z, 0-9, underscore and hyphen |
| Paths.RowNamesExactly | internal/paramtree/paramtree.go:774-775 | a segment is the name of a row if and only if all its characters are digits and not all are 0 |
| Paths.JoinInjective | internal/paramtree/path.go:55-57 | distinct segment lists have distinct spellings |
| ParamNodes.Clone | internal/paramtree/node.go:70-96 | the copy has the same cells, moved to the new place, and no node that existed before |
| ParamTrees.Tree.Copy | internal/paramtree/paramtree.go:232-243 | a cloned tree has the same cells and shares no node |
| ParamTrees.Tree.Set | internal/paramtree/paramtree.go:102-147 | succeeds if and only if the path reads as a writable value of the same type and the type admits the text; then that path reads as the new value and nothing else reads otherwise; else nothing changes, with the source's errors |
| ParamTrees.Tree.SetSystem | internal/paramtree/paramtree.go:155-191 | succeeds if and only if the path reads as a value whose type admits the text; then only the text of that value is another |
| ParamTrees.Tree.SetBatch | internal/paramtree/paramtree.go:402-432 | all or nothing: passes if and only if every entry's leaf takes its value and no two lead to one leaf, and then each reads as its value and nothing else reads otherwise; with a fault, every failing entry is listed in order and the tree is as before |
| ParamTrees.Tree.CheckBatch | internal/paramtree/paramtree.go:434-518 | predicts exactly the faults the batch would meet, and finds none if and only if every entry's leaf takes its value and no two lead to one leaf |
| ParamBatches.ReadsExactly | internal/paramtree/paramtree.go:79-100 | a path reads as a value if and only if it spells a leaf that holds it |
| ParamBatches.WritesExactly | internal/paramtree/paramtree.go:102-147 | a write is accepted if and only if the path reads as a writable value of the same type and the type admits the text, and fails as the read does where that fails |
| ParamBatches.LoneEntryFault | internal/paramtree/paramtree.go:451-518 | the fault of an entry alone in its batch: no such leaf, not writable, another type, a text not admitted, the first of these that applies |
| ParamBatches.RepeatedEntryFault | internal/paramtree/paramtree.go:451-518 | an entry that leads where an earlier one leads is listed as a duplicate |
| ParamBatches.BatchTakesExactly | internal/paramtree/paramtree.go:451-518 | a batch has no faults if and only if every entry's leaf takes its value, by what it reads as, and no two lead to one leaf |
| ParamBatches.PassesExactly | internal/paramtree/paramtree.go:451-518 | a batch has no faults if and only if each entry is acceptable by itself and no two lead to the same node, however spelled |
| ParamBatches.BatchIsSetInAnyOrder | internal/paramtree/paramtree.go:402-432 | a batch without faults is the same as setting its entries one by one, in any order |
| ParamBatches.VerdictSurvives | internal/paramtree/paramtree.go:451-518 | a verdict stands while writes in between keep each leaf's type and writability |
| ParamTrees.Tree.Mount | internal/paramtree/paramtree.go:37-77 | mounts with exactly the missing branches added, or changes nothing |
| ParamTrees.Tree.AddTable | internal/paramtree/paramtree.go:696-737 | declares a table with its template, or changes nothing |
| ParamMounts.MountsExactly | internal/paramtree/paramtree.go:37-77 | a mount needs a way free of leaves to a place that is free, and so does a table, which may also stand where an object is; anything else is an invalid argument |
| ParamTrees.Tree.AddObject | internal/paramtree/paramtree.go:743-798 | adds the row with the least positive number not taken |
| ParamTables.ExtendsExactly | internal/paramtree/paramtree.go:743-777 | a row can be added to a table and to nothing else, with the error for each other case |
| ParamTables.NumbersExactly | internal/paramtree/paramtree.go:762-775 | a number is taken if and only if some row's name reads as it |
| ParamTables.LeastIsNear | internal/paramtree/paramtree.go:762-775 | among k children the search for it ends by k+1 |
| ParamTables.RowAddedIsTemplate | internal/paramtree/paramtree.go:743-798 | the new row is the template, and nothing else changes but the sibling counter |
| ParamTables.RowAddedCounts | internal/paramtree/paramtree.go:743-798 | the table has the rows it had and that one, which it did not have |
| ParamTables.CountersCount | internal/paramtree/paramtree.go:800-836 | after an addition or a deletion the counter equals the number of rows |
| ParamTables.AddThenDelete | internal/paramtree/paramtree.go:840-890 | adding a row and deleting it restores the tree if and only if the counter was right before |
| ParamTables.WrongCounterIsLost | internal/paramtree/paramtree.go:800-836 | with an empty table whose counter says seven, adding a row and deleting it does not |
| ParamTrees.Tree.DeleteObject | internal/paramtree/paramtree.go:840-890 | removes that row and brings the counter up to date, or changes nothing |
| ParamTables.DeletesExactly | internal/paramtree/paramtree.go:840-890 | a path can be deleted if and only if it leads to a row of a table, and is said to be missing only where nothing is |
| ParamTrees.Tree.Graft | internal/paramtree/graft.go:26-87 | grafts all of the other tree or, when a leaf clashes, nothing; shares no node with it; returns the names of the places where they diverge |
| ParamGrafts.NamesSpell | internal/paramtree/graft.go:44-87 | each name returned spells the place where the trees diverge, and ends in a dot if and only if an object was attached there |
| ParamGrafts.GraftJoinsLeaves | internal/paramtree/graft.go:26-87 | a graft without a clash keeps the host's cells, and its leaves are the disjoint union of both |
| ParamGrafts.AttachingGrafts | internal/paramtree/graft.go:44-87 | attaching at the divergences, in any order, is the graft |
| ParamGrafts.FrontierIsAntichain | internal/paramtree/graft.go:44-87 | no root returned lies above another |
| ParamTrees.Tree.Unmount | internal/paramtree/graft.go:95-141 | takes that subtree out, or changes nothing, with the source's errors |
| ParamGrafts.UnmountsExactly | internal/paramtree/graft.go:95-141 | a path can be unmounted if and only if it leads to something that is neither the root nor a row of a table; then exactly what is not below it is left, as it was |
| ParamGrafts.UnmountRestoresHost | internal/paramtree/graft.go:95-141 | unmounting the roots in any order restores the host exactly if and only if none of them is a row of a table of the host |
| SpvHandlers.StatusOneIsKept | internal/cwmp/handlers/setparametervalues.go:70-143 | over any sequence of requests and writes that keep types and writability, every request answered with Status 1 is waiting, and applies in full, once, in the order accepted |
| SpvHandlers.BatchPutsValues | internal/cwmp/handlers/setparametervalues.go:116-143 | a batch that passes leaves each named leaf with its value and every other cell as it was |
| SpvHandlers.LastBatchDecides | internal/cwmp/aftersession.go:14-29 | the last waiting batch to name a leaf decides its value |
| SpvHandlers.DefersExactly | internal/cwmp/handlers/setparametervalues.go:108-114 | a request is put off if and only if some entry leads to the same node as a deferred name and both or neither end in a dot |
| SpvHandlers.TrailingDotIsNotDeferred | internal/cwmp/handlers/setparametervalues.go:108-114 | so two spellings of one deferred leaf get different answers: with "X" deferred, "X" is put off and "X." is not, and with "X." deferred it is the other way round |
| SpvHandlers.SpvHandler.Handle | internal/cwmp/handlers/setparametervalues.go:70-106 | every request: with a complaint it is refused with 9003 and every complaint, the tree and the queue as before; answered with Status 0, every entry's leaf reads as its text with the type and writability it had, and every other cell and the queue are as before; answered with Status 1, the tree is as before and exactly the request's batch waits behind the others |
| SpvHandlers.RequestsAreAnswered | internal/cwmp/handlers/setparametervalues.go:70-106 | which complaints there are: 9005 for each name that leads to no leaf, and with none of these 9003 for a name that leads where an earlier one leads, 9008 for a leaf that is read-only, 9007 for a text its type does not admit; and the meaning of each answer, for all requests |
| SpvHandlers.AfterSession.Run | internal/cwmp/aftersession.go:21-29 | applies the waiting batches in order and leaves none |
| SearchPaths.SplitSearchPath | internal/usp/agent/operations.go:737-760 | joining the segments gives the path back, expressions and their dots included |
| SearchPaths.ExpressionStaysWhole | internal/usp/agent/operations.go:737-760 | a path with one expression is split at the dots before and after it and at none inside it |
| SearchPaths.ExpandSearchPath | internal/usp/agent/operations.go:666-735 | the loops compute the set of concrete paths, expressions included |
| SearchPaths.ExpressionSelects | internal/usp/agent/operations.go:666-735 | an expression below a named table stands for exactly the all-digit children that meet its terms, and for none when it does not read |
| SearchPaths.TermsExactly | internal/usp/agent/operations.go:811-822 | supports ExpressionSelects: "==" asks for a parameter that reads as the value, "!=" for one that reads as another, and one that is not there meets neither |
| SearchPaths.Matches | internal/usp/agent/subscriptions.go:63-127 | a subscription matches when one of its references does |
| SearchPaths.PlainReferences | internal/usp/agent/subscriptions.go:63-93 | a reference without a wildcard matches what it spells and, with a trailing dot, what it begins; an empty one matches nothing |
| SearchPaths.MatchingIsExpansion | internal/usp/agent/subscriptions.go:63-127 | for a wildcard reference that starts with a name, a parameter of the tree matches if and only if it is among the paths the reference expands to or, with a trailing dot, lies under one |
| SearchPaths.MatchingDiffersExactly | internal/usp/agent/operations.go:666-735 | for every wildcard reference without an expression, the two differ on a parameter if and only if it matches the reference without its leading dots and the reference has leading dots or starts with a wildcard, not both |
| SearchPaths.LeadingDotDisagrees | internal/usp/agent/operations.go:690-693 | ".Device.*.X" expands to Device.1.X and does not match it |
| UspAdds.RollbackRestores | internal/usp/agent/operations.go:159-260 | taking a half-filled new row out again restores the tree if and only if the counter was right before |
| UspAdds.RollbackLosesWrongCounter | internal/usp/agent/operations.go:159-260 | on that table it does not |
| UspAdds.AddOne | internal/usp/agent/operations.go:159-260 | refused with 7016 unless the path stands for one object and with 7017 unless that is a table; else refused if and only if a required setting does not go through, with the code of the first, and the row is taken out again; else the row is the template with the last text that went through at each leaf, everything outside it is as before but the counter, and exactly the settings that did not go through are listed |
| UspAdds.AddsExactly | internal/usp/agent/operations.go:138-260 | which settings go through, by what the new row reads as: 7026 where there is no leaf, 7010 for one that is read-only, 7008 for a text its type does not admit; and what becomes of row, answer and tree, for all settings |
| SoftwareModules.Manager.Run | internal/softwaremodules/manager.go:274-304 | every operation, however it ends, leaves inventory and tree in agreement, the version each row shows included; each one's fault is determined by the state before it; one that fails without being cancelled leaves every unit installed at the version it had; no unit is touched that the operation does not name; an uninstall that names another environment than the unit's is refused with everything as before |
| SoftwareModules.Manager.Install | internal/softwaremodules/manager.go:361-445 | an install fails exactly when, and for the reason, its inputs and the tree say; then tree and inventory are as before; otherwise, outside the software modules object, the tree is the graft of the app's data model and nothing more, and the unit's row has its identifier |
| SoftwareModules.Manager.Update | internal/softwaremodules/manager.go:532-623 | an update that fails early changes nothing; one whose new version does not start always has the old version put back, running, with its data model; cancelled, the unit is gone; the report says what the inventory says; a duplicate is never met |
| SoftwareModules.Manager.ShowsUrlExactly | internal/softwaremodules/manager.go:571-600 | where a unit's row showed the inventory's URL, it does after an update if and only if the update's inputs do not make it fail with a clash under another URL |
| SoftwareWitnesses.UpdateFromElsewhere | internal/softwaremodules/manager.go:571-600 | on a small device, an update of a unit from "a" with a clashing version from "b" leaves "a" in the inventory and "b" in the row |
| SoftwareModules.Manager.ListedExactly | internal/softwaremodules/manager.go:574-623 | where an environment's list named its units, it does after an update if and only if its inputs do not have it cancelled with the unit halted, or the list is the same without the unit |
| SoftwareWitnesses.UpdateCancelled | internal/softwaremodules/manager.go:574-582 | the same update cancelled leaves no unit, and the list naming one |
| SoftwareModules.Manager.Uninstall | internal/softwaremodules/manager.go:625-658 | goes through if and only if a unit is named and the environment given is none or the unit's own, in either spelling; then exactly that unit goes, with its two rows and its data model; everything else outside the software modules object stays; the environment's list names exactly the units left; with another environment nothing changes |
| SoftwareModules.Manager.ElsewhereExactly | internal/softwaremodules/manager.go:630-632 | the only texts that do not name another environment are the empty one and the unit's own path with or without a trailing dot; every other environment's path names another, in both spellings |
| SoftwareModules.Manager.FindLocked | internal/softwaremodules/manager.go:338-359 | finds the unit with the identifier, whatever its case, and the version if one is given; the branch for several candidates cannot be reached |
| SoftwareUnits.FoldsExactly | internal/softwaremodules/manager.go:338-359 | identifiers compare alike if and only if they differ at most in the case of letters |
| SoftwareModules.Manager.CheckManifest | internal/softwaremodules/manager.go:462-478 | an injected fault or else a duplicate identifier, exactly |
| SoftwareModules.Manager.PutBack | internal/softwaremodules/manager.go:583-600 | restarting the version an update halted cannot fail |
| SoftwareModules.Manager.SyncActiveUnits | internal/softwaremodules/manager.go:692-704 | rewrites the environment's list to the execution units of its units that run, and nothing else |
| SoftwareModules.Start | internal/softwaremodules/manager.go:482-517 | grafts the data model and makes a running execution unit, or changes nothing; fails exactly on a clash or an incomplete template |
| SoftwareUnits.JoinedTellsParts | internal/softwaremodules/manager.go:503 | the text of an execution unit's References tells the names of the places grafted, all of them and in order |
| SoftwareModules.Stop | internal/softwaremodules/manager.go:521-530 | takes the data model out and leaves everything outside the execution unit's row as it was |
| SoftwareModules.SetLeaves | internal/softwaremodules/manager.go:680-690 | writes the leaves the row declares, where their type takes the text, skips the others, and changes nothing else |
| SoftwareUnits.AgreeWithout | internal/softwaremodules/manager.go:625-658 | without one unit the agreement holds for the rest, none of which depends on what that unit had |
| SoftwareUnits.RegraftFits | internal/softwaremodules/manager.go:583-600 | a data model taken out meets no clash where it was, and diverges only where it did before |
| SoftwareUnits.UninstallUndoesInstall | internal/softwaremodules/manager.go:625-658 | an uninstall after an install leaves the tree, outside the software modules object, as it was before the install |
| SoftwareUnits.KeepsItsModelExactly | internal/softwaremodules/manager.go:706-712 | a unit keeps its data model when another's is taken out if and only if none of the other's roots is an object of its own model |
| SoftwareUnits.SharedObjectIsLost | internal/softwaremodules/manager.go:706-712 | with one app's model grafted and then another's into an object the first brought, taking out the first takes the second one's leaf |
| Schedulers.Scheduler.CollectDue | internal/generators/scheduler.go:244-266 | ends; hands out each due wanted entry once, earlier due times first and of equal ones the entry queued first, and re-arms it from now; drops due entries no longer wanted; leaves the others; reports the exact positive gap to the next |
| Schedulers.Scheduler.Add | internal/generators/scheduler.go:178-201 | queues one new entry, due an interval from now, after all that are queued, and wakes the loop if and only if it is due before all of them |
| Schedulers.EntryQueue.Pop | internal/generators/scheduler.go:298-327 | takes out a least entry and keeps heap order and every entry's own index |
| Schedulers.EntryQueue.Push | internal/generators/scheduler.go:298-327 | adds the entry, keeping both |
| Schedulers.Live | internal/generators/generators.go:150-256 | over a run of registrations of new generators, removals, collections and other runners' entries, a started runner has exactly one queue entry for each registered generator |
| Schedulers.OneMoreEntry | internal/generators/generators.go:150-186 | registering keeps it so if and only if the generator object has no entry left in the queue |
| Schedulers.RegisteredAgain | internal/generators/generators.go:150-205 | a generator registered, removed and registered again while its first entry is queued has not one entry |
| Schedulers.Runner.Add | internal/generators/generators.go:150-186 | when a generator is accepted, and when its entry is the only one |
| Schedulers.Runner.Remove | internal/generators/generators.go:188-205 | takes out the one registration for the path |
| Schedulers.Runner.Start | internal/generators/generators.go:224-256 | queues one entry for each registered generator, once |
| HeapOrders.FirstIsLeast | internal/generators/scheduler.go:298-305 | the first entry of a heap is a least one |
| Stun.RoundTrip | internal/cwmp/stun/codec.go:68-120 | decoding an encoded message gives it back if and only if its encoded attributes fit the 16-bit length |
| Stun.LongMessageIsLost | internal/cwmp/stun/codec.go:104-120 | a message with one attribute of 65532 bytes is not given back |
| Stun.EncodedLength | internal/cwmp/stun/codec.go:104-120 | the length is a multiple of four, and the header field matches it under the same condition |
| Stun.HeaderBytes | internal/cwmp/stun/codec.go:104-120 | the header on the wire: type and length with the high byte first, then the identifier |
| Stun.AttributeBytes | internal/cwmp/stun/codec.go:104-120 | each attribute on the wire: type and length with the high byte first, the value, zeros to the next multiple of four |
| Stun.EncodedIsStun | internal/cwmp/stun/codec.go:61-66 | an encoded message passes for STUN exactly when the two top bits of its type are clear |
| Stun.FirstByteDecides | internal/cwmp/stun/codec.go:61-66 | any datagram passes for STUN if and only if it is as long as a header and its first byte is below 64 |
| Stun.FirstByteTwoIsStun | internal/cwmp/stun/codec.go:61-66 | one whose first byte is 2 does |
| Stun.Encode | internal/cwmp/stun/codec.go:104-120 | the buffer built and patched in place is the encoding |
| Stun.Decode | internal/cwmp/stun/codec.go:68-101 | the loop ends on every input and computes the decoding |
| Stun.PadUsername | internal/cwmp/stun/codec.go:159-167 | pads with spaces to the next multiple of four |
| FleetPools.Ipv4Lease | internal/paramtree/fleet.go:157-190 | an accepted instance gets the address base plus instance inside the network, never the base itself except in a pool of one |
| FleetPools.Ipv6Lease | internal/paramtree/fleet.go:192-216 | the same for IPv6 |
| FleetPools.PrefixLease | internal/paramtree/fleet.go:218-247 | a delegated prefix lies wholly inside the pool, at its own slot |
| FleetPools.ReachesExactly | internal/paramtree/fleet.go:138-247 | which instances a pool serves: those from one to the end of its span or of its delegated prefixes, the first alone in a pool of one address, none in a pool that does not parse or fits no kind |
| FleetPools.DistinctLeases | internal/paramtree/fleet.go:138-247 | two instances never share an address or overlap in a prefix |
| FleetPools.ShardsNeverCollide | internal/paramtree/fleet.go:103-117 | when the highest index resolves so do all below it, and no two of them collide |
| FleetPools.ValidatePoolCapacity | internal/paramtree/fleet.go:103-117 | reports a pool that cannot serve the highest index, or that all can |
| BulkData.StepPastIsLeast | internal/usp/agent/bulkdata.go:240-289 | the catch-up loop lands on the least grid point after now, however late |
| BulkData.FirstDueOnReference | internal/usp/agent/bulkdata.go:291-304 | the first due time is the least point after now on the reference grid |
| BulkData.FirstDueOffReference | internal/usp/agent/bulkdata.go:291-304 | without a reference the first report is an interval away |
| BulkData.CadenceExactly | internal/usp/agent/bulkdata.go:240-289 | a profile keeps its due time while its interval stays and starts a new cadence otherwise, keeping what it retained; before the due time nothing happens, from then on it pushes what is retained and the new report |
| BulkData.OffAndUnusable | internal/usp/agent/bulkdata.go:240-260 | a profile switched off is forgotten, one that cannot be delivered is remembered as skipped, and neither pushes |
| BulkData.RetainsExactly | internal/usp/agent/bulkdata.go:355-407 | after one push: nothing retained when it was delivered, the report added when it failed unless the profile retains none, and of those the newest, as many as the profile says or 100 where it says a negative number or more |
| BulkData.GridIsKept | internal/usp/agent/bulkdata.go:240-289 | over any sequence of ticks the due time stays on the grid of the start, at its least point after the last tick |
| BulkData.RetainsTheNewest | internal/usp/agent/bulkdata.go:355-407 | the retained reports are exactly the newest undelivered ones up to the limit, oldest first |
| BulkData.PushSendsRetainedFirst | internal/usp/agent/bulkdata.go:355-407 | a push sends those and then the current report |
| BulkData.ProfileState.Send | internal/usp/agent/bulkdata.go:355-407 | one push, and what it leaves retained |
| BulkData.Collector.Tick | internal/usp/agent/bulkdata.go:240-289 | one tick: each profile pushes at most once, and each one's memory is what the reference functions say, deleted profiles included |

## Findings

Where the code does not do what it promises, the model keeps the code; each entry names the exact
condition first and then the input at which it fails.

- **Deferral goes by spelling.** The list of deferred parameters is compared with request names
  as text (setparametervalues.go:108-114), though a name with and without a trailing dot leads
  to the same leaf and the profile loader accepts either (profile.go:1302-1318). `SpvHandlers.DefersExactly`;
  `SpvHandlers.TrailingDotIsNotDeferred`.
- **A leading dot or wildcard.** The expansion drops empty segments in front of a reference while
  matching does not, and a reference that starts with a wildcard expands to paths with a dot in
  front. `SearchPaths.MatchingDiffersExactly`; `SearchPaths.LeadingDotDisagrees`.
- **A re-registered generator object.** Registering an object again after its removal, while its old
  entry is still queued, gives it two entries. `Schedulers.OneMoreEntry`; `Schedulers.RegisteredAgain`.
- **STUN length.** Attributes of 65536 bytes or more wrap the header's length field. `Stun.RoundTrip`,
  `Stun.EncodedLength`; `Stun.LongMessageIsLost`.
- **What passes for STUN.** The comment at codec.go:61-62 says the first byte is 0 or 1; the code accepts
  any first byte below 64. `Stun.FirstByteDecides`; `Stun.FirstByteTwoIsStun`.
- **A failed update's URL.** After an update whose new version does not start, the unit keeps its URL
  in the inventory while its row shows the one that failed (manager.go:571, 583-600).
  `SoftwareModules.Manager.ShowsUrlExactly`; `SoftwareWitnesses.UpdateFromElsewhere`.
- **Objects that apps share.** Uninstalling the app that brought a shared object takes the other app's
  parameters in it along. `SoftwareUnits.KeepsItsModelExactly`; `SoftwareUnits.SharedObjectIsLost`.
- **Counters that start out wrong.** Deleting a row just added, by hand or to roll an addition back, restores
  the tree only when the counter was right before. `ParamTables.AddThenDelete`, `UspAdds.RollbackRestores`;
  `ParamTables.WrongCounterIsLost`, `UspAdds.RollbackLosesWrongCounter`.

## Left out

- SoftwareModules.Manager.Install: requires an app whose data model lies outside the software modules object, adds no row to a table of the device and has no object of another app's; `KeepsItsModelExactly` and `UnmountRestoresHost` say what fails otherwise.
- SoftwareModules.Manager.Update: requires the same of the new version's data model, with the old version's taken out.
- SoftwareModules.Manager.Run: an operation of an unknown kind cannot be expressed; the argument checks made ahead of a run (`Check`) are not repeated.
- Generators that an app brings: starting and stopping an app registers and removes them; the scheduler is modelled apart from the lifecycle.
- Looking up an execution environment: an operation is given the outcome, a row's path or the reason there is none.
- The leaves of a unit's row besides status, identifier, version, URL and references: written, but nothing is said of their text.
- Writes by others to the software modules object between two operations of the manager.
- Fetching a manifest, and the name-based identifier derived for it: inputs of an operation.
- SessionRunners.SessionRunner.RunSession: drawing events and both record queues is one step, and so is putting them back after a failure; the work queued for after the session is modelled with SetParameterValues and not run here.
- SessionRunners.SessionRunner.RetryFires: the timer's firing and the clearing of its slot are one step.
- SessionGuarantees.RetryCountIsTheStreak: a failed session is accounted for when its retry is armed, so a reboot between the two counts before it.
- What a value change owes: passive and displaced value changes are not promised delivery, and 11 DU STATE CHANGE COMPLETE is not announced for every pending record.
- Event codes and method names other than those the tracker distinguishes, SOAP and XML, and authentication.
- The base parameter lists of an Inform, and observers of tree changes.
- Real time and threads: time is an integer, a random draw is an input, and interleaving is by steps.
- Order of the graft roots, of expansion results and of a table's children: the source sorts them; here they are sets, or sequences in any order.
- Row numbers beyond 64 bits: numerals are unbounded.
- Type validation: a rule on type and text that the model does not look into.
- The text of search expressions: how one reads is a parameter of the expansion.
- Attributes of parameters, listing by prefix and walking: read-only or simple.
- USP Set, Delete, GetInstances and GetSupportedDM, and the notifications subscriptions cause.
- SoftwareModules.Manager.FindLocked: folds the case of ASCII letters only, where the source folds Unicode's.
- UspAdds.AddOne: the unique keys in the answer of a successful addition are not given.
- An environment's list after a cancelled update: the code does not promise that it is up to date; `ListedExactly` says when it is.
- BulkData.FirstDueOnReference: differences of times are unbounded, where the source's saturate after some 292 years.
- What a bulk-data report holds and how it is encoded: a report is opaque, and whether it can be encoded is an input.
- The scheduler's worker threads and the ticks they carry out.
- Address text: addresses and prefixes are numbers.
