# Verification of Apmec's MEA manager

Apmec manages MEC applications (MEAs) on virtual infrastructure managers. This project models the
parts of it in which many activities meet, or in which one representation has to agree with
another, and proves what they keep:

- **MEA lifecycle** (`MeaTable`, `Lifecycle`, `Server`, `NoResurrection`, `Ownership`, `Turns`,
  `Outcomes`, `Creations`, `Provenance`, `UniqueNames`, `HeatPolling`). The tables are changed by transactions, each of
  them atomic: class `MeaDb` performs them in place, functions state what they amount to. API
  calls, monitor actions and spawned green threads are workers with a program counter; a run is
  any sequence of calls, worker steps and worker deaths, with drivers that succeed, return
  nothing or raise as they like. Class `MecPlugin` performs each call and step in place, through
  `MeaDb`, and every schedule it serves is a run of the state machine. `Outcomes` and `Creations` say
  what each call comes to in the end, from what the driver answered to what the row then holds.
- **Pagination** (`Keyset`, `Paging`, `PageWalk`, `ChangingTable`, `EmulatedPaging`,
  `EmulatedClient`). Keyset pages, page links, walks over a table that changes meanwhile, and the
  helpers that sort and slice in memory, all measured against the fully sorted table.
- **Extension loading** (`Extensions`). The worklist loop against the least set of extensions
  closed under requirements, and the merged attribute map against a pointwise union.
- **RPC timeouts** (`RpcTimeouts`). The table shared by all clients under overlapping calls and
  ceiling changes.
- **Templates** (`Values`, `Trees`, `Merging`, `DeepUpdate`, `Parameters`, `ParameterUpdate`).
  Nested dictionaries as objects that are changed in place, against what the change means for
  every path.
- **Workflows** (`Workflow`, `WorkflowScope`, `WorkflowMeaning`, `WorkflowText`, `NsNames`,
  `NsRecord`). The Mistral workflows for a network service, what running them does, the names in
  them, and the way from created MEAs through the service's record to deleted ones.
- **Alarm URLs** (`AlarmUrl`, `AlarmActions`). Printing an alarm's trigger and actions into a URL
  and reading them back.
- **Bulk creation** (`BulkCreate`).

`Wrappers` and `Text` hold what several modules share.

## Where the code falls short of what it is for

Each of these is proved as a condition under which the code does what is expected, and only then,
and most with an input at which it does not:

- An MEA in PENDING_UPDATE or PENDING_DELETE stays there for ever, exactly when no worker holds it
  (`StuckExactly`). Any ACTIVE MEA can get there (`UpdateCanStrand`): an exception that escapes
  between `_update_mea_pre` and `_update_mea_post` is enough. One that is being scaled is
  freed by `_mark_mea_dead` alone once its worker is gone (`ScaleCanStrand`,
  `ScaleOrphanLeavesExactly`).
- Two scaling workers can hold one MEA (`TwoScalingWorkers`), because `_mark_mea_dead` also
  fires on MEAs that are being scaled. Without that, a scaling worker owns its row
  (`ScalingOwnedExactly`).
- An MEA with both a monitoring and an alarming policy is created twice when it respawns. Its row
  keeps the first stack, and the second belongs to no MEA (`RespawnLosesSecondStack`). When another
  exception than its own escapes `create_wait`, the row stays PENDING_CREATE without the stack there
  is (`CreationOutcome`).
- `delete_wait` raises when the stack is already gone at its first request (`GoneBeforeWait`), and
  a scaling that does not end in time never raises the error meant for it (`StillScaling`).
- The row that marks a client's place in a list is read again for every page. When its sort values
  change in between, other rows are skipped or repeated: a row that stays is listed once, plus the
  times a marker falls behind it, minus the times one overtakes it (`ListingsExactly`,
  `MovedMarkerSkips`, `MovedMarkerRepeats`).
- Sorting and slicing in memory agrees with the database exactly when the plugin lists rows with
  equal sort keys in increasing order of the primary key (`EmulatedForwardExactly`). A request
  without sort keys is the plainest case (`UnsortedPagesDiffer`).
- The emulated backward page is wrong when some rows, but fewer than the limit, precede the
  marker, unless the table is short enough (`EmulatedBackwardExact`, `BackwardPagesDiffer`). Links
  from the first page never lead there (`ClientServedNatively`), except by the link that asks for
  the last page; that page is right for the empty table only (`EmulatedLastPageExact`,
  `LastPagesDiffer`).
- `update_attributes_map` is called once for every pass in which an extension is visited, whether or
  not it can be processed in the end (`ExtendResources`, `HookOfUnprocessed`).
- Lowering the ceiling on RPC timeouts raises the timeout of every method not called yet, when the
  new ceiling lies above the configured timeout (`CeilingRaisesExactly`).
- `deep_update` is not associative where a scalar separates two dictionaries that do not cover each
  other (`AssociativeExactly`, `AssociativityFails`), and it leaves the two dictionaries sharing
  objects when one was taken over whole (`DeepUpdate.DeepUpdate`).
- Two nodes of one MEAD ask for their MEAs under one name, and the second is refused
  (`RequestNamesDifferExactly`, `SecondNodeRefused`, `TwoNodesOneMead`). A node whose name is no
  identifier is not found by the expressions of the workflow (`CreateReadsExactly`,
  `HyphenEndsReference`).
- `create_ns_post` misses a created MEA exactly when the workflow output has no management URL for it
  (`DeletedExactly`, `CreatedMeaLost`). The output of a create workflow has one for every MEA created
  (`CreateThenDelete`), but a service whose workflow gave no output at all cannot be deleted, since
  the missing record makes `delete_mea` raise (`WorkflowGenerator.DeleteMea`).
- An alarm with several actions is misread when an action after the first starts with two
  hexadecimal digits, for the separator is then taken for an escape (`ActionsRecoveredExactly`,
  `BackupMisread`). A scaling policy with a hyphen in its name is not found again
  (`PairRecoveredExactly`, `HyphenatedPolicyLost`), one whose name is another's with a direction
  makes that one get a second direction (`SecondDirectionExactly`, `SecondDirectionAdded`), and one
  default action on its own runs twice (`RunOnceExactly`, `RespawnsTwice`).
- A failed bulk creation leaves nothing behind exactly when every object could be deleted again and
  the failing item itself stored nothing (`RestoredExactly`, `FirstItemStays`).

Where comments and code disagree the code is followed: the access key of an alarm URL is a path
segment, not a query (apmec/mem/monitor_drivers/ceilometer/ceilometer.py:59-73), and of the two
`break-on` entries of a wait task only the one for ERROR exists
(apmec/meo/drivers/workflow/workflow_generator.py:64-67).

## Model

| member | source | states |
|---|---|---|
| `MeaTable.MeaDb.StoreAttributes` | apmec/db/mem/mem_db.py:447-451 | every entry is added to the MEA's attribute rows or overwrites one, unless its key mentions vim_auth; other MEAs' rows stay |
| `MeaTable.MeaDb.CreateMeaPre` | apmec/db/mem/mem_db.py:389-431 | refused when a live row of the tenant has the name; else the new row is live and PENDING_CREATE without an instance, with the given attribute rows |
| `MeaTable.MeaDb.CreateMeaPost` | apmec/db/mem/mem_db.py:435-459 | refused unless the caller sees the row live in a create state; else sets instance and URL, and ERROR without an instance or after a failure |
| `MeaTable.MeaDb.CreateMeaStatus` | apmec/db/mem/mem_db.py:461-472 | sets the status of a visible row in a create state, DEAD included, and refuses any other |
| `MeaTable.MeaDb.GetMeaDb` | apmec/db/mem/mem_db.py:474-486 | compare-and-set of the status; PENDING_UPDATE is refused as in use even where it is allowed |
| `MeaTable.MeaDb.UpdateMeaScalingStatus` | apmec/db/mem/mem_db.py:488-506 | the same compare-and-set, with the management URL when there is a new one |
| `MeaTable.MeaDb.PruneAttributes` | apmec/db/mem/mem_db.py:532-535 | attribute rows whose key is not in the dictionary go, the others stay |
| `MeaTable.MeaDb.UpdateMeaPost` | apmec/db/mem/mem_db.py:521-546 | replaces the status only of a visible PENDING_UPDATE row, and the attribute rows unconditionally |
| `MeaTable.MeaDb.DeleteMeaPost` | apmec/db/mem/mem_db.py:562-588 | soft-deletes a visible PENDING_DELETE row, or makes it ERROR; any other row is left alone |
| `MeaTable.MeaDb.SetMeaErrorStatusReason` | apmec/db/mem/mem_db.py:642-646 | sets the reason of a visible row and nothing else |
| `MeaTable.MeaDb.MarkMeaStatus` | apmec/db/mem/mem_db.py:648-668 | sets the status of a live row of any tenant unless its status is excluded |
| `Lifecycle.Frame` | apmec/mem/plugin.py:268-656 | a call or step touches the rows of one MEA and one worker only |
| `Server.MecPlugin.CreateMea` | apmec/mem/plugin.py:268-348 | each point of a creation, run on the database object, is the step of the state machine: driver outcomes, refusals, error reasons and the worker's next point |
| `Server.MecPlugin.UpdateMea` | apmec/mem/plugin.py:409-472 | the same for an update after its first transaction |
| `Server.MecPlugin.DeleteMea` | apmec/mem/plugin.py:474-535 | the same for a deletion |
| `Server.MecPlugin.HandleMeaScaling` | apmec/mem/plugin.py:537-655 | the same for scaling after its first transaction, a refused ACTIVE leading to a try of ERROR |
| `Server.MecPlugin.Call` | apmec/mem/policy_actions/respawn/respawn.py:82-95 | the transaction that starts a call or a monitor action, and the worker it leaves, are those of the state machine |
| `Server.MecPlugin.Serve` | apmec/mem/plugin.py:393-472 | every schedule of calls, steps and deaths, served in place, ends in the state of the run; so all that holds of runs holds of the plugin |
| `UniqueNames.RunUnique` | apmec/db/mem/mem_db.py:419-422 | no run gives two live MEAs of a tenant the same name |
| `NoResurrection.NoResurrection` | apmec/db/mem/mem_db.py:435-596 | between any two points of any run, an ERROR or PENDING_DELETE row stays among these two until soft-deleted, only a PENDING_DELETE row is soft-deleted, and a soft-deleted row never changes |
| `Ownership.UpdateDeleteOwned` | apmec/mem/plugin.py:409-535 | in every reachable state an outstanding update (delete) worker's row is live and PENDING_UPDATE (PENDING_DELETE), and no MEA has two such workers |
| `Ownership.ScalingOwnedExactly` | apmec/mem/plugin.py:567-655 | with scaling workers included, ownership holds all along a run if and only if `_mark_mea_dead` never fires on an MEA a scaling worker is busy with |
| `Ownership.AttributesFrozen` | apmec/db/mem/mem_db.py:521-540 | from the moment an MEA is ERROR, PENDING_DELETE or soft-deleted its attribute rows never change, although the update that writes them has no guard |
| `Ownership.OrphanStuck` | apmec/db/mem/mem_db.py:474-486 | a PENDING_UPDATE or PENDING_DELETE row without a worker keeps its status and gets no worker, whatever follows |
| `Ownership.HolderReleases` | apmec/mem/plugin.py:409-535 | a worker that holds such a row can move it on by steps of its own |
| `Ownership.StuckExactly` | apmec/mem/plugin.py:409-535 | such a row keeps its status under every continuation if and only if no worker holds it |
| `Ownership.UpdateCanStrand` | apmec/mem/plugin.py:448-449 | in every reachable state, every ACTIVE MEA can get there by one call whose worker ends early |
| `Ownership.ScaleCanStrand` | apmec/mem/plugin.py:647-655 | in every reachable state, every ACTIVE MEA that no worker is scaling can end in PENDING_SCALE_* without a worker |
| `Ownership.ScaleOrphanLeavesExactly` | apmec/db/mem/mem_db.py:674-683 | a PENDING_SCALE_* row without a worker keeps its status along a run if and only if `_mark_mea_dead` never fires on it, and is DEAD after that |
| `Ownership.TwoScalingWorkers` | apmec/db/mem/mem_db.py:674-683 | from any state with an ACTIVE MEA there is a run, through a respawn, after which two workers hold its PENDING_SCALE_OUT row |
| `Outcomes.DeletionOutcome` | apmec/mem/plugin.py:474-535 | from any reachable state, whatever other workers do in between: the row is soft-deleted at the time of the last step if and only if the deletion call returned and the wait returned or there was no instance; else it is live and ERROR, with what was raised for a reason unless somebody else writes one; the rest of the row stays |
| `Outcomes.UpdateOutcome` | apmec/mem/plugin.py:409-472 | likewise an update ends ACTIVE if and only if neither driver call raised, else in ERROR with what was raised; the attribute rows are the entries of the dictionary, but keys that mention vim_auth keep their old row or have none |
| `Outcomes.ScalingOutcome` | apmec/mem/plugin.py:567-655 | likewise a scaling, where `_mark_mea_dead` never fires on an MEA being scaled: ACTIVE with the new management URL if and only if neither driver call raised, else ERROR with the old one and what was raised |
| `Outcomes.AdmittedExactly` | apmec/db/mem/mem_db.py:474-486 | which rows let each call begin, if and only if; a call that is refused changes nothing |
| `Outcomes.LogAndKillBegins` | apmec/mem/policy_actions/log/log.py:53-72 | log_and_kill makes the row DEAD and goes on to a deletion |
| `Turns.GapHeld` | apmec/mem/plugin.py:409-655 | while a worker holds a row, no run of the others changes it or its attribute rows, the reason excepted, nor the worker |
| `Creations.CreationOutcome` | apmec/mem/plugin.py:268-348 | while nobody else touches the MEA: status, instance, URL, reason and attribute rows by what create, the wait, the look-up and the configuration came to; ACTIVE if and only if all succeeded with a stack, PENDING_CREATE if and only if an exception escaped, ERROR otherwise; a raising create goes on to a deletion |
| `Creations.RespawnOutcome` | apmec/mem/policy_actions/respawn/respawn.py:76-95 | a respawn fills its row in the same way, whatever it held |
| `Creations.RespawnLosesSecondStack` | apmec/mem/policy_actions/respawn/respawn.py:82-95 | with both policies the second creation's stack is refused by the row, which keeps the first |
| `Provenance.ActiveProvenance` | apmec/mem/plugin.py:268-348 | after any run a live row in ACTIVE, PENDING_UPDATE, PENDING_SCALE_* or DEAD has an instance, and at some event of the run, or before it, Heat's answers to a worker waiting for that stack came to CREATE_COMPLETE within the retries, respawns included |
| `HeatPolling.CreateWait` | apmec/mem/infra_drivers/openstack/openstack.py:126-187 | returns if and only if the first answer that is not "in progress", among the allowed requests, is CREATE_COMPLETE and the look-up of addresses after it succeeds; another exception escapes if and only if the first request fails or that look-up does |
| `HeatPolling.DeleteWait` | apmec/mem/infra_drivers/openstack/openstack.py:234-272 | returns if and only if the first telling answer is DELETE_COMPLETE, or the stack is no longer known at a request that is not the first; a failing first request escapes |
| `HeatPolling.GoneBeforeWait` | apmec/mem/infra_drivers/openstack/openstack.py:238-239 | a stack that is already gone makes the wait raise |
| `HeatPolling.ScaleWait` | apmec/mem/infra_drivers/openstack/openstack.py:317-378 | raises its own error if and only if a request fails before a new completed signal; returns if and only if that does not happen, the look-up of addresses succeeds, and a signal came or Heat says no scaling is in progress; in all other cases another exception escapes, a scaling still in progress included |
| `HeatPolling.StillScaling` | apmec/mem/infra_drivers/openstack/openstack.py:347-363 | no signal in time and a scaling in progress: another exception escapes than the one meant |
| `Keyset.CompareTransitive` | apmec/api/api_common.py:275-280 | the directed lexicographic order is transitive |
| `Keyset.CompareFlip` | apmec/db/db_base.py:173-174 | flipping every direction, like swapping the rows, negates the comparison |
| `Keyset.KeysetExact` | apmec/db/sqlalchemyutils.py:80-98 | the OR of ANDs accepts a row if and only if it comes strictly after the marker, for any keys and directions |
| `Keyset.BuildCriteria` | apmec/db/sqlalchemyutils.py:84-95 | criterion i equates the first i keys with the marker's and lies strictly beyond it on key i, in that key's direction |
| `Keyset.PaginateQuery` | apmec/db/sqlalchemyutils.py:23-103 | when each error is raised, and otherwise that rows pass if and only if they passed before and follow the marker, with order and limit set |
| `Paging.ServedIsPrefix` | apmec/db/sqlalchemyutils.py:100-103 | whatever a database returns for ORDER BY with LIMIT, it is the beginning of the sorted table |
| `Paging.GetCollection` | apmec/db/db_base.py:168-191 | fails if and only if the sort is refused; else without sort keys, or without limit and marker, every row of the table once; with sort keys as many of the rows after the marker as the limit allows, first ones first, each once, reversed when asked backwards; and when the sort is total, exactly that stretch of the sorted table |
| `Paging.ServedBackwards` | apmec/db/db_base.py:173-191 | flipping every direction, filtering, limiting and reversing yields the last rows before the marker in forward order |
| `PageWalk.ListingExists` | apmec/db/sqlalchemyutils.py:61-77 | every table has a full listing in the order asked for, each row once |
| `PageWalk.NextAndPrevious` | apmec/api/api_common.py:57-74 | on any page, the next link followed by the previous one serves the same rows again; it is offered on backward pages and full ones |
| `PageWalk.PreviousAndNext` | apmec/api/api_common.py:57-74 | and so do the previous link and the next one, offered on forward pages and full ones |
| `PageWalk.WalkForward` | apmec/api/api_common.py:160-174 | following next links ends after rows / limit + 1 pages, whose concatenation is the sorted table, each row once |
| `ChangingTable.Request` | apmec/db/db_base.py:168-191 | a request with a marker row read from the table is served from that table, as walks assume |
| `ChangingTable.ListingsExactly` | apmec/db/sqlalchemyutils.py:80-98 | while the table changes between requests and each marker row is read again, a row that keeps its sort values is listed once, plus once for each marker that falls behind it and minus once for each that overtakes it |
| `ChangingTable.StableRowListed` | apmec/db/db_base.py:196-199 | when no marker row changes its sort values, whatever else happens, a row that keeps its own is listed on exactly one page |
| `ChangingTable.MovedMarkerSkips` | apmec/api/api_common.py:67-74 | a walk in which the marker row moves and a row that stays is on no page |
| `ChangingTable.MovedMarkerRepeats` | apmec/api/api_common.py:67-74 | a walk in which the marker row moves and a row that stays is on two pages |
| `EmulatedPaging.CmpFunc` | apmec/api/api_common.py:275-280 | decides the directed lexicographic order |
| `EmulatedPaging.NativeSortsTotal` | apmec/api/api_common.py:231-233 | for every request with sortable keys, the keys the database is asked for fix the order of any two rows |
| `EmulatedPaging.SortedIsListingExactly` | apmec/api/api_common.py:274-281 | for any sort keys, sorting stably in memory yields the database's order if and only if the plugin lists rows with equal keys in increasing order of the primary key |
| `EmulatedPaging.Paginate` | apmec/api/api_common.py:210-221 | the slice is taken around the first item with the marker's key, or the last item when there is none |
| `EmulatedPaging.EmulatedForwardExactly` | apmec/api/api_common.py:210-221 | for any sort keys and limit, all forward slices are the pages the database serves if and only if that holds |
| `EmulatedClient.UnsortedPagesDiffer` | apmec/api/api_common.py:260-281 | without sort keys, a plugin that lists MEA 2 before MEA 1 has another first page than the database |
| `EmulatedPaging.EmulatedBackwardExact` | apmec/api/api_common.py:219-220 | given the same order, a backward slice is the database's page if and only if the limit is at most the marker's index, that index is zero, or the index and the number of rows add up to at most the limit |
| `EmulatedClient.BackwardPagesDiffer` | apmec/api/api_common.py:219-220 | three rows and the page of three before the second: the slice is empty, the database serves the first row |
| `EmulatedPaging.EmulatedLastPageExact` | apmec/api/api_common.py:219-220 | backwards without a marker it is so if and only if the table is empty |
| `EmulatedClient.LastPagesDiffer` | apmec/api/api_common.py:160-174 | one row, one to a page: next and then previous end on an empty page instead of the only one |
| `EmulatedClient.LinksStayOnGrid` | apmec/api/api_common.py:160-174 | pages reached by links start at multiples of the limit |
| `EmulatedClient.LinkedBackwardPagesAgree` | apmec/api/api_common.py:160-174 | so every backward request with a marker that links lead to meets the condition |
| `EmulatedClient.ClientServedNatively` | apmec/api/api_common.py:210-226 | a client of the emulating helpers who follows links from the first page is served the database's page every time, unless it asks for the last page |
| `Extensions.OrderIsLeast` | apmec/api/extensions.py:463-493 | an order that respects requirements and leaves nothing ready lists the least closed set |
| `Extensions.UnprocessedExactly` | apmec/api/extensions.py:473-478 | an extension is left out if and only if its requirements lead to a missing name, an extension without attributes, or a cycle |
| `Extensions.MergeAllIsUnion` | apmec/api/extensions.py:480-485 | when fragments agree, the merged map is the pointwise union, fragments taking precedence over the base |
| `Extensions.UnionIsUnique` | apmec/api/extensions.py:480-485 | there is only one such union |
| `Extensions.LoadingConfluent` | apmec/api/extensions.py:463-493 | any two loading orders process the same extensions and end with the same map when fragments agree |
| `Extensions.AttributeMap.Extend` | apmec/api/extensions.py:481-485 | the map becomes the merge with the fragment, resource by resource |
| `Extensions.ExtensionManager.Process` | apmec/api/extensions.py:479-490 | moves one ready extension from pending to processed and merges its fragment |
| `Extensions.ExtensionManager.OnePass` | apmec/api/extensions.py:466-490 | a pass visits every extension still to process once, calls hooks and processes what is ready by then; when it processes none, all that are left lack a requirement |
| `Extensions.ExtensionManager.ExtendResources` | apmec/api/extensions.py:451-502 | terminates with an order that respects requirements and leaves nothing ready and the map merged in that order; the hook of an extension that has both is called once for each pass up to the one that processes it, or for all passes if none does |
| `Extensions.ExtensionManager.HookOfUnprocessed` | apmec/api/extensions.py:471-478 | an extension that waits for a missing one is not processed, and its hook is called |
| `RpcTimeouts.MethodTimeouts.SetMaxTimeout` | apmec/common/rpc.py:123-130 | an effective change clamps the table and moves default and ceiling, an ineffective one does nothing |
| `RpcTimeouts.MethodTimeouts.GetMaxTimeout` | apmec/common/rpc.py:119-120 | the ceiling, or ten times the configured timeout when there is none or it is zero |
| `RpcTimeouts.ContextWrapper.StartCall` | apmec/common/rpc.py:146-148 | the call remembers the method's current timeout, which enters the table |
| `RpcTimeouts.ContextWrapper.CallTimedOut` | apmec/common/rpc.py:165-172 | doubles the remembered timeout up to the ceiling, and stores it only if it is larger than the table's by then |
| `RpcTimeouts.AlwaysBounded` | apmec/common/rpc.py:109-173 | under any interleaving of calls, timeouts, ceiling changes and resets every timeout, table entry or default, is at most the ceiling |
| `RpcTimeouts.CallsNeverLower` | apmec/common/rpc.py:138-173 | without ceiling changes no timeout decreases |
| `RpcTimeouts.CeilingRaisesExactly` | apmec/common/rpc.py:123-130 | after any calls, setting the ceiling raises a method's timeout if and only if it lies between the configured timeout and ten times that and no call has been made of the method, which then starts at the ceiling |
| `RpcTimeouts.CeilingCutsExactly` | apmec/common/rpc.py:123-130 | after anything, an effective change leaves an entry that is at most the new ceiling and makes any other the ceiling, which limits nothing afterwards when it is zero; any other change does nothing |
| `RpcTimeouts.Doubles` | apmec/common/rpc.py:138-173 | after n timeouts one after the other the timeout is the n-fold double of the first, capped, amid any traffic on other methods |
| `RpcTimeouts.BurstDoublesOnce` | apmec/common/rpc.py:165-172 | any number of overlapping calls that time out double it once |
| `Merging.PathSemantics` | apmec/common/utils.py:205-212 | what is found on every path after the merge: the new value, a merge of two dictionaries, or the old value unless shadowed |
| `Merging.UpdateIdempotent` | apmec/common/utils.py:205-212 | merging the same dictionary again changes nothing |
| `Merging.AbsorbedExactly` | apmec/common/utils.py:205-212 | nothing of the old dictionary survives if and only if the new one covers it all the way down |
| `Merging.AssociativeExactly` | apmec/common/utils.py:205-212 | merging in two steps equals merging the merge if and only if, wherever a scalar replaces a dictionary and is replaced by one, the last covers the first |
| `Merging.AssociativityFails` | apmec/common/utils.py:205-212 | a dictionary, a scalar and an empty dictionary under one key, where it does not |
| `DeepUpdate.DeepUpdate` | apmec/common/utils.py:205-212 | the loop turns the old objects into the merge and leaves the new contents alone; afterwards some object can be reached from both, by whatever keys, if and only if a dictionary was taken over whole |
| `Parameters.FailsExactly` | apmec/meo/meo_plugin.py:525-537 | the substitution fails if and only if dictionaries lead, past no other call, to a get_input whose parameter is missing |
| `Parameters.SubstPaths` | apmec/meo/meo_plugin.py:525-537 | what is found on every path afterwards: below a call its argument, elsewhere what was there |
| `Parameters.SubstLeavesNoCalls` | apmec/meo/meo_plugin.py:530-532 | with arguments free of calls none can be reached afterwards |
| `Parameters.SubstIdempotent` | apmec/meo/meo_plugin.py:525-537 | a second substitution, with whatever arguments, then succeeds and changes nothing |
| `Parameters.NothingToDo` | apmec/meo/meo_plugin.py:527-528 | skipping values whose printed form does not mention get_input loses nothing |
| `ParameterUpdate.UpdateParams` | apmec/meo/meo_plugin.py:525-537 | the loop fails if and only if a reachable call does not resolve, else turns the objects into the substitution; after a failure every entry is as before or substituted, and the error is that of some reachable call: the key that holds it, or a name that no key can be |
| `ParameterUpdate.ProcessParameterizedInput` | apmec/meo/meo_plugin.py:540-548 | succeeds if and only if there are parameters and every node template that mentions get_input finds all it calls for among the descriptor's; then all node templates are filled in, and they stay separate; else the error says what is missing |
| `Workflow.GroupNodes` | apmec/meo/meo_plugin.py:421-435 | each node of one of the descriptor's types is listed once under its MEAD, no other node is, and each MEAD carries its onboarded id |
| `Workflow.GroupsOneMead` | apmec/meo/meo_plugin.py:421-435 | so no node is listed under two MEADs |
| `Workflow.TaskNamesDiffer` | apmec/meo/drivers/workflow/workflow_generator.py:32-90 | different tasks have different names, whatever the nodes are called |
| `Workflow.VarNamesDiffer` | apmec/meo/drivers/workflow/workflow_generator.py:37-46 | and so have published variables and outputs |
| `Workflow.AddTasks` | apmec/meo/drivers/workflow/workflow_generator.py:26-95 | exactly one task of the kind for each node, as that kind requires: what it uses and publishes, its retry and its links |
| `Workflow.BuildOutput` | apmec/meo/drivers/workflow/workflow_generator.py:97-106 | exactly the four outputs of each node, each read from the variable of its name |
| `Workflow.BuildInput` | apmec/meo/drivers/workflow/workflow_generator.py:111-128 | one request per node, named after its MEAD's id and the workflow's uuid, with its parameters if there are any |
| `Workflow.RequestOfNode` | apmec/meo/meo_plugin.py:374-432 | each node's request is for the first onboarded MEAD of the name given for its type, on the service's VIM, with the values given for that MEAD if any |
| `NsNames.RequestNamesDifferExactly` | apmec/meo/drivers/workflow/workflow_generator.py:113-124 | the requests of a workflow have different names if and only if no two nodes have the same MEAD id |
| `NsNames.SecondNodeRefused` | apmec/db/mem/mem_db.py:398-422 | as long as the MEA of one request is live, whatever runs meanwhile, the database refuses an MEA under the same name |
| `NsNames.TwoNodesOneMead` | apmec/meo/drivers/workflow/workflow_generator.py:113-124 | two nodes of one MEAD, of which the second gets no MEA |
| `Workflow.WorkflowGenerator.CreateMea` | apmec/meo/drivers/workflow/workflow_generator.py:130-144 | the definition has exactly one create, wait and delete task per node, the outputs and the requests |
| `Workflow.WorkflowGenerator.DeleteMea` | apmec/meo/drivers/workflow/workflow_generator.py:146-157 | exactly one delete task per recorded instance and its id as input; raises if and only if there is no record |
| `WorkflowScope.CreateWellScoped` | apmec/meo/drivers/workflow/workflow_generator.py:26-144 | on-success targets exist, every task is reachable, and on every path all that a task uses is an input or was published before; outputs are published |
| `WorkflowScope.DeleteWellScoped` | apmec/meo/drivers/workflow/workflow_generator.py:146-157 | the same for the delete workflow, whose tasks all start at once |
| `WorkflowMeaning.CreateMeaning` | apmec/meo/drivers/workflow/workflow_generator.py:26-106 | after any run on any results: which tasks may run next, deletions only after a wait that reports ERROR; the output has all four variables of exactly the nodes whose MEA was created, each that field of the created MEA, with URL and status from the wait once it succeeded |
| `WorkflowMeaning.CreateActs` | apmec/meo/drivers/workflow/workflow_generator.py:32-92 | along any run create_mea gets its node's request and no other; show_mea and delete_mea get the id of the MEA created for the node and no other |
| `WorkflowMeaning.OnlyWaitsRepeat` | apmec/meo/drivers/workflow/workflow_generator.py:61-70 | only waits repeat, ten times at ten seconds, while PENDING_CREATE and not on ERROR |
| `WorkflowMeaning.DeleteMeaning` | apmec/meo/drivers/workflow/workflow_generator.py:146-157 | along any run of the delete workflow the tasks of the recorded nodes that have not run may run, each on the recorded id and no other |
| `WorkflowText.ReferenceReadsExactly` | apmec/meo/drivers/workflow/workflow_generator.py:33-46 | a printed reference is read back if and only if its node is made of identifier characters, and for a request is an identifier |
| `WorkflowText.CreateReadsExactly` | apmec/meo/drivers/workflow/workflow_generator.py:26-95 | all references of a create workflow are read back if and only if all nodes are identifiers |
| `WorkflowText.HyphenEndsReference` | apmec/meo/drivers/workflow/workflow_generator.py:59-60 | a reference for node a-b is read as the one for node a |
| `NsRecord.NsRow.CreateNsPost` | apmec/db/meo/ns_db.py:288-325 | records ids and URLs of exactly the instances with a URL, nothing for an empty output, and ACTIVE if and only if the workflow succeeded, whatever the status was; errors leave the row alone |
| `NsRecord.DeletedExactly` | apmec/meo/drivers/workflow/workflow_generator.py:146-157 | the delete workflow deletes exactly the created MEAs that have a management URL in the output, by one task each |
| `NsRecord.CreatedMeaLost` | apmec/db/meo/ns_db.py:293-296 | an output with an id and no management URL: the MEA is in no delete workflow |
| `NsRecord.OutputNames` | apmec/meo/drivers/workflow/workflow_generator.py:36-46 | the output of any run of a create workflow has the id and a URL of exactly the MEAs it created |
| `NsRecord.CreateThenDelete` | apmec/db/meo/ns_db.py:291-298 | from any run of a create workflow, through its output and the record: the record holds exactly the ids that creations returned, there is none if and only if nothing was created, and the delete workflow deletes exactly those MEAs, by one task each |
| `AlarmUrl.UnquoteShortens` | apmec/alarm_receiver.py:88-89 | unquoting changes a string if and only if it holds an escape |
| `AlarmUrl.HandleUrl` | apmec/alarm_receiver.py:79-94 | the segments of the path with the action unquoted and the prefix of the MEA, or nothing unless there are seven with meas in third place |
| `AlarmUrl.ReadBackExactly` | apmec/mem/monitor_drivers/ceilometer/ceilometer.py:58-74 | the receiver reads the printed segments back if and only if none holds a slash, question mark or number sign, the key holds no semicolon and the action nothing like an escape |
| `AlarmActions.AlarmTrigger.ActionName` | apmec/mem/monitor.py:224-253 | in place, an action that names a scaling policy gets "-out" if the comparison is gt and "-in" for every other, all others stay, and the list is joined; nothing for an empty list |
| `AlarmActions.UpdateMeaWithAlarm` | apmec/mem/monitor.py:215-262 | each trigger gets the URL of its refactored actions, unless one has no actions: then there are no URLs at all, and the lists before it stay rewritten |
| `AlarmActions.SecondDirectionExactly` | apmec/mem/monitor.py:239-250 | writing the URL again adds a second direction to an action if and only if it names a scaling policy and there is a scaling policy by the refactored name |
| `AlarmActions.SecondDirectionAdded` | apmec/mem/monitor.py:239-250 | two policies with which it does |
| `AlarmActions.EscapesExactly` | apmec/mem/monitor.py:252-253 | a joined list holds an escape if and only if an action after the first starts with two hexadecimal digits |
| `AlarmActions.ActionsRecoveredExactly` | apmec/alarm_receiver.py:79-94 | given the URL as printed, without the server's decoding and quoting on the way, trigger and list of actions come back if and only if names are free of the URL's separators, actions of percent signs, and no later action starts with two hexadecimal digits |
| `AlarmActions.BackupMisread` | apmec/alarm_receiver.py:88-89 | logging and a backup do not come back from their URL |
| `AlarmActions.ValidateAlarmingPolicy` | apmec/mem/plugin.py:733-770 | refused unless the alarm fired; else the default actions in order, and the policies, with what follows a single hyphen, that the split action names, each as often as named |
| `AlarmActions.PairRecoveredExactly` | apmec/mem/plugin.py:752-766 | policy and direction come back if and only if the name holds no hyphen and no policy has the refactored name; otherwise no direction comes back |
| `AlarmActions.HyphenatedPolicyLost` | apmec/mem/plugin.py:753-762 | the scaling policy SP-1 is not found again |
| `AlarmActions.ListRecoveredExactly` | apmec/mem/plugin.py:746-766 | a whole list of policies comes back, each as often as meant, if and only if that holds of each |
| `AlarmActions.AlarmRoundTrip` | apmec/mem/plugin.py:733-770 | from trigger to URL to receiver to plugin: default actions as meant, and policies as meant if and only if each is distinguishable |
| `AlarmActions.ScalingComesBackExactly` | apmec/mem/monitor.py:239-250 | through URL and receiver to the plugin, an action of a scaling policy comes back with that policy and "out" for gt, "in" otherwise, if and only if its name holds no hyphen and no policy has the written name |
| `AlarmActions.LowLoadScalesIn` | apmec/tests/etc/samples/sample-tosca-alarm-scale.yaml:69-82 | a trigger with lt on SP1 is written SP1-in |
| `AlarmActions.FindsFirst` | apmec/mem/plugin.py:672-709 | a look-up gives the first policy of the name, or the first of all for an empty name |
| `AlarmActions.ResolvesExactly` | apmec/mem/plugin.py:752-766 | a written action stands for the policy of that name, or else for the policy before its only hyphen with what follows |
| `AlarmActions.RunOnceExactly` | apmec/mem/plugin.py:796-812 | default actions run once each, unless the list is one default action |
| `AlarmActions.RespawnsTwice` | apmec/mem/plugin.py:796-812 | respawn on its own runs twice |
| `BulkCreate.Plugin.EmulateBulkCreate` | apmec/api/v1/base.py:307-340 | all objects in order if and only if no item fails; else the objects created before the failure are deleted as far as that succeeds |
| `BulkCreate.LeftBehind` | apmec/api/v1/base.py:323-340 | what a failed request leaves besides the rows there were, which stay: the objects that could not be deleted and the remnant of the failing item |
| `BulkCreate.RestoredExactly` | apmec/api/v1/base.py:323-340 | nothing is left if and only if every created object could be deleted and the failing item stored nothing |
| `BulkCreate.FirstItemStays` | apmec/api/v1/base.py:323-335 | the second item fails and the first, which cannot be deleted, stays |

## Left out

- Lifecycle: takes every transaction as atomic, which `_get_mea_db` and `_mark_mea_status` see to with a lock and `_create_mea_post` and `_create_mea_status`, which read without one, leave to the database's isolation. A step joins one driver call with the transaction after it, and event records, the monitor's own table, `mea_dict` entries other than the status and instance, and the update that `config_mea` makes (a call of its own) are not in it.
- MeaTable.MeaDb.CreateMeaPre: takes an id that is given and new; a missing MEAD, for which it raises, is left out.
- MeaTable.MeaDb.DeleteMeaPost: does not model hard deletion, which no caller asks for, nor the deletion of inline MEADs, nor that two MEAs of one name deleted at the same moment violate the unique constraint.
- Outcomes.ScalingOutcome: takes runs on which `_mark_mea_dead` does not fire on an MEA that is being scaled; Ownership.TwoScalingWorkers shows what may happen otherwise.
- Creations.CreationOutcome: takes runs on which nobody else touches the MEA between the creation's own steps; a deletion, which PENDING_CREATE allows, makes the remaining transactions refuse.
- WorkflowMeaning: takes Mistral to run each task at most once and to keep one set of variables, which the branches of different nodes do not share; how it evaluates the retry of a wait is left out, only the wait's last answer is in, and so is what Mistral reports as the output of a workflow that failed.
- Provenance.ActiveProvenance: is about the OpenStack driver; other drivers and `_mark_mea_error`, which has no caller, are not in it.
- HeatPolling.ScaleWait: takes the number of retries as not negative; with a negative one the loop would not end. What the look-ups of addresses find is left out, only whether they succeed is in.
- Paging: NULL columns, filters and the look-up of a marker that is gone, which ends a walk.
- EmulatedPaging: page requests without a limit, and the policy filter between paging and links.
- Extensions.AttributeMap.Extend: keeps values, where the source keeps the fragment's own dictionary for a new resource, so that later merges also change that fragment.
- Extensions: what `update_attributes_map` does, and the part of a fragment merged before an AttributeError that comes late.
- RpcTimeouts: the random wait after a timeout, which changes no timeout, and fractional timeouts.
- DeepUpdate.DeepUpdate: takes dictionaries loaded from YAML without anchors, so that neither holds an object twice and they share none at the start.
- ParameterUpdate.UpdateParams: takes a template loaded without anchors; parameter values that are dictionaries are kept as values, so that two places sharing one are not told apart from two copies.
- Workflow.AddTasks: does not model the text of expressions; WorkflowText prints the references in them, and takes an identifier of the expression language to be letters, digits and underscores.
- Workflow.BuildInput: does not model the substitution mappings that required nodes add to parameters; the uuid is given.
- Workflow.WorkflowGenerator.CreateMea: takes a grouping in which no node is under two MEADs, as Workflow.GroupsOneMead says of every grouping that create_ns makes.
- ParameterUpdate.ProcessParameterizedInput: takes node templates that are dictionaries and parameters that are dictionaries per name.
- NsRecord.NsRow.CreateNsPost: the reading of Python literals is a parameter; the polling before it is left out.
- AlarmUrl.HandleUrl: takes http and https URLs; query parameters, which nothing uses, and the re-quoting by the web server on the way are left out; characters above ASCII are decoded one by one.
- AlarmActions.UpdateMeaWithAlarm: the access keys are given, and the events it logs are left out.
- BulkCreate.Plugin.EmulateBulkCreate: stripping of fields by policy is left out, and the plugin's reactions are given in advance.
- Get requests, routing, serializers, RPC transport, Heat, Mistral, Keystone, the TOSCA parser and translator, configuration and migrations hold no state of their own that these properties depend on.
- In-use checks of MEADs and NSDs and the purge of old rows compare `deleted_at` with None or a time line, while live rows carry the smallest date; they are not modelled.
