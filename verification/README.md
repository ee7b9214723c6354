# Linux-NetX: verified model of pinning, placement, caching and transfer

This project models the parts of Linux-NetX whose correctness does not show from one function:

- the **pinning protocol** by which node workers and controllers share two Redis hashes (host to node,
  node to count and capacity) while each node keeps a private map from child pids to hosts. `Pinning.dfy`
  is the state machine, one action per atomic access to Redis, for any number of nodes interleaved with
  crashes, abandoned jobs, restarts and force-deletes; `PinningSafety.dfy` proves what every run keeps and how
  crashes are recovered, `PinningLifecycle.dfy` who is registered, what a clean shutdown leaves and that no node
  is ever stuck, `PinningAssumptions.dfy` what each assumption is needed for; `NodeWorker.dfy` is the class as
  the code writes it, each method proved equal to a sequence of those actions;
- **dispatch**: the controller's retry loop (`Dispatch.dfy`; with the default scheduler,
  `LeastLoadDispatch.dfy`) and the bulk dispatcher with all its partial failures (`BulkDispatch.dfy`);
- the **schedulers**: `Placement.dfy` defines what it means to fill ranked nodes and proves what follows;
  `Schedulers.dfy` and `RandomSchedulers.dfy` prove the loops of all four batch schedulers against it, the
  random ones for every sequence of draws; `FewestNodes.dfy` says when a batch uses as few nodes as possible;
- the **two-level secret cache** (`VaultCache.dfy`, `VaultProvider.dfy`): staleness over every run of any
  number of processes, with the exact condition on the Redis keys and a bound that cannot be lowered;
- **resumable and recursive file transfer** (`FileTransfer.dfy`; `RemoteTree.dfy` for the tree a recursive download
  walks, `RecursiveDownload.dfy` for what it does with it);
- the **JSON writer and readers** of the C++ agent (`AgentJson.dfy`, `AgentRoundTrip.dfy`), over all strings;
- three run-shaped pieces: the **webhook retry chain**, the **fail-fast configuration push** and the
  **capped audit collection** (`Webhook.dfy`, `ConfigPush.dfy`, `Archiver.dfy`).

Random draws, replies of devices and services, clock readings and failures are arbitrary inputs or
nondeterministic choices. Exceptions are values (`None`, `Interrupted`, `Raised`, ...).

Assumptions the code makes are explicit, and where one can be broken the exact condition is proved:

- the scan and the pipeline that follows it act as one step, both for force-delete (`StaleScanExact`) and for
  registration (`StaleRegistrationExact`); `StaleScanHarms` is a run in which a stale scan costs a node its host;
- only down nodes are force-deleted (`ForceDeleteExact`, and `ForceDeleteDuringCleanup` for a run in which a
  node that is still cleaning up looks dead);
- a child pid is not reused while a removal naming it is queued (`PidReuseExact`).

A Redis error, or any other exception, inside `add` or `_remove` is caught by rq and the node runs on with the
job abandoned where it stood. The state machine has that as an action: the agreement then holds up to a
record of what was left behind, each abandoned job leaving at most one host locked and the count off by one
(`DebtBounded`), and exactly as long as none is abandoned (`ExactAgreement`).

Where code and documentation disagree the model follows the code:

- `least_load` says it uses the minimum node amount and `greedy` that it uses least nodes; within each load
  level both do (`FewestNodesPerLevel`), over the whole list exactly when `FewestOverallExactly` says, and
  `NotFewestNodesOverall` is a family of inputs on which neither does;
- a webhook says it makes `max_retries + 1` attempts; with an empty interval list the second failed
  attempt raises instead, so at most two are made (`Webhook.LimitExactly`);
- an upload that is not resumed counts from the old remote size, so its counter is too high
  whenever the remote file was not empty (`FileTransfer.Upload`);
- a recursive download looks every entry up by its path with backslashes turned into slashes, so a file whose
  name has a backslash, or any entry below a root that has one, is not found (`RemoteTree.BackslashNotFound`)
  or another file arrives in its place (`RemoteTree.BackslashFindsOther`); `RemoteTree.SeenExactly` says
  exactly when the tree that is there is the one that is downloaded;
- the agent's reader turns an escaped carriage return into the letter r and its writer turns other control
  characters into spaces, so a string survives exactly when newline and tab are its only control
  characters (`AgentRoundTrip.SurvivesExactly`).

## Model

| member | source | states |
|---|---|---|
| `PinningSafety.StepKeepsInv` | linux_net/worker/node.py:146-225 | every action of a node and every force-delete of a down node keeps the agreement of all nodes with Redis and leaves every other node's entries and info alone |
| `PinningSafety.RunningNodesAgree` | linux_net/worker/node.py:146-225 | in every state of every interleaving, abandoned jobs included, a running node's published count is within capacity and equals its number of children up to the add or removal in progress and what abandoned jobs left; its children, corrected by what was left, are within capacity too; its Redis entries are exactly its hosts, the one in flight and the ones left locked; no host is tracked by two running nodes; "node does not exist" is never reached |
| `PinningSafety.ExactAgreement` | linux_net/worker/node.py:146-225 | as long as no job of the node was abandoned, the count is the number of its children and its entries are its hosts, up to the add or removal in progress, and it never has more children than its capacity |
| `PinningSafety.DebtBounded` | linux_net/worker/node.py:186-193 | each abandoned job leaves at most one host locked and the count off by at most one |
| `PinningSafety.CapacityExceededBy` | linux_net/worker/node.py:164-193 | with abandoned jobs a node exceeds its capacity by no more than their number |
| `PinningSafety.LeftoversFrozen` | linux_net/worker/node.py:171-188 | the entries of a stopped node stay exactly as they were until it registers again or is force-deleted, whatever others do |
| `PinningSafety.RecoveryClears` | linux_net/services/manager.py:315-335 | registration and force-delete remove every entry of the node, restore the invariant's premises and touch nobody else |
| `PinningSafety.CrashThenRecover` | linux_net/worker/node.py:58-93 | after a crash at any point of add, removal or cleanup the first recovery finds exactly the crashed node's hosts locked, removes them all and leaves other nodes as they are |
| `PinningLifecycle.RegisteredExactly` | linux_net/worker/node.py:58-129 | over every run a node is registered if and only if its last registration came after its last completed cleanup, failed start and force-delete, and then with the capacity it registered |
| `PinningLifecycle.CleanShutdown` | linux_net/worker/node.py:111-129 | after a cleanup that was begun and finished the node is no longer registered and its entries are exactly the host that was in flight and the ones left locked, so none if it was idle and no job was abandoned; other nodes are untouched |
| `PinningLifecycle.RemovalWaits` | linux_net/worker/node.py:227-242 | the removal of an exited child stays queued, through crashes and restarts of the node, until the node takes it up or the queue loses it |
| `PinningLifecycle.JobEnds` | linux_net/worker/node.py:146-225 | from every reachable state a node in the middle of an add or a removal can end it by itself in at most two actions |
| `PinningLifecycle.ExitReleases` | linux_net/worker/node.py:196-242 | from every reachable idle state the exit of a child and its removal free the host for everybody and lower the count by one |
| `PinningLifecycle.CrashesAnywhere` | linux_net/worker/node.py:58-93 | from every reachable state a running or leaving node can crash and register again with no entries, an empty pid map and a fresh info |
| `PinningLifecycle.StopsAnywhere` | linux_net/worker/node.py:111-129 | from every reachable state a running node can be stopped in good order, which deletes its info and the entries of the hosts it tracks, and no other |
| `PinningLifecycle.StoppedCanBeForgotten` | linux_net/services/manager.py:315-335 | a node that is not running can be force-deleted in every reachable state, which leaves it neither info nor entries |
| `PinningAssumptions.StaleScanExact` | linux_net/services/manager.py:325-335 | deleting with keys scanned earlier is harmless if and only if no key has meanwhile been taken over by a node relying on it |
| `PinningAssumptions.StaleRegistrationExact` | linux_net/worker/node.py:70-93 | registering with keys scanned earlier is harmless if and only if they cover all the node still owns and no key has meanwhile been taken over by a node relying on it |
| `PinningAssumptions.FreshScanRegisters` | linux_net/worker/node.py:70-93 | with the keys owned at that moment the pipeline is the machine's registration |
| `PinningAssumptions.StaleScanHarms` | linux_net/services/manager.py:325-335 | a run from an initial state in which another controller force-deletes the dead node and a second node pins its host; the pipeline with the keys scanned before, of a force-delete or a registration, then deletes that node's entry |
| `PinningAssumptions.ForceDeleteExact` | linux_net/services/manager.py:316-335 | force-deleting a node keeps the invariant if and only if the node is neither running nor holding hosts it is about to clean up |
| `PinningAssumptions.ForceDeleteDuringCleanup` | linux_net/worker/node.py:111-129 | a run from an initial state to a node about to delete its hosts; force-deleted there, it goes on to delete the entry of the node that took over its host |
| `PinningAssumptions.PidReuseExact` | linux_net/worker/node.py:191-193 | tracking a child keeps the agreement if and only if its pid is neither tracked nor named by a queued removal of another host |
| `NodeWorker.Worker.Register` | linux_net/worker/node.py:58-93 | registration is the machine's register action: own entries gone and all others kept, fresh info with the given capacity published, pid map empty, queued removals kept |
| `NodeWorker.Worker.Add` | linux_net/worker/node.py:146-193 | an uninterrupted add is the machine's sequence of actions, and each of its six ways out is taken exactly under its condition; nothing changes unless the host is pinned |
| `NodeWorker.Worker.Reap` | linux_net/worker/node.py:227-242 | a reaped child queues the removal of its own host and changes nothing else, an unknown pid nothing |
| `NodeWorker.Worker.Remove` | linux_net/worker/node.py:196-225 | an uninterrupted removal is the machine's sequence of actions, unknown pids and missing info included |
| `NodeWorker.Worker.Cleanup` | linux_net/worker/node.py:111-129 | cleanup deletes exactly the tracked hosts' entries, by host, and the node's info, and leaves queued removals |
| `NodeWorker.AddOutcome` | linux_net/worker/node.py:151-193 | from a consistent state an add pins the host if and only if nobody has it, there is room and the child starts; otherwise Redis and the node are exactly as before |
| `NodeWorker.RemoveUndoesAdd` | linux_net/worker/node.py:207-225 | the removal queued when a child exits restores the exact state before the add that started it |
| `Dispatch.Controller.GetAssigned` | linux_net/services/manager.py:265-286 | the node each host's entry names, in order and however full it is; none exactly where either hash has no entry |
| `Dispatch.Controller.ForceDelete` | linux_net/services/manager.py:325-335 | the node's info and exactly its own entries are deleted |
| `Dispatch.Controller.DispatchPinned` | linux_net/services/manager.py:504-537 | a pinned host whose node is alive stays there, full or not, with nothing changed in Redis; otherwise the loop computes the bounded sequence of attempts; a launch is queued on the chosen node exactly when the host has no live worker |
| `Dispatch.AttemptsReachLiveNode` | linux_net/services/manager.py:506-530 | only dead nodes are ever forgotten; a returned node is registered, alive, and the one the host is assigned to or else one with room; with a live node with room and at most three dead ones the call succeeds |
| `Dispatch.PinnedHostStays` | linux_net/services/manager.py:508-527 | if a host's entry names a registered node with a live queue, the attempts end at once with that node, full or not, and nothing changes |
| `Dispatch.TrackedHostStays` | linux_net/services/manager.py:508-527 | in every state of every run of the protocol, a host tracked by a running node with a live queue is dispatched to that node |
| `Types.QueuesApart` | linux_net/utils/config.py:158-163 | different hosts and different nodes have different queues, and no host shares one with a node |
| `Dispatch.ThreeDeadIsTheLimit` | linux_net/services/manager.py:505-530 | against a scheduler that meets dead nodes first, an unassigned host is placed if and only if at most three nodes are dead |
| `LeastLoadDispatch.LeastLoadIsSound` | linux_net/plugins/schedulers/least_load/__init__.py:26-51 | whatever order the nodes are listed in, least-load returns a registered node with room if there is one |
| `LeastLoadDispatch.LeastLoadReachesLiveNode` | linux_net/services/manager.py:506-530 | with least-load, a live node with room and at most three dead ones, dispatch ends with a live registered node |
| `BulkDispatch.LaunchAll` | linux_net/services/manager.py:628-645 | the probing loop forgets, launches and fails exactly what the picks up to the first fault call for, with true reasons; a launch may be queued and still raise, a force-delete may raise after it has run |
| `BulkDispatch.OnlyFoundDeadForgotten` | linux_net/services/manager.py:631-637 | a node loses its info and all its entries if and only if one of its picks was found dead, or the loop ended by a fault after deleting it; every other node is untouched |
| `BulkDispatch.LivePicksKept` | linux_net/services/manager.py:631-645 | a node whose picks were all alive keeps its info and every entry, whether or not a launch raised |
| `BulkDispatch.LaunchesExactly` | linux_net/services/manager.py:639-645 | one launch, in the order of the picks, for every pick that was launched or raised after queueing, on the picked node's queue and for its own host; no other |
| `BulkDispatch.FailTheRest` | linux_net/services/manager.py:647-652 | after an exception every unassigned host has failed, none reported twice for one position |
| `BulkDispatch.Schedule` | linux_net/services/manager.py:608-652 | every unassigned host has failed for a true reason or may be sent to, all of them failing if anything raised, under every pattern of gaps, dead nodes, launch errors and exceptions |
| `BulkDispatch.DispatchBulk` | linux_net/services/manager.py:593-686 | sent and failed hosts are disjoint and cover the input; every failure carries its true reason; each job goes to its own host's queue with its own arguments, in the order of the hosts with the assigned ones first, and only if the host had a node or, scheduling not having raised, its launch was queued on a node seen alive or the scheduler's list was too short to reach it |
| `BulkDispatch.SentAreBackedExactly` | linux_net/services/manager.py:616-676 | for distinct hosts, when scheduling did not raise and the pipeline worked, every job sent is for a host that had a node or whose launch was queued on a node seen alive if and only if the scheduler returned one entry per unassigned host |
| `BulkDispatch.ShortListSendsUnlaunched` | linux_net/services/manager.py:616-676 | an input on which a job is sent with no launch because the scheduler's list is short |
| `BulkDispatch.DistinctHostsReportedOnce` | linux_net/services/manager.py:654-686 | for distinct hosts every host is reported exactly once |
| `Placement.PlacedWithinRoom` | linux_net/plugins/schedulers/least_load/__init__.py:89-123 | given enough capacity every host gets a node, only nodes with room are used and none beyond its room |
| `Placement.PreferredNodesAreFull` | linux_net/plugins/schedulers/least_load/__init__.py:93-121 | a node is used only when every preferred node with room, so every one at a lower level, is full |
| `Placement.PlacedInOrder` | linux_net/plugins/schedulers/least_load/__init__.py:93-121 | of two hosts on different nodes the earlier one is on the preferred node |
| `Placement.StrLessExactly` | linux_net/plugins/schedulers/least_load/__init__.py:45-49 | the order of hostnames is decided by the first difference, a proper beginning being less |
| `Placement.TotalRoomAdds` | linux_net/plugins/schedulers/least_load/__init__.py:71-74 | the total compared with the number of hosts is the capacities less the counts, over-full nodes counting against the rest |
| `Placement.FewestNodesPerLevel` | linux_net/plugins/schedulers/least_load/__init__.py:83-121 | within each load level no smaller set of nodes could hold the hosts placed there |
| `FewestNodes.FewestOverallExactly` | linux_net/plugins/schedulers/least_load/__init__.py:53-123 | over the whole list no smaller set of nodes could hold the hosts if and only if as many nodes as the ranking needs, less one, are too few even when they are those with most room |
| `FewestNodes.NotFewestNodesOverall` | linux_net/plugins/schedulers/greedy/__init__.py:22-48 | a family of inputs on which least-load, and one on which greedy, uses two nodes although one would do |
| `Placement.BatchOfOneIsBest` | linux_net/plugins/schedulers/least_load/__init__.py:20-23 | a batch of one host goes to a node if and only if that node beats all others under count, remaining capacity and hostname |
| `Schedulers.LeastLoadNodeSelect` | linux_net/plugins/schedulers/least_load/__init__.py:26-51 | raises if and only if no node has room, and otherwise returns the unique best node: least count, then most capacity left, then smallest hostname |
| `Schedulers.LeastLoadBatch` | linux_net/plugins/schedulers/least_load/__init__.py:67-123 | the nested level loops place each host where filling the ranked nodes does; raises exactly when total room is short |
| `Schedulers.BatchAgreesWithSingle` | linux_net/plugins/schedulers/least_load/__init__.py:14-123 | a batch of one and the single choice agree |
| `Schedulers.GreedyBatch` | linux_net/plugins/schedulers/greedy/__init__.py:22-48 | one node per host, as filling the ranked nodes does; raises exactly when total room, over-full nodes included, is short |
| `Schedulers.GreedySaturates` | linux_net/plugins/schedulers/greedy/__init__.py:35-48 | every used node but the last in sort order is full |
| `RandomSchedulers.DrawLevel` | linux_net/plugins/schedulers/least_load_random/__init__.py:92-114 | for all draws the loop ends, never draws from an empty list, gives each host the node its draw falls on, dropping full ones, and fills the offered nodes within their room |
| `RandomSchedulers.LeastLoadRandomBatch` | linux_net/plugins/schedulers/least_load_random/__init__.py:59-116 | for all draws a non-null prefix followed by nulls; only nodes are used of which no node with room and the same count has more capacity left, none beyond its room; a higher count only when all such nodes with a lower one are full; a host is left out only when all such nodes are full |
| `RandomSchedulers.OfferExactly` | linux_net/plugins/schedulers/least_load_random/__init__.py:83-90 | a level offers exactly its nodes with most capacity left |
| `RandomSchedulers.LoadWeightedRandomBatch` | linux_net/plugins/schedulers/load_weighted_random/__init__.py:68-104 | once the capacity check passes both raises inside the loop are unreachable, every host gets a node, and each node's uses and final remaining add up to its room, over-full nodes included; every choice falls on the node its draw hits among those with room left, weighted by the square of that room plus one with the noise drawn |
| `RandomSchedulers.WeightRange` | linux_net/plugins/schedulers/load_weighted_random/__init__.py:85-86 | a weight is the square of its base give or take 5%, from one end to the other as drawn |
| `RandomSchedulers.SelectWeighted` | linux_net/plugins/schedulers/load_weighted_random/__init__.py:88-96 | with exact weights and any draw in range the candidate is the first whose running sum reaches the draw |
| `VaultCache.StepKeepsInv` | linux_net/plugins/credentials/vault_kv/__init__.py:191-257 | every step of every call, and time, keeps all cached secrets and secrets in transit within their bounds |
| `VaultCache.AlwaysFreshExactly` | linux_net/plugins/credentials/vault_kv/__init__.py:191-257 | every reply of every run is what Vault held for that reference less than cache_ttl + 10 seconds, plus twice the time in transit, ago (only the time in transit if the cache is off), if and only if the cache is off or no references to different secrets share a Redis key |
| `VaultCache.ReplyIsRecent` | linux_net/plugins/credentials/vault_kv/__init__.py:117-257 | every reply of such a run has the data Vault held for exactly the namespace, mount, path and version asked for, less than cache_ttl + 10 seconds, plus twice the time in transit, before |
| `VaultCache.LocationExactly` | linux_net/plugins/credentials/vault_kv/__init__.py:219-223 | Vault is asked the same for two references if and only if mount, path and version agree and the namespaces do, absent and empty counting as one |
| `VaultCache.BoundIsTight` | linux_net/plugins/credentials/vault_kv/__init__.py:117-257 | some run returns a secret as close to that age as one likes |
| `VaultCache.KeysOfColonFree` | linux_net/plugins/credentials/vault_kv/__init__.py:202-204 | among colon-free references keys agree exactly when everything agrees but the spelling of the default namespace |
| `VaultCache.ColonFreeKeysApart` | linux_net/plugins/credentials/vault_kv/__init__.py:202-204 | colon-free references whose namespace is not spelled "default" have distinct keys unless they are to the same secret |
| `VaultCache.KeysCollide` | linux_net/plugins/credentials/vault_kv/__init__.py:202-204 | colons, or the namespace "default", make references to different secrets share a key |
| `VaultCache.UninterruptedCall` | linux_net/plugins/credentials/vault_kv/__init__.py:191-257 | the steps of one call back to back give the reply and leave the caches exactly as the code does: a live entry of its own, a live shared one, Vault's answer or nothing |
| `VaultProvider.Process.ReadSecret` | linux_net/plugins/credentials/vault_kv/__init__.py:191-257 | the reply is the first level's live entry, else the second's, else Vault's; in each case exactly what both caches hold afterwards and until when |
| `FileTransfer.CopyChunks` | linux_net/plugins/drivers/paramiko/__init__.py:1442-1451 | at every point, failures and partial writes included, the target is its base followed by a contiguous part of the source; complete for every chunk size but zero |
| `FileTransfer.Upload` | linux_net/plugins/drivers/paramiko/__init__.py:1398-1472 | content, counter and flags of every outcome of an upload, a failing stat included; the counter is the local size plus, unless resuming or the stat failed, the old remote size |
| `FileTransfer.Download` | linux_net/plugins/drivers/paramiko/__init__.py:1550-1608 | content, counter and flags of every outcome of a download; the counter is always the remote size |
| `FileTransfer.LandedExactly` | linux_net/plugins/drivers/paramiko/__init__.py:1424-1451 | a completed copy is exact if and only if it starts afresh or the file was absent or a beginning of the source |
| `FileTransfer.ResumeAfterInterruptions` | linux_net/plugins/drivers/paramiko/__init__.py:1424-1472 | after any number of interrupted calls, resuming or not, a resuming one that completes is exact if and only if the first of them found no file or a beginning of the source, or one in between began afresh and opened the file |
| `FileTransfer.FreshStartLeavesBeginning` | linux_net/plugins/drivers/paramiko/__init__.py:1439-1451 | an interrupted call that does not resume leaves a beginning of the source once it has opened the file |
| `FileTransfer.ResumeOverOtherFile` | linux_net/plugins/drivers/paramiko/__init__.py:1424-1440 | an input for which interruption before opening, then resuming, gives a wrong file of the right size |
| `RemoteTree.SeenExactly` | linux_net/plugins/drivers/paramiko/__init__.py:1503-1528 | the tree the call walks is the tree on the server if and only if every path with a backslash leads to the same thing with a slash instead |
| `RemoteTree.SeenIfClean` | linux_net/plugins/drivers/paramiko/__init__.py:1503-1528 | where no such slashed path meets anything, if and only if no entry has a backslash in its path |
| `RemoteTree.OnlyFilesUnlessRecursive` | linux_net/plugins/drivers/paramiko/__init__.py:1493-1510 | without the recursive flag only a file can be walked |
| `RemoteTree.BackslashNotFound` | linux_net/plugins/drivers/paramiko/__init__.py:1504-1506 | for every name with a backslash, a server on which the call does not find the file |
| `RemoteTree.BackslashFindsOther` | linux_net/plugins/drivers/paramiko/__init__.py:1504-1506 | a family of servers on which another file's content arrives under the name |
| `RecursiveDownload.DownloadTree` | linux_net/plugins/drivers/paramiko/__init__.py:1493-1545 | whatever happens nothing outside the local place changes; if there is no tree to walk, a call that does not resume raises; if there is one and it does not clash in kind, every file of it lands and the reported total is the sum of their sizes; without failures the call returns |
| `RecursiveDownload.HoldsExactly` | linux_net/plugins/drivers/paramiko/__init__.py:1503-1528 | a tree placed at p holds a file or a directory at a path if and only if the names after p lead to it in the tree |
| `RecursiveDownload.VolumeAdds` | linux_net/plugins/drivers/paramiko/__init__.py:1524-1545 | the reported total is the sum of the sizes of the files |
| `RecursiveDownload.CleanTreeIsWalked` | linux_net/plugins/drivers/paramiko/__init__.py:1503-1528 | a tree without a backslash in any path is walked as it is on the server |
| `RecursiveDownload.FreshOverlay` | linux_net/plugins/drivers/paramiko/__init__.py:1503-1535 | without resuming the disk afterwards is exactly the remote tree over what was there |
| `RecursiveDownload.ResumedOverlay` | linux_net/plugins/drivers/paramiko/__init__.py:1569-1594 | with resuming, exactly when every local file in its place is a beginning of the remote one |
| `AgentJson.JsonEscape` | linux_net_agent/src/main.cpp:41-70 | the loop computes the escaped string |
| `AgentJson.JsonStringField` | linux_net_agent/src/main.cpp:101-139 | the search and the character loop read the field as specified, or nothing |
| `AgentJson.JsonUintField` | linux_net_agent/src/main.cpp:141-164 | absent, a number, or out of range above 64 bits |
| `AgentJson.JsonBoolField` | linux_net_agent/src/main.cpp:166-181 | true exactly when the value begins with the text true |
| `AgentRoundTrip.UintAfterBlanks` | linux_net_agent/src/main.cpp:151-163 | a number is read after any of the six white space characters, out of range above 2^64 - 1, and any other character in front hides it |
| `AgentRoundTrip.BoolAfterBlanks` | linux_net_agent/src/main.cpp:176-180 | a flag is true if and only if the text after any white space begins with the four letters true |
| `AgentRoundTrip.ReadsForeignText` | linux_net_agent/src/main.cpp:115-138 | the inside of any JSON string without \u escapes, whoever wrote it, is read to its end, and as section 7 of RFC 8259 means it if and only if it has no escaped backspace, form feed or carriage return |
| `AgentRoundTrip.EscapeRead` | linux_net_agent/src/main.cpp:118-128 | an escaped n or t is newline or tab, any other escaped character itself |
| `AgentRoundTrip.MissingIsNothing` | linux_net_agent/src/main.cpp:101-181 | a key that is not in the text reads as no text, no number and false |
| `AgentRoundTrip.ResultText` | linux_net_agent/src/main.cpp:213-220 | the printed text of a result, character by character |
| `AgentRoundTrip.EscapeConforms` | linux_net_agent/src/main.cpp:41-70 | escaped text is always the inside of a JSON string, section 7 of RFC 8259, and a conforming reader gets back all but the control characters written as spaces |
| `AgentRoundTrip.ReadEscaped` | linux_net_agent/src/main.cpp:115-138 | the agent's reader gets back every escaped string up to the loss of carriage returns and other control characters, whatever follows |
| `AgentRoundTrip.SurvivesExactly` | linux_net_agent/src/main.cpp:41-138 | a string survives if and only if newline and tab are its only control characters |
| `AgentRoundTrip.StderrColon` | linux_net_agent/src/main.cpp:101-110 | whatever stdout holds, looking for "stderr" leads to the colon of the real key |
| `AgentRoundTrip.ResultReadsBack` | linux_net_agent/src/main.cpp:213-220 | every field of every printed result reads back: numbers unless negative, the flag, and both texts exactly when newline and tab are their only control characters |
| `Webhook.FirstDelivery` | linux_net/services/rpc.py:395-435 | a failed first delivery queues at most one retry, with the first interval or ten seconds |
| `Webhook.Redeliver` | linux_net/services/rpc.py:337-392 | a failed redelivery queues the next attempt with its interval, ends, or raises on an empty interval list |
| `Webhook.Chain` | linux_net/services/rpc.py:337-435 | the chain stops at the first success and otherwise makes exactly the limit of tries, with the promised waits and never more than one redelivery pending |
| `Webhook.LimitExactly` | linux_net/services/rpc.py:360-390 | the limit is max_retries + 1 if and only if there is an interval or at most one retry |
| `ConfigPush.Send` | linux_net/plugins/drivers/netmiko/__init__.py:390-485 | one result per command in order, clean up to the first failure and skipped after it; the device received exactly the commands up to that failure |
| `ConfigPush.Config` | linux_net/plugins/drivers/netmiko/__init__.py:390-515 | saving happens if and only if it is on and every command was accepted and the steps before it did not raise; what is saved is the whole list; an exception outside the loop leaves one joined result |
| `ConfigPush.ReachedExactly` | linux_net/plugins/drivers/netmiko/__init__.py:390-485 | the device received all commands before the first that was not accepted, and that one too unless writing it raised |
| `ConfigPush.AllCleanExactly` | linux_net/plugins/drivers/netmiko/__init__.py:492-493 | all statuses are zero if and only if no command failed |
| `Archiver.Collection.Write` | linux_net/worker/archiver.py:30-37 | one write adds the record and removes as many of the oldest as overage and batch allow |
| `Archiver.ExcessAfterWrite` | linux_net/worker/archiver.py:93-118 | the excess after a write, exactly |
| `Archiver.ExcessShrinks` | linux_net/worker/archiver.py:93-124 | over every run the excess after k writes is at most the larger of zero and B - k (batch - 1), plus one batch per failed pruning |
| `Archiver.CapHolds` | linux_net/worker/archiver.py:93-124 | a collection at or under its cap stays so |
| `Archiver.SurvivorsAreNewest` | linux_net/worker/archiver.py:112-118 | over every run of writes in time order no surviving record is older than one that is gone |

## Left out

- Redis, RQ, MongoDB, Vault, SFTP, Netmiko and process start-up appear only as maps, queues, byte sequences or arbitrary replies.
- Worker deaths written to RQ and shutdown commands sent to pinned workers: they do not touch the two hashes.
- Orphaned children of a crashed node, and whether a tracked child is still alive: a child can exit before its pid is recorded.
- Liveness from heartbeats is an input, constant during one dispatch call; other controllers and nodes do not act during that call.
- Nodes with equal hostnames: the controller builds its list from a hash keyed by hostname, so the schedulers require distinct names.
- The single choices of the greedy and the two random schedulers: a first element or a random element of a filtered list.
- Floating-point rounding in the weighted scheduler: weights and draws are reals, so the running sum and the total agree.
- Least-load and greedy sort with the library's sort; the model uses an insertion sort on values instead of sorting in place.
- NodeWorker.Worker.Add: covers an add that is not interrupted; crashes, abandoned jobs and interleavings are covered by the state machine, whose actions it is proved to perform.
- BulkDispatch.DispatchBulk: the FIFO strategy and the metadata of jobs are not modelled; when only the reply of the final pipeline is lost, its jobs may run although they are reported as failed.
- VaultCache.AlwaysFreshExactly: all processes read one Vault, one Redis and one clock; a reply of Redis or Vault is used within the time in transit.
- Configuration, allowed paths, authentication and field mapping of the Vault provider.
- Dispatch.Controller.GetAssigned: an empty host list, for which the source sends a query without fields and raises, gives an empty answer here.
- Recursive upload walks the local tree with the library and calls the single-file upload, turning backslashes of remote paths into slashes too; permissions set after an upload are not modelled.
- RecursiveDownload.DownloadTree: the mode "hash" is modelled for single files only, and the counts of transferred and skipped entries are left out.
- The digests compared in mode "hash" are an input; that equal digests mean equal files is not assumed.
- Processes, epoll, HTTP and `/proc` reading of the agent, and its other JSON documents.
- Detached tasks, their registry and log offsets: several writers race and status is not monotone.
- Regular expressions, prompts and output cleaning of the configuration push are part of each command's reply.
- Indexes and retention by age in the archiver; document counts are exact instead of estimated.
