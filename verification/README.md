# Durable agent runtime: a verified model

This project models the parts of a durable agent runtime whose job is to carry
state across crashes, interleavings and resumptions, and proves what they are
for. Each component is a small group of modules; they share only `Text`.

| files | component |
|---|---|
| `GraphModel`, `JsonText`, `GraphShape`, `GraphOnce`, `GraphResume`, `GraphTheorems`, `GraphInterpreter`, `GraphCounterexamples` | the journalled step-graph interpreter and its continue-as-new workflow |
| `Receipts`, `Broker` | effect receipts and the broker's claim protocol under interleaving and crashes |
| `Leases`, `Fencing` | the two lease stores and fenced agent writes |
| `ParkBackoff`, `AgentLoop` | the durable agent loop: mailbox, turns, parks, cancel |
| `Paths`, `FileTree`, `Overlay`, `Workspace`, `Symlinks`, `TextReplace` | the overlay workspace, its executor, the link walk and the text edit |
| `Events`, `Mailbox` | acknowledged delivery: safe pruning of the event log, and mailbox consumers |
| `Retention`, `Frames` | provenance walk and blob sweep; the chunked frame reader |

How the model is built:

- A graph run is specified by the list of node completions it makes (`Exec`). A
  run cut off at a node boundary has made a prefix of that list, and a chain of
  continue-as-new runs is a list of cut points. Handlers are an answer stream:
  the k-th call to return gets the k-th answer, or throws. The class
  `Interpreter` mutates a scope as the source does and is proved to make exactly
  those completions, up to the point where its node hook unwinds it.
- Protocols (broker, database statements, agent loop, event pruning, mailbox
  consumers) are step functions over a system state, and the main results
  quantify over every list of steps. One SQL statement is one step; the clock a
  statement sees is a parameter.
- Where the source updates fields in place there is a class whose methods are
  tied to the same functions the theorems are about.
- Values that come from outside (clocks, executor answers, chunk boundaries,
  signals, crashes) are parameters of the runs.

Where the code falls short of what is said about it, the code is modelled as it
is:

- A loop cut right after its last permitted iteration, with `until` still false,
  resumes with an undefined value instead of the last body value
  (`integrations/temporal/src/graph.ts:157-166`). For graphs with unique ids whose
  conditions do not read their own work in progress, this is the only way a chain
  of resumed runs differs from the uncut run: `CutKeepsEverything` for one cut,
  `ExactResume` for any number. Without those two hypotheses there are others,
  which `GraphCounterexamples` shows.
- `pruneEventsSafe` is documented as never removing an unacked event
  (`src/durability/types.ts:81`). A consumer that registers between its two
  statements loses events: `LateConsumerRun` is a run that does, and
  `SafeIffRegisteredAtRead` gives the exact condition.
- A path that goes through one link twice is refused as a cycle although it is
  none (`src/workspace/symlink-target.ts:63-64`, `99`): `SecondVisitRefused` shows
  such targets, and `LimitsOnlyRefuse` exactly which walks the limits refuse.
- Replacement text passes through `String.replace`, so `$$`, `$&`, `` $` `` and
  `$'` in it are patterns (`src/execution/text-replace.ts:92`):
  `InsertedAsWritten` shows when text is inserted as written, and
  `PatternChangesEdit` an edit that goes wrong for every text with a pattern.
- The park backoff is capped at the larger of the two bounds, not at `maxMs` as
  its comment says (`integrations/temporal/src/correlation.ts:191-207`).
  `PassesMaxMs` is an override that parks ten times longer than its `maxMs`;
  `CappedAtMaxMs` shows that the documented cap holds exactly when the initial
  wait does not pass it.
- A repeated `releaseLease` answers true in the table and false in memory
  (`SecondReleaseDiffers`); `StoresBisimilar` shows that over whole runs this is
  the only difference between the answers of the two stores.

## Model

| member | source | states |
|---|---|---|
| `GraphTheorems.ResumeEquivalence` | integrations/temporal/src/graph.ts:99-169 | for every graph with unique ids whose conditions read neither their own work in progress nor a value that comes out of a loop, every answer stream and every list of cuts, the cut-and-resumed chain makes the same completions in the same order as one uncut run: same handler calls and results, journal, completed list, and every result that does not come out of a loop |
| `GraphTheorems.ExactResume` | integrations/temporal/src/graph.ts:99-169 | for every list of cuts, the chain agrees with the uncut run in all results, composite ones and the graph's own value included, if and only if no cut falls between a loop's last permitted iteration and its own completion with a value to lose; then the scopes left are equal too |
| `GraphTheorems.CutKeepsEverything` | integrations/temporal/src/graph.ts:148-167 | a run resumed after n completions finishes exactly as the uncut one if and only if the next completion is not an exhausted loop with a value to lose |
| `GraphResume.ResumeExec` | integrations/temporal/src/graph.ts:99-117 | one cut of one node, at any completion of its subtree: re-executing it from the journalled scope makes exactly the remaining completions and the same value |
| `GraphResume.ResumeLoop` | integrations/temporal/src/graph.ts:148-167 | the same for a loop, whose first unjournalled iteration and `until` are recomputed on resume |
| `GraphResume.ExecAgrees` | integrations/temporal/src/graph.ts:82-117 | executions from two scopes that agree outside a closed set of ids make agreeing completions |
| `GraphOnce.OccurrencesDistinct` | integrations/temporal/src/graph.ts:131-161 | all occurrence keys of a graph are different, whatever characters its ids hold and even when ids repeat |
| `GraphOnce.AtMostOncePerOccurrence` | integrations/temporal/src/graph.ts:108-116 | over any chain of runs of any graph no occurrence completes twice, and every completion is one of the graph's occurrences |
| `GraphOnce.CompletionsBounded` | integrations/temporal/src/graph.ts:108-169 | the completions of any chain number at most the static occurrence count |
| `GraphOnce.CutRunJournal` | integrations/temporal/src/graph-workflow.ts:88-102 | a run cut after n completions adds exactly n new keys to the journal |
| `GraphOnce.ContinueAsNewTerminates` | integrations/temporal/src/graph-workflow.ts:88-110 | m runs that all continue-as-new satisfy m times the threshold <= the occurrence count, so the number of runs is bounded |
| `GraphShape.ExecShape` | integrations/temporal/src/graph.ts:99-117 | completions are new keys under the node's path, with ids of its subtree, and the node's own completion comes last |
| `GraphShape.ExecRecords` | integrations/temporal/src/graph.ts:108-116 | a node that returned is journalled |
| `GraphShape.KidsRecord` | integrations/temporal/src/graph.ts:127-140 | a sequence or fan-out that returned has completed every child, with one value for each |
| `GraphShape.LoopRecords` | integrations/temporal/src/graph.ts:157-167 | a loop that returned stopped because `until` holds on the results it leaves, or completed every permitted iteration |
| `GraphValues.ResolveMember` | integrations/temporal/src/graph.ts:75-82 | a path without a dot reads a node's result, and every further segment reads one member deeper, for all paths and keys |
| `GraphValues.ObjectMember` | integrations/temporal/src/graph.ts:78-79 | a member of an object is its field's value, undefined when there is none |
| `GraphValues.ArrayMember` | integrations/temporal/src/graph.ts:78-79 | a member of an array is the item at that decimal index, or its length |
| `GraphValues.NoMember` | integrations/temporal/src/graph.ts:78 | nothing else has members |
| `JsonText.StringifyUnique` | integrations/temporal/src/graph.ts:84-86 | two values print the same JSON text if and only if what they keep when printed is equal: the printer, escapes and all, is injective |
| `JsonText.MatchesIsSameText` | integrations/temporal/src/graph.ts:84-86 | a condition holds if and only if the value at its path and the one it names print the same text |
| `GraphInterpreter.Interpreter.ExecuteGraph` | integrations/temporal/src/graph.ts:99-117 | the mutating interpreter makes the specified completions, or the prefix the node hook allowed, and leaves the scope they build |
| `GraphInterpreter.Interpreter.RunOneStep` | integrations/temporal/src/graph.ts:119-169 | the same for one node's own work, in all five kinds of node; what its conditions read and compare is pinned by `ResolveMember` and `MatchesIsSameText` |
| `GraphInterpreter.Interpreter.RunChildren` | integrations/temporal/src/graph.ts:127-140 | children run in order; the values collected are those of the completed children |
| `GraphInterpreter.Interpreter.RunIterations` | integrations/temporal/src/graph.ts:148-156 | resumes at the first iteration the journal does not hold, after re-testing `until` |
| `GraphInterpreter.Interpreter.Iterate` | integrations/temporal/src/graph.ts:157-167 | iterates to the bound or until the condition holds |
| `GraphInterpreter.Interpreter.OnNode` | integrations/temporal/src/graph-workflow.ts:96-103 | unwinds at the first of the cancel and the node budget, and for the right reason |
| `GraphInterpreter.RunGraphWorkflow` | integrations/temporal/src/graph-workflow.ts:77-118 | a run continues-as-new exactly when it makes the threshold number of new completions before a cancel is seen, and carries the scope they leave; otherwise it ends cancelled, completed or failed with all its completions recorded |
| `GraphCounterexamples.NeedsUniqueIds` | integrations/temporal/src/graph.ts:108-112 | with a repeated id, a resumed fan-out returns its namesake's value |
| `GraphCounterexamples.NeedsConditionOutsideBranch` | integrations/temporal/src/graph.ts:141-147 | a branch whose condition reads its own subtree takes the other arm on resume |
| `GraphCounterexamples.SelfReadingBranchShape` | integrations/temporal/src/graph.ts:141-147 | that branch breaks no other hypothesis |
| `GraphCounterexamples.NeedsUntilOutsideBody` | integrations/temporal/src/graph.ts:152-156 | a loop whose `until` reads inside its body ends too early on resume |
| `GraphCounterexamples.SelfReadingLoopShape` | integrations/temporal/src/graph.ts:148-167 | that loop breaks no other hypothesis |
| `GraphCounterexamples.NeedsConditionsOffLoopValues` | integrations/temporal/src/graph.ts:157-166 | a branch that reads a loop's value goes the other way after a cut at the loop's end |
| `GraphCounterexamples.LoopReaderShape` | integrations/temporal/src/graph.ts:141-167 | that graph breaks no other hypothesis |
| `Broker.EffectSafety` | src/execution/broker.ts:32-127 | over every interleaving of any workers, with crashes and throwing calls anywhere: no effect is claimed twice, only its claimant works on it, no candidate of an effect is served twice, all answers but the uncertain one are equal, and an answered effect's receipt is committed for a success and failed otherwise |
| `Broker.ClaimIsForever` | src/execution/broker.ts:52-62 | from any reachable state and for every run after it, a claimed effect stays claimed by the same worker, and once that worker is out of the candidate loop nothing is ever executed for the effect again |
| `Broker.NeverRunAgain` | src/execution/broker.ts:112-126 | whatever interleaving led to a crash or throw of an effect's claimant, no interleaving after it executes any candidate for that effect |
| `Broker.StepInv` | src/execution/broker.ts:32-127 | every step keeps: a receipt exists exactly for claimed effects, its owner is a call on it past the claim, it stays started while its claimant works, and a call that answered answered what the receipt replays |
| `Broker.ServeCandidates` | src/execution/broker.ts:79-89 | the first candidate that does not pass settles the effect; without one, the last escalation or the refusal does |
| `Broker.TurnsSettle` | src/execution/broker.ts:79-89 | the interleaved protocol's turns settle an effect exactly as the loop does |
| `Broker.ExecuteEffect` | src/execution/broker.ts:32-127 | one uninterrupted call: a receipt is replayed and nothing runs; otherwise the candidates settle it and its receipt, committed or failed as the result says, replays the answer given, or says uncertain when an executor threw |
| `Broker.CandidateOrder` | src/execution/broker.ts:67-77 | candidates are exactly the executors at or above the floor whose class, if any, is allowed; the preferred class comes first, and within each group fidelity never falls |
| `Broker.CandidateTimes` | src/execution/broker.ts:70-72 | every eligible executor is a candidate exactly as often as it was registered, and no other is one |
| `Broker.CandidatesStable` | src/execution/broker.ts:70-77 | executors of the same preference and fidelity are tried in registration order |
| `Receipts.ReplaceNeverMovesDown` | src/durability/runtime-state.ts:99-104 | a receipt may be replaced if and only if its status does not move down started < failed < committed |
| `Receipts.StatusIsHighest` | src/durability/local-runtime-state.ts:59-62 | after any writes a receipt's status is the highest one written |
| `Receipts.LastHighestWins` | integrations/temporal/src/receipt-store.ts:81-90 | what a read returns after any writes: the last write of the id among those of its highest status, or what was there when no write reached it |
| `Receipts.StatusNeverDrops` | integrations/temporal/src/receipt-store.ts:81-98 | over any mixture of writes and claims no receipt disappears and no status moves down |
| `Receipts.ReorderedWritesAgree` | src/durability/runtime-state.ts:87-104 | any reordering of the same writes ends at the same status |
| `Receipts.SeedRestores` | integrations/temporal/src/receipt-store.ts:44-47 | seeding an attempt from written details restores the receipts, in order |
| `Receipts.RetriesAreInvisible` | integrations/temporal/src/receipt-store.ts:44-98 | any number of attempts, each mixing writes and claims and seeded from the last, leaves the receipts of one attempt making all the requests |
| `Receipts.ActivityStore.constructor` | integrations/temporal/src/receipt-store.ts:44-56 | a new attempt holds what the previous one had recorded |
| `Receipts.ActivityStore.Heartbeat` | integrations/temporal/src/receipt-store.ts:72-79 | the recorded details then equal the receipts |
| `Receipts.ActivityStore.PutEffect` | integrations/temporal/src/receipt-store.ts:81-85 | applies the write unless it moves a status down, and keeps the recorded details equal to the receipts |
| `Receipts.ActivityStore.GetEffect` | integrations/temporal/src/receipt-store.ts:87-90 | the one receipt held for the id, and none exactly when none is held |
| `Receipts.ActivityStore.ClaimEffect` | integrations/temporal/src/receipt-store.ts:92-98 | claims exactly when there is no receipt, and otherwise returns the one there is and changes nothing |
| `Leases.StoresBisimilar` | src/control-plane/lease.ts:35-71 | on every run with the same nondecreasing clock the memory store and the table give every acquire, renew and validate the same answer, record and token; any answer differs if and only if the operation releases a lease memory has let go while its row still carries the caller's token |
| `Leases.StepsAgree` | src/postgres/distributed-state.ts:21-96 | one operation keeps the stores similar, and its answers are equal if and only if it is not a repeated release |
| `Leases.SecondReleaseDiffers` | src/control-plane/lease.ts:55-60 | acquire, release, release from the empty stores: the table answers the third with true, memory with false |
| `Leases.AcquireGrants` | src/postgres/distributed-state.ts:21-44 | an acquire is granted if and only if nobody holds the resource; the lease then validates at exactly the clocks before `now + ttl`, under a higher token; refused, it names the holder |
| `Leases.RenewExtends` | src/postgres/distributed-state.ts:46-61 | a renewal is granted if and only if the lease still validates, and then it does at exactly the clocks before `now + ttl` |
| `Leases.ReleaseEnds` | src/postgres/distributed-state.ts:63-75 | a release by the row's owner and token leaves nobody holding the resource; any other changes nothing |
| `Leases.HeldToExpiry` | src/postgres/distributed-state.ts:21-96 | over every run before its expiry in which its holder neither releases nor renews it, a lease validates throughout and every acquire of the resource is refused in its name |
| `Leases.LeaseTable.AcquireLease` | src/postgres/distributed-state.ts:21-44 | the statement's new row, token and answer |
| `Leases.LeaseTable.RenewLease` | src/postgres/distributed-state.ts:46-61 | extends only an unexpired lease of that owner and token |
| `Leases.LeaseTable.ReleaseLease` | src/postgres/distributed-state.ts:63-75 | expires the matching row and keeps its token |
| `Leases.LeaseTable.ValidateLease` | src/postgres/distributed-state.ts:85-96 | answers the row only while it is unexpired and matches |
| `Leases.InMemoryLeaseStore.AcquireLease` | src/control-plane/lease.ts:35-44 | as the table, with tokens kept apart from leases |
| `Leases.InMemoryLeaseStore.RenewLease` | src/control-plane/lease.ts:46-53 | extends only an unexpired lease of that owner and token |
| `Leases.InMemoryLeaseStore.ReleaseLease` | src/control-plane/lease.ts:55-60 | deletes the matching lease and keeps its token |
| `Leases.InMemoryLeaseStore.ValidateLease` | src/control-plane/lease.ts:67-71 | answers the lease only while it is unexpired and matches |
| `Fencing.FencingSafety` | src/postgres/persistence.ts:29-70 | over every run of lease and agent statements: each token of a resource is granted once; an agent's accepted writes carry nondecreasing tokens, fenced ones at least 1; an unfenced write is accepted only if every earlier one was unfenced, a fenced one only if none earlier carried a higher token; an agent's token never passes its lease's; a fenced write is accepted if and only if its lease guard holds |
| `Fencing.RowIsNewestWrite` | src/postgres/persistence.ts:29-70 | after every run an agent's row is its newest accepted write, body and token; a create is accepted if and only if no write was, an unfenced write if and only if all were unfenced |
| `Fencing.FenceNeverStale` | src/postgres/persistence.ts:63-66 | the row's own token guard never rejects a write whose lease guard holds |
| `Fencing.OneValidHolder` | src/postgres/distributed-state.ts:21-96 | at the end of every run, whoever validates on a resource holds its newest grant, so at most one owner and token do |
| `Fencing.SpentForever` | src/postgres/distributed-state.ts:21-96 | a token already reached that is not valid is never valid again, for every later run and clock |
| `Fencing.AgentTable.Create` | src/postgres/persistence.ts:29-37 | inserts only an absent agent, unfenced |
| `Fencing.AgentTable.Put` | src/postgres/persistence.ts:39-48 | writes only while the row is unfenced |
| `Fencing.AgentTable.PutFenced` | src/postgres/persistence.ts:50-70 | writes exactly when resource, lease and token guards hold |
| `AgentLoop.MailboxConservation` | integrations/temporal/src/workflows.ts:48-121 | in every interleaving, committed messages followed by the mailbox are the initial mailbox followed by all signals in order; every turn starts at the first uncommitted message; a parked batch is a prefix of the next |
| `AgentLoop.NoSpin` | integrations/temporal/src/workflows.ts:72-166 | turns started <= messages + parks + 1, and every park waits a positive, bounded time |
| `AgentLoop.BlocksOnlyWhenEmpty` | integrations/temporal/src/workflows.ts:72-80 | the workflow stays at its wait if and only if nothing is pending; a message arriving there is in the next turn, behind everything uncommitted |
| `AgentLoop.CancelStopsTurns` | integrations/temporal/src/workflows.ts:53-77 | after a cancel no turn starts, whatever else happens |
| `AgentLoop.CancelIsPrompt` | integrations/temporal/src/workflows.ts:76-172 | after a cancel the next resumption ends the workflow as cancelled |
| `AgentLoop.FinalStatus` | integrations/temporal/src/workflows.ts:72-178 | over every event list: an ended workflow is cancelled if and only if a cancel arrived before its end, else failed if and only if its last turn failed permanently, else completed because a turn said so; it shows running in a turn and waiting while parked |
| `AgentLoop.ParksFor` | integrations/temporal/src/workflows.ts:97-166 | over every event list, a turn that defers or fails for now keeps the mailbox and parks for exactly the usable hint, else for the backoff of one more than the unhinted parks since the last turn that did not park |
| `AgentLoop.AttemptsCounted` | integrations/temporal/src/workflows.ts:44-46 | the park attempt is the number of unhinted parks since the last turn that did not park |
| `AgentLoop.StepInv` | integrations/temporal/src/workflows.ts:48-172 | every signal, turn outcome and timer keeps the conservation, batch and progress facts |
| `AgentLoop.AgentWorkflow.OnMessage` | integrations/temporal/src/workflows.ts:48-52 | appends and wakes |
| `AgentLoop.AgentWorkflow.OnCancel` | integrations/temporal/src/workflows.ts:53-56 | marks and wakes |
| `AgentLoop.AgentWorkflow.NextIteration` | integrations/temporal/src/workflows.ts:72-76 | the loop guard, and what follows the loop |
| `AgentLoop.AgentWorkflow.Resume` | integrations/temporal/src/workflows.ts:76-93 | starts a turn with the whole mailbox, waits again, or ends |
| `AgentLoop.AgentWorkflow.ParkFor` | integrations/temporal/src/workflows.ts:105-110 | waits out the backoff unless a cancel is already there |
| `AgentLoop.AgentWorkflow.TurnDone` | integrations/temporal/src/workflows.ts:94-121 | commits exactly the batch on idle, parks on waiting, ends on completed |
| `AgentLoop.AgentWorkflow.TurnThrew` | integrations/temporal/src/workflows.ts:122-166 | fails on a permanent error, else parks for the hint or the backoff; `FinalStatus` and `ParksFor` say what that leaves |
| `AgentLoop.AgentWorkflow.ParkOver` | integrations/temporal/src/workflows.ts:164-172 | returns to the loop guard |
| `ParkBackoff.BackoffBounds` | integrations/temporal/src/correlation.ts:191-207 | whatever the override holds, a backoff is positive, at least the initial wait, at most the larger bound, and never shorter for a later attempt |
| `ParkBackoff.DoublesToCap` | integrations/temporal/src/correlation.ts:196-207 | the first park waits the initial time, each later one twice the one before, up to the cap |
| `ParkBackoff.CappedAtMaxMs` | integrations/temporal/src/correlation.ts:191-207 | for every attempt and override, the documented cap at `maxMs` holds if and only if the initial wait does not pass `maxMs` |
| `ParkBackoff.PassesMaxMs` | integrations/temporal/src/correlation.ts:196-207 | an override of 10 s initial and 1 s maximum parks 10 s on the first attempt |
| `ParkBackoff.ClampHint` | integrations/temporal/src/correlation.ts:177-180 | a hint is used, unchanged, if and only if it is positive and at most one hour |
| `Overlay.OverlayRefinesTree` | src/workspace/memory-workspace.ts:88-211 | from every symlink-free source, every sequence of read, write, replace and delete effects gets the same contents and errors as on a plain file tree |
| `Overlay.ExecRefines` | src/execution/synthetic.ts:33-95 | one effect keeps the overlay well formed and equal, path by path, to the tree, and answers alike |
| `Overlay.WriteNodeAt` | src/workspace/memory-workspace.ts:160-169 | what each path holds after a write |
| `Overlay.DeleteNodeAt` | src/workspace/memory-workspace.ts:189-211 | what each path holds after a delete: nothing in the subtree, all else kept |
| `Overlay.WriteAccounted` | src/workspace/memory-workspace.ts:160-169 | a write keeps: the changed paths are exactly those overlaid or deleted, and none is both |
| `Overlay.DeleteAccounted` | src/workspace/memory-workspace.ts:189-211 | a delete keeps the same |
| `Overlay.UnchangedShowsSource` | src/workspace/memory-workspace.ts:131-144 | where nothing changed at, above or beneath a path, the workspace shows the source |
| `FileTree.WriteFileGet` | src/execution/synthetic.ts:65-72 | what each path of the reference tree holds after a write |
| `FileTree.DoneIff` | src/execution/synthetic.ts:58-95 | when a write, replace or delete is done, told by what a read of its path would answer |
| `FileTree.ReadAfterEffect` | src/execution/synthetic.ts:58-95 | every later read after an effect that is done: the new text at its path, directories above it, nothing readable beneath it, nothing left of what was deleted, and every other path as before |
| `FileTree.RefusedChangesNothing` | src/execution/synthetic.ts:38-95 | an effect that is not done changes nothing |
| `FileTree.TreeExecValid` | src/execution/synthetic.ts:33-95 | effects keep the reference tree prefix-closed, with files only at its leaves |
| `Workspace.MemoryWorkspace.CheckDeleted` | src/workspace/memory-workspace.ts:146-153 | the path or an ancestor was deleted |
| `Workspace.MemoryWorkspace.Stat` | src/workspace/memory-workspace.ts:131-144 | the kind of what the overlay shows at the path |
| `Workspace.MemoryWorkspace.Read` | src/workspace/memory-workspace.ts:88-103 | the contents of what the overlay shows as a file; absent exactly when the path is neither overlaid nor a visible source file |
| `Workspace.MemoryWorkspace.Write` | src/workspace/memory-workspace.ts:160-169 | the new overlay, deletions and implicit directories; the root is refused |
| `Workspace.MemoryWorkspace.DropBelow` | src/workspace/memory-workspace.ts:198-204 | drops exactly the overlaid files beneath the path and marks each deleted and changed |
| `Workspace.MemoryWorkspace.DropDirs` | src/workspace/memory-workspace.ts:205-207 | forgets exactly the implicit directories at and beneath the path |
| `Workspace.MemoryWorkspace.Delete` | src/workspace/memory-workspace.ts:189-211 | drops the overlaid subtree and marks it deleted; the root is refused |
| `Workspace.Execute` | src/execution/synthetic.ts:33-95 | the executor over the mutable workspace answers and changes it as the overlay specification that refines the tree |
| `Paths.NormalizeRelative` | src/workspace/source.ts:27-35 | the joined form of the clamped path, which is clean |
| `Paths.EscapesWorkspace` | src/execution/workspace-errors.ts:19-34 | true exactly when the path is absolute or climbs above the root on its way; otherwise normalizing does not change what it names |
| `Paths.ClampedIsResolved` | src/execution/workspace-errors.ts:13-34 | clamping never changes a path that stays inside |
| `Paths.NormalizeKey` | src/workspace/source.ts:27-35 | normalizing a key gives back its path |
| `Paths.KeyPrefix` | src/workspace/memory-workspace.ts:136-153 | the string test for a key under another is the strict-ancestor test on segments |
| `Paths.KeyInjective` | src/workspace/memory-workspace.ts:74-81 | different paths have different keys in the workspace's maps |
| `Symlinks.ResolveSymlinkTarget` | src/workspace/symlink-target.ts:68-113 | the walk terminates on every link map and ends as specified; where it resolves each link from is pinned by `TargetFromOwnDirectory` |
| `Symlinks.TargetFromOwnDirectory` | src/workspace/symlink-target.ts:39-56 | a target of k `..` and a clean path goes k levels up from the link's own directory and down that path, and leaves the workspace if and only if k is more than its depth |
| `Symlinks.ThroughSubdirectory` | src/workspace/symlink-target.ts:68-113 | a target through a link in a subdirectory ends beside that link |
| `Symlinks.ResolvedTarget` | src/workspace/symlink-target.ts:68-113 | a resolved path has no empty, `.` or `..` component, its only link prefixes are directories above the link, and it has none when the link's parents are link-free |
| `Symlinks.LimitsOnlyRefuse` | src/workspace/symlink-target.ts:76-106 | the walk ends by itself if and only if the unlimited walk ends after at most `maxDepth` links, none twice, and then both end alike |
| `Symlinks.SecondVisitRefused` | src/workspace/symlink-target.ts:68-113 | every relative target `dir/../dir`, where `dir` is a link to a sibling file, is refused as a cycle, although the unlimited walk ends at that file after two links |
| `Symlinks.ReadingDescends` | src/workspace/memory-workspace.ts:94-100 | a resolved path that is itself a link is a proper prefix of the path being read, so reading terminates |
| `Symlinks.PlainRead` | src/workspace/memory-workspace.ts:88-103 | a path that is no link reads exactly the text it holds |
| `Symlinks.LinkRead` | src/workspace/memory-workspace.ts:94-100 | a link that resolves to such a path reads exactly what that path holds |
| `Symlinks.ReadStaysInside` | src/workspace/memory-workspace.ts:88-103 | whatever is read through links is a file of the workspace, at a clean path |
| `TextReplace.ReplaceInText` | src/execution/text-replace.ts:89-98 | exact edit, tolerant edit or refusal with the occurrence count |
| `TextReplace.ExactEdit` | src/execution/text-replace.ts:89-92 | an exact edit happens if and only if the text is not empty and occurs once, counted without overlap; text without `$` patterns then replaces it and everything before and after is kept |
| `TextReplace.OccurrencesIsLargest` | src/execution/text-replace.ts:91 | the count is the largest number of occurrences that do not overlap |
| `TextReplace.InsertedAsWritten` | src/execution/text-replace.ts:92 | text is inserted as written around every match if and only if it holds no `$` pattern |
| `TextReplace.PatternChangesEdit` | src/execution/text-replace.ts:89-92 | for every text with a `$` pattern, an exact edit that does not leave that text in place |
| `TextReplace.TolerantEdit` | src/execution/text-replace.ts:93-97 | a tolerant edit happens if and only if the text occurs nowhere and one block of lines matches up to indentation |
| `TextReplace.EditedLines` | src/execution/text-replace.ts:79-85 | the edited text's lines are the old ones with exactly the block replaced |
| `TextReplace.ReindentKeepsText` | src/execution/text-replace.ts:42-54 | each non-blank replacement line gets the block's indent and keeps its unindented text |
| `TextReplace.ReindentKeepsShape` | src/execution/text-replace.ts:42-54 | the replacement's first text line gets exactly the block's indent, lines indented further keep the difference, others get the block's indent alone |
| `TextReplace.TolerantLines` | src/execution/text-replace.ts:79-85 | line by line: those before and after the block are kept, and the replacement takes the indentation of the block's own first text line |
| `TextReplace.FindBlocks` | src/execution/text-replace.ts:66-76 | exactly the matching start lines, in order |
| `TextReplace.ReplaceIgnoringIndentation` | src/execution/text-replace.ts:60-86 | edits exactly when one block matches, and then makes that edit |
| `Events.AppendedEventKept` | src/postgres/persistence.ts:113-179 | over every interleaving of appends, acks, other consumers and any number of two-statement prunes, an event appended while a consumer is registered stays, with its body, until that consumer acks it or is forgotten |
| `Events.ReadsHaveNoGap` | src/postgres/persistence.ts:120-128 | once a consumer's cursor has reached the log end of its registration, each read after it returns the next events exactly as appended |
| `Events.AckAdvances` | src/postgres/persistence.ts:133-148 | an ack of an event that is there brings the cursor up to it, never beyond what was acked, and touches nothing else |
| `Events.AckedIsPruned` | src/postgres/persistence.ts:176-179 | once every registered consumer has acked up to n, an undisturbed safe prune leaves nothing up to n |
| `Events.LoneConsumerEmptiesLog` | src/postgres/persistence.ts:133-179 | from any reachable state, the only consumer's ack of the last event lets the next safe prune empty the log |
| `Events.RegisteredAtReadIsSafe` | src/postgres/persistence.ts:170-179 | a consumer registered when the watermark was read and not forgotten since loses nothing to the delete, whatever came between |
| `Events.LateConsumerLoses` | src/postgres/persistence.ts:176-179 | one that registers between the two statements loses every event the watermark covers |
| `Events.LateConsumerRun` | src/postgres/persistence.ts:176-179 | a run from empty tables on which a safe prune removes an event a registered consumer has not acked |
| `Events.SafeIffRegisteredAtRead` | src/postgres/persistence.ts:176-179 | where there is something to prune, a consumer is safe under every interleaving if and only if it was registered when the watermark was read |
| `Events.Watermark` | src/postgres/persistence.ts:170-175 | the least ack, or 0 without consumers |
| `Events.EventStore.constructor` | src/postgres/persistence.ts:113-179 | empty tables, well formed |
| `Events.EventStore.AppendEvent` | src/postgres/persistence.ts:113-115 | one row under the next sequence number |
| `Events.EventStore.AckEvent` | src/postgres/persistence.ts:133-148 | the cursor never moves back nor past the last event; an ack of an event that is there brings it at least there; it ends at the number acked, at the last event or where it was |
| `Events.EventStore.ForgetEventConsumer` | src/postgres/persistence.ts:163-169 | removes the cursor and says whether there was one |
| `Events.EventStore.SafeEventWatermark` | src/postgres/persistence.ts:170-175 | answers the watermark |
| `Events.EventStore.PruneEvents` | src/postgres/persistence.ts:129-132 | removes exactly the rows up to the number and counts them |
| `Events.EventStore.PruneEventsSafe` | src/postgres/persistence.ts:176-179 | undisturbed, removes nothing any registered consumer has still to ack, leaves only what some consumer has still to ack, and removes nothing without consumers |
| `Mailbox.AckedOnceInOrder` | src/control-plane/mailbox.ts:34-70 | however sends, crashes and any number of attempts of a consumer interleave, what its acks covered, as the acking attempts had read it, is the mailbox up to the cursor: every distinct message once, in order, without gaps; the mailbox holds each sent id once and nothing else |
| `Mailbox.HandledOnlyGrows` | src/control-plane/mailbox.ts:58-70 | nothing acked is taken back or acked again |
| `Mailbox.UndisturbedAttemptAdvances` | src/control-plane/mailbox.ts:49-70 | an attempt left alone moves the cursor on by its limit, or to the end |
| `Mailbox.AckCovers` | src/control-plane/mailbox.ts:58-70 | an ack from a possibly stale batch newly covers exactly the messages between the old cursor and the new one |
| `Mailbox.CursorKeyInjective` | src/control-plane/mailbox.ts:73 | cursors of different consumers never share a slot when agent ids hold no NUL |
| `Mailbox.InMemoryMailboxStore.AppendMailbox` | src/control-plane/mailbox.ts:34-47 | stored once per message id under the next number; a repeat returns the first envelope and changes nothing |
| `Mailbox.InMemoryMailboxStore.ReadMailbox` | src/control-plane/mailbox.ts:49-51 | the contiguous piece after a number, at most `limit` long |
| `Mailbox.InMemoryMailboxStore.AckMailbox` | src/control-plane/mailbox.ts:58-70 | the cursor never moves back and never past the last message |
| `Retention.WalkProvenance` | src/artifacts/artifact-index.ts:50-73 | terminates on cyclic provenance; reports only reachable digests, each once, and exactly the unrecorded ones as gaps; untruncated, it reports all that is reachable, and intact means all of it is recorded; it reports nothing beyond the depth limit, and truncation only where a chain without repeats is longer than the limit; with a limit of one or more it holds every direct input |
| `Retention.ClosureIsReachable` | src/artifacts/retention.ts:17-29 | the recorded digests and those they name are all that any recorded digest reaches |
| `Retention.ReachableDigests` | src/artifacts/retention.ts:22-29 | for every depth limit of one or more the kept set is the whole transitive closure |
| `Retention.Prune` | src/artifacts/blob-store.ts:173-190 | removes exactly the blobs that are neither kept nor too young, each once, and adds up their sizes |
| `Retention.Sweep` | src/artifacts/retention.ts:40-46 | a blob survives if and only if some recorded artifact reaches it or it is too young |
| `Frames.ReadPrinted` | src/workspace/git-batch.ts:57-89 | for every list of printed replies and every split of the bytes into chunks, the queued reads answer them one for one, newlines in payloads and missing objects included |
| `Frames.FrameRoundTrip` | src/workspace/git-batch.ts:76-89 | one printed reply is read back whole and nothing after it is touched |
| `Frames.PrintedRepliesRead` | src/workspace/git-batch.ts:57-89 | the same for a list of replies followed by anything |
| `Frames.FoundWasFramed` | src/workspace/git-batch.ts:80-88 | conversely, an object is only answered when the stream framed it: header, that many bytes, newline |
| `Frames.CutFrameIsNoticed` | src/workspace/git-batch.ts:80-86 | a stream that ends anywhere inside a reply is reported as ended, never as an object |
| `Frames.ByteReader.More` | src/workspace/git-batch.ts:28-36 | takes in a chunk without changing the bytes still to come; fails exactly at the end of the stream |
| `Frames.ByteReader.Line` | src/workspace/git-batch.ts:9-19 | the bytes up to the stream's next newline, and exactly those and the newline are consumed |
| `Frames.ByteReader.Bytes` | src/workspace/git-batch.ts:21-26 | exactly the next n bytes of the stream |
| `Frames.ByteReader.ReadOne` | src/workspace/git-batch.ts:76-89 | the answer and the bytes left depend on the stream, not on how it was chunked |
| `Frames.ByteReader.ReadChain` | src/workspace/git-batch.ts:57-62 | queued reads run one behind the other, and a failed one does not stop the next |

## Left out

- Concurrent fan-out children: `Promise.all` lets siblings run on while one has thrown; here the children of a fan-out run one at a time in index order, and the at-most-once and resume results are for that order.
- `scope.iteration`, `updatedAt`, `lastResult`, `lastError` and logging: observability only.
- JSON encoding of the carried scope (undefined against null), prototype keys of plain objects, the order JavaScript gives integer-like keys, and numbers that are not integers in conditions.
- Temporal's own replay, retries and heartbeat delivery: the details last written are taken to be the details delivered.
- Broker runs without `claimEffect`, external reconcilers, tracing spans, and the record's `kind`.
- Broker.EffectSafety: the protocol steps run over an abstract atomic store, which both the in-memory and the activity store implement; the SQL of the Postgres receipt table is not modelled.
- Leases.StoresBisimilar: `getLease` is left out, because the stores differ there; the row read back after a refused acquire is taken in the same step.
- Events.AppendedEventKept: sequence numbers become visible in the order they are drawn; the database can commit two appends the other way round.
- The Postgres mailbox, for the same reason: only the in-memory one is modelled.
- `listDir`, `restore`, `fork`, and the diff and snapshot codecs of the workspace.
- Workspace.MemoryWorkspace.Read: links are not part of the class; reading through them is modelled by `Symlinks.ReadThrough`, and symlinks inside the source tree and the policy for creating a link are not.
- File contents are text: UTF-8 encoding and decoding are left out, and so are artifact export effects and unknown workspaces.
- Frames.ByteReader.ReadOne: a character stands for a byte, and the size field is a run of digits (an empty one reads as 0); other spellings `Number` accepts are treated as an invalid header.
- ParkBackoff.BackoffBounds: milliseconds are real numbers, without floating-point rounding or overflow.
- Digest syntax errors, and a blob whose file disappears while it is being pruned.
- Scorer, sandbox worker, permission flags, push grants, tenant policy, Kubernetes and git subprocesses, HTTP gateway, metrics, routing and scheduling: process plumbing rather than functional cores.
