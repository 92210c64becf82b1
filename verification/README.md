# Models and proofs of a consensus testbed

The repository runs and compares consensus algorithms. This project models the parts of it that carry
the most state and proves what they are for:

* **The event graph with virtual voting** (`consensus/graph/graph.go`). Nodes exchange hash-linked events;
  every node assigns rounds and witnesses to the events it holds, holds elections on the witnesses without
  sending votes, and reads off what each round delivers. `Events`, `Ancestry`, `Rounds` and `Elections`
  define what the graph means from reachability alone; `GraphColumns`, `Verdicts` and `DecidedPrefix` say
  what the stored columns must be; `HashGraph.Graph` is the program's object with its cached traversals,
  shared marks and stored votes, proved against those definitions; `KnownSearch` is the plain search that
  the stored vectors replace; `Batches` and `Replicas` are about what nodes send each other.
* **The copy-on-write map** (`consensus/copywritemap/copywritemap.go`). One map of version chains serves a tree of
  views. `VersionChains` and `ViewTree` hold the chains and the tree, `ViewClearing` and `ClearingOrder` what clearing
  a view takes out and what holds it back, `CopyWriteMap.Store` the operations, and `CopyWriteLimits` short
  runs that show where the promises end.
* **The causally ordered instances** (`consensus/consinterface/causalconsinterfacestate.go`): outputs, owners,
  consumers, garbage collection and the list of live instances ordered by progress (`CausalTypes`, `CausalState`).
* **The totally ordered instances** (`consensus/consinterface/consinterfacestate.go` and `consensus/cons/cons_state.go`):
  the window of allocated indices, the state machines, and the loop that goes from decision to decision
  (`InstanceState`, `InstanceDriver`, and `InstanceLimits` with a run that gets stuck).
* **The codecs** under them: events, message heads and encrypted frames (`Varints`, `EventCodec`, `HeaderCodec`,
  `EncryptedFrames`), and `EventIdentity`, which ties the encoding to the graph: without collisions the hash of
  the encoded form identifies an event with all its ancestors.

`dafny verify dfyconfig.toml` checks the whole project.

## How to read the main results

*Graph.* `Elections.Agreement` is the quorum argument: in a fork-free graph with `3*nmt > 2n`, two
witnesses that settle the election of the same witness settle it the same way, whichever two
ancestor-closed graphs they are found in and whatever their rounds. `Elections.RoundAgreement` lifts it to what a
node reports, including witnesses that arrive late, and `Replicas.GraphsAgree` to any two valid
`HashGraph.Graph` objects. That `Graph.Valid` holds over every run is proved operation by operation; it says
that every stored round, witness row, strongly-sees vector, vote, verdict, known vector, tail and decided round is
what the definitions say it is. What the definitions mean is stated without them: `Rounds.StronglySeesMeans`,
`Rounds.RoundExactly`, `Elections.VoteIsMajority`, `Elections.DecidesByQuorum`, `Verdicts.PayloadsPartition`. So the order in which events arrive does not matter
(`Replicas.ColumnsAgree`), and `Replicas.Sync` brings the receiver everything the sender holds.

*Map.* `ViewTree.Look` is what a view should read: its own write, else what its parent reads, else the committed
value. Every operation says exactly how `Look` changes for every view and key. The ghost field `model` holds
one independent map per view, and `Agrees` says that live views read their own maps.

*Where the code does not keep a promise.* Three promises of the copy-on-write map hold only under a condition,
which is proved to be exact:

* keeping a view changes what another view reads for a key exactly when `ViewTree.Unmoved` fails, so
  `Store.DoneKeep` keeps `Agrees` if and only if `Store.Clean` held before. The two ways it fails are a tombstone
  over a committed value (`CopyWriteLimits.TombstoneIsLost`) and a second copy of a kept view
  (`CopyWriteLimits.SiblingSeesCommit`);
* a kept view can read a key if and only if the key has no versions or a committed one
  (`Store.Read`, `CopyWriteLimits.KeptViewPanics`);
* a view that calls `DoneClear` is taken out if and only if no view in use is below it and none comes before
  it under a parent that waits to be cleared (`Store.DoneClear`, `CopyWriteLimits.ClearIsHeldBack`).

Four more, each with its exact condition:

* a pending causal instance can be decided if and only if its inputs are distinct and all still there. Allocation
  does not look for repeated inputs, so exactly those allocated instances that name an output twice stop half way
  (`CausalState.State.DoneIndex`, `CausalTypes.AllocatedCompletes`, and the run `CausalState.RepeatedInputStops`);
* the started index falls below the decided one if and only if the value is not kept, a change of members removes a
  started index, and no machine is stored from the decided index up to the removed one
  (`InstanceState.Instances.DoneIndex`, and the run `InstanceLimits.StartedFallsBack`). Only instances that need others
  to complete can get there, and then `ConsState.CheckProgress` stops;
* looking up index 0 of the window is let through and then fails exactly while the current index is at most
  `keepPast` (`InstanceState.Instances.GetMemberChecker`);
* looking ahead at a message head shows what reading takes, except that it panics when a number comes with additional
  indices, and on every error (`HeaderCodec.PeekPanicsExactly`, `HeaderCodec.PeekAgrees`).

## Model

| member | source | states |
|---|---|---|
| Ancestry.ChainAncestor | consensus/graph/graph.go:315-427 | in a fork-free graph the events of one identity form a chain: a lower index is an ancestor of a higher one |
| Rounds.RoundMonotone | consensus/graph/graph.go:671-690 | rounds never fall along a path |
| Rounds.RoundNeedsQuorum | consensus/graph/graph.go:671-712 | every event past round 0 strongly sees at least nmt witnesses of the round before its own |
| Rounds.QuorumIdentities | consensus/graph/graph.go:671-712 | those witnesses belong to at least nmt distinct identities |
| Rounds.StronglySeesMeans | consensus/graph/graph.go:1150-1222 | an event strongly sees another exactly when events of at least nmt identities lie on paths between them |
| Rounds.RoundExactly | consensus/graph/graph.go:671-712 | an event is past round r exactly when it strongly sees at least nmt witnesses of round r |
| Rounds.WitnessIsFirst | consensus/graph/graph.go:696-712 | a witness is exactly an event of a higher round than all earlier events of its identity |
| Rounds.WitnessUnique | consensus/graph/graph.go:619-627 | an identity has at most one witness in a round |
| Rounds.RoundsBelowAreFull | consensus/graph/graph.go:671-712 | every round below the round of an event of the graph has at least nmt witnesses in the graph |
| Elections.SharedIdentity | consensus/graph/graph.go:1150-1222 | whatever two events are strongly seen by two others, the paths between the two pairs share an identity |
| Elections.VoteIsMajority | consensus/graph/graph.go:900-943 | a witness two or more rounds on votes yes exactly when at least half of the witnesses it strongly sees in the round before did |
| Elections.DecidesByQuorum | consensus/graph/graph.go:900-943 | it settles the election exactly when at least nmt of them voted one way |
| Elections.SameRoundMajority | consensus/graph/graph.go:900-943 | when a witness settles an election, every witness of its round votes the same way and none settles it the other way |
| Elections.DecisionSticks | consensus/graph/graph.go:880-947 | once settled, an election is voted the same way by every witness of every later round |
| Elections.Agreement | consensus/graph/graph.go:847-947 | two witnesses, in any two ancestor-closed graphs whose union is fork-free, that settle the same election settle it the same way, whatever their rounds |
| Elections.MissingWitnessVotedDown | consensus/graph/graph.go:847-947 | a witness missing from a graph that reaches two rounds past it is voted down inside that graph |
| Elections.LateWitnessLoses | consensus/graph/graph.go:847-947 | such a witness is accepted in no other graph |
| Elections.RoundAgreement | consensus/graph/graph.go:953-1031 | any two nodes that report a round decided accept the same witnesses of it |
| Elections.DecidedRoundIsFull | consensus/graph/graph.go:953-1010 | a decided round has at least nmt witnesses, so the check in GetDecision cannot fail |
| DecidedPrefix.LateIsDecided | consensus/graph/graph.go:753-775 | a witness added to a round that was already decided gets its verdict in the same step |
| DecidedPrefix.PrefixKept | consensus/graph/graph.go:753-775 | rounds reported decided stay decided when a witness is added |
| HashGraph.Graph.constructor | consensus/graph/graph.go:127-173 | the graph of the first events is valid |
| HashGraph.Graph.ShortcutInBounds | consensus/graph/graph.go:1098-1142 | when the search reaches an event with a remote ancestor per other identity, the index of the shortcut is in bounds |
| HashGraph.Graph.CheckHasPath | consensus/graph/graph.go:1098-1132 | the marked, pruned search answers plain reachability, even when marks of other searches are present, as long as none of them hides a path |
| HashGraph.Graph.HasPath | consensus/graph/graph.go:1092-1097 | the same, and all marks are gone afterwards |
| HashGraph.Graph.DoesStronglySee | consensus/graph/graph.go:1150-1222 | the marked search with round pruning and early exit answers whether the identities on paths between the two events number at least nmt |
| HashGraph.Graph.WitnessesSeen | consensus/graph/graph.go:683-692 | the vector lists, by identity, exactly the witnesses of the round that the event strongly sees |
| HashGraph.Graph.AssignRound | consensus/graph/graph.go:671-712 | the stored round is the defined one, an event becomes a witness exactly when it is the first of its identity in its round, and the stored strongly-sees vectors are right |
| HashGraph.Graph.AddWitness | consensus/graph/graph.go:619-627 | the rows of witnesses stay exact |
| HashGraph.Graph.GetAllWitnesses | consensus/graph/graph.go:651-658 | the row of a round is exactly its witnesses by identity |
| HashGraph.Graph.CollectVotes | consensus/graph/graph.go:848-878 | the stored first votes are plain reachability from the witnesses of the next round, and searches made inside the traversal are not misled by its marks |
| HashGraph.Graph.CountVotes | consensus/graph/graph.go:894-911 | the yes and no counts are those of the witnesses strongly seen in the round before |
| HashGraph.Graph.TallyRow | consensus/graph/graph.go:882-947 | a round either settles the election as one of its witnesses does, or none of its witnesses settles it and the votes carried on are right |
| HashGraph.Graph.ComputeDecided | consensus/graph/graph.go:847-947 | the witness gets a verdict exactly when some witness of the graph settles its election, and then that verdict and the first round in which one does |
| HashGraph.Graph.RecCheckDecided | consensus/graph/graph.go:793-844 | the result says whether all witnesses below are decided; every undecided one below waits for one whose election no witness settles; verdicts never change |
| HashGraph.Graph.PayloadOf | consensus/graph/graph.go:993-1030 | the collected proposals are those since the previous witness of the identity, oldest first |
| Verdicts.PayloadsPartition | consensus/graph/graph.go:993-1030 | every proposal of an identity belongs to the delivery of exactly one of its witnesses, in order, but for those since the last one |
| HashGraph.Graph.GetDecision | consensus/graph/graph.go:953-1031 | a round is reported decided exactly when it has witnesses and all are decided, with the round, index, flag and proposals per identity, zero and nothing for one without a witness; none of its panics can happen |
| HashGraph.Graph.AdvanceLastDecided | consensus/graph/graph.go:753-775 | the decided rounds are advanced exactly to the first undecided one, and each new one keeps the indices of the tails at that time |
| HashGraph.Graph.CheckDecided | consensus/graph/graph.go:753-775 | a new witness leaves the verdicts right, changes none, and leaves nothing below it that could be decided |
| HashGraph.Graph.ComputeWitness | consensus/graph/graph.go:671-720 | all columns are right for the graph with the new event |
| HashGraph.Graph.ComputeKnown | consensus/graph/graph.go:1342-1357 | the vector merged from the direct ancestors holds the highest event of every identity below the event |
| HashGraph.Graph.ComputeKnownItem | consensus/graph/graph.go:1323-1328 | the same for the stored vector |
| HashGraph.Graph.Validate | consensus/graph/graph.go:97-125 | refuses exactly the wire forms that are not acceptable, with the error that applies |
| HashGraph.Graph.EventAt | consensus/graph/graph.go:327-336 | walking down the chain ends at the event with the index, or at the tail if it is below |
| HashGraph.Graph.FindPointer | consensus/graph/graph.go:337-354 | a pointer is resolved exactly when the graph holds the event it names |
| HashGraph.Graph.FindRemotes | consensus/graph/graph.go:355-371 | all remote pointers are resolved, or one of them names an event that is not there |
| HashGraph.Graph.AddEvent | consensus/graph/graph.go:315-427 | which events are refused and why, which are added; the graph stays valid, recorded verdicts, decided rounds and their tail indices are final, and every witness below a new one is decided or waits for one that no witness settles |
| HashGraph.Graph.AddEvents | consensus/graph/graph.go:429-470 | the input is split exactly into added, invalid and remainder; events are added after their ancestors; the remainder cannot be added, and is empty if the graph and the input together hold all ancestors; recorded verdicts are final |
| HashGraph.Graph.Arrived | consensus/graph/graph.go:429-470 | when all heads wait although everything was supplied, every received event is already in the graph |
| HashGraph.Graph.ComputeDiff | consensus/graph/graph.go:1303-1321 | lists exactly, and once each, the events of other identities that the event does not reach |
| HashGraph.Graph.ComputeDiffID | consensus/graph/graph.go:1270-1279 | the same from the latest event of an identity, which reaches all events of the identity |
| HashGraph.Graph.GetDecisionEvents | consensus/graph/graph.go:1362-1390 | lists exactly, and once each, the events that came between the decisions of the round before and of the round |
| HashGraph.Graph.DecidedWithOne | consensus/graph/graph.go:1362-1390 | every event past the first ones is listed for exactly one round, a decided one or the next |
| Batches.SortSorts | consensus/graph/graph.go:603-617 | sorting by index gives a sorted permutation |
| KnownSearch.ComputeKnownRec | consensus/graph/graph.go:1409-1429 | the breadth-first search finds the highest event of every identity below the event |
| KnownSearch.KnownIsUnique | consensus/graph/graph.go:1323-1357 | there is one such vector only, so the cached vector and the search agree |
| Replicas.ViewsAgree | consensus/graph/graph.go:847-947 | a witness decided in two views is decided the same way |
| Replicas.DeliveriesAgree | consensus/graph/graph.go:953-1031 | two views that report a round deliver the same flag and the same proposals for every identity |
| Replicas.GraphsAgree | consensus/graph/graph.go:847-1031 | any two valid graphs over a fork-free union agree on shared verdicts and on the accepted witnesses of every round both have decided |
| Replicas.ColumnsAgree | consensus/graph/graph.go:671-720 | round, witness status, known vector, and whether there is a strongly-sees vector and which, are the same for an event in every graph that holds it |
| Replicas.DiffIsSupplied | consensus/graph/graph.go:1270-1321 | the ancestors of what is sent are held by the receiver or sent too |
| Replicas.Sync | consensus/graph/graph.go:1270-1321 | sending a node what its latest event does not reach leaves no remainder, and the receiver then holds everything the sender holds |
| VersionChains.ResolveLargest | consensus/copywritemap/copywritemap.go:84-105 | with falling ids the version of the largest id is the one of the youngest writer |
| VersionChains.WithoutFind | consensus/copywritemap/copywritemap.go:244-261 | unlinking a version removes it and no other |
| VersionChains.StoredFind | consensus/copywritemap/copywritemap.go:117-137 | a write changes the writer's version and no other |
| VersionChains.KeptBase | consensus/copywritemap/copywritemap.go:263-296 | committing a value replaces the committed one, committing a tombstone leaves it |
| VersionChains.CommittedFirst | consensus/copywritemap/copywritemap.go:84-94 | a committed version is the head of its chain |
| ViewTree.LookResolves | consensus/copywritemap/copywritemap.go:84-105 | the rule of the program, largest own id, is the rule of the tree |
| ViewTree.WriteStep | consensus/copywritemap/copywritemap.go:117-147 | a write is read by its view alone |
| ViewTree.CopyStep | consensus/copywritemap/copywritemap.go:149-167 | a copy reads what the copied view reads, and nothing else changes |
| ViewTree.KeepStep | consensus/copywritemap/copywritemap.go:263-338 | what every view reads after a view was kept, and exactly when that is what it read before |
| ViewClearing.SubtreeIsCleared | consensus/copywritemap/copywritemap.go:178-242 | a subtree whose views have all called DoneClear is cleared unless a view in use comes before it |
| ViewClearing.ClearsUnread | consensus/copywritemap/copywritemap.go:178-233 | no view that is left reads anything else after others were cleared |
| ViewClearing.FinishStep | consensus/copywritemap/copywritemap.go:194-233 | taking out a waiting view without dependents keeps all invariants |
| ViewClearing.Visiting | consensus/copywritemap/copywritemap.go:178-192 | what clearing one dependent does to the outcome for every view below |
| ClearingOrder.StillHeld | consensus/copywritemap/copywritemap.go:178-242 | over every run, a view that waits to be cleared is held back by one in use below it or before it |
| ClearingOrder.TidyKeep | consensus/copywritemap/copywritemap.go:263-313 | keeping a view preserves that |
| CopyWriteMap.Store.constructor | consensus/copywritemap/copywritemap.go:42-50 | the first view reads the empty map |
| CopyWriteMap.Store.CheckItem | consensus/copywritemap/copywritemap.go:84-105 | finds the version the view should read; without ids it needs a committed head |
| CopyWriteMap.Store.Read | consensus/copywritemap/copywritemap.go:107-115 | a live view reads its map; a kept one reads the committed value, and fails exactly when the key has versions but no committed one |
| CopyWriteMap.Store.InternalWrite | consensus/copywritemap/copywritemap.go:117-137 | overwrites the own version or appends one, and lists the key once |
| CopyWriteMap.Store.Write | consensus/copywritemap/copywritemap.go:139-147 | the view's map gets the value; every other view reads as before |
| CopyWriteMap.Store.Delete | consensus/copywritemap/copywritemap.go:62-71 | the view's map loses the key; every other view reads as before |
| CopyWriteMap.Store.Copy | consensus/copywritemap/copywritemap.go:149-167 | the copy stands for the map of the copied view, or for the committed contents if that was kept |
| CopyWriteMap.Store.RemoveID | consensus/copywritemap/copywritemap.go:244-261 | unlinks exactly the version of the id; the search never runs off the chain |
| CopyWriteMap.Store.RecRemoveID | consensus/copywritemap/copywritemap.go:315-338 | takes the id off exactly the live views below, each of which has it once |
| CopyWriteMap.Store.DoneKeep | consensus/copywritemap/copywritemap.go:263-313 | the new committed values and what every live view reads; the views still read their own maps if and only if Clean held |
| CopyWriteMap.Store.DoneClearRec | consensus/copywritemap/copywritemap.go:178-192 | clears below a view exactly the waiting views that nothing holds back, and reports whether any view below is in use |
| CopyWriteMap.Store.InternalDoneClear | consensus/copywritemap/copywritemap.go:194-233 | takes out a waiting view and all its versions; none of its panics can happen |
| CopyWriteMap.Store.DoneClear | consensus/copywritemap/copywritemap.go:235-242 | exactly which waiting views are taken out by the call; the view itself is one of them if and only if nothing holds it back; every view left reads as before, the committed values are unchanged, and a kept view reads as before or no longer fails |
| CopyWriteMap.CommittedStays | consensus/copywritemap/copywritemap.go:194-261 | clearing views leaves every committed value, and what a kept view reads unless that failed |
| CopyWriteMap.Store.SubtreeIsUnlinked | consensus/copywritemap/copywritemap.go:178-261 | no version of a cleared subtree is left in any chain |
| CopyWriteLimits.TombstoneIsLost | consensus/copywritemap/copywritemap.go:283-295 | a run after which a view reads a value its parent had deleted |
| CopyWriteLimits.SiblingSeesCommit | consensus/copywritemap/copywritemap.go:149-167 | a run after which a view reads what its sibling committed |
| CopyWriteLimits.KeptViewPanics | consensus/copywritemap/copywritemap.go:84-96 | a run in which reading through a kept view fails |
| CopyWriteLimits.ClearIsHeldBack | consensus/copywritemap/copywritemap.go:178-192 | a run after which the versions of a cleared subtree are still linked |
| CausalTypes.RefreshedTimes | consensus/consinterface/causalconsinterfacestate.go:219-249 | moving elements to the end with a new time keeps the list ordered by time |
| CausalTypes.PlacedIsPermutation | consensus/consinterface/causalconsinterfacestate.go:219-249 | the list is a permutation of the live items |
| CausalTypes.FirstProblem | consensus/consinterface/causalconsinterfacestate.go:819-866 | an instance can be allocated exactly when all its inputs are unconsumed and have one owner |
| CausalTypes.FirstProblemFound | consensus/consinterface/causalconsinterfacestate.go:819-866 | the problem reported is that of the first input that has one: not there, or of another owner than the first |
| CausalTypes.DecidedIsGone | consensus/consinterface/causalconsinterfacestate.go:801-825 | a decided index cannot be allocated again |
| CausalTypes.LinkedDrop | consensus/consinterface/causalconsinterfacestate.go:700-725 | the child and parent maps stay inverse when an output is consumed |
| CausalTypes.LinkedAdd | consensus/consinterface/causalconsinterfacestate.go:653-671 | and when outputs are created |
| CausalState.State.constructor | consensus/consinterface/causalconsinterfacestate.go:379-445 | the initial outputs are accounted for, each with its own owner |
| CausalState.State.OutputStatus | consensus/consinterface/causalconsinterfacestate.go:608-733 | every output ever created is either unconsumed, with the owner it was created with and a live parent that lists it, or consumed by one decided index that names it and is on record |
| CausalState.State.MoveToEnd | consensus/consinterface/causalconsinterfacestate.go:219-249 | the elements are moved to the end in reverse with the new time, every item knows its new place, and the order is kept |
| CausalState.State.UpdateProgressTime | consensus/consinterface/causalconsinterfacestate.go:204-215 | the item is last, with the new time; the others keep theirs |
| CausalState.State.RemoveItem | consensus/consinterface/causalconsinterfacestate.go:758-770 | exactly the item leaves the list; the others keep their times and their order |
| CausalState.State.GenIndex | consensus/consinterface/causalconsinterfacestate.go:801-949 | exactly when an instance is allocated and which problem is reported otherwise; the item goes to the end of the list, no other item changes, and it is registered with the parents of its inputs and no others; none of the lookup panics can happen |
| CausalState.State.AddChildConsumerToParent | consensus/consinterface/causalconsinterfacestate.go:735-748 | the consumer is on the list of the parent, once, and no list loses or gains another entry |
| CausalState.State.ParentGcIdx | consensus/consinterface/causalconsinterfacestate.go:750-774 | exactly the item, its machine and its output list go; the others keep their times and their order |
| CausalState.State.ConsumeAll | consensus/consinterface/causalconsinterfacestate.go:675-731 | the inputs are consumed in order up to the first repeated one |
| CausalState.State.ConsumeOne | consensus/consinterface/causalconsinterfacestate.go:678-729 | one input moves from unconsumed to consumed, its parent is collected if it was the last output |
| CausalState.State.DoneIndex | consensus/consinterface/causalconsinterfacestate.go:608-733 | for every pending index, whether the decision completes and where it stops otherwise; when it completes, the exact new maps of outputs, owners and consumers; owners and earlier consumers never change, and what is left of the list keeps its times and its order |
| CausalTypes.CompletesExactly | consensus/consinterface/causalconsinterfacestate.go:632-690 | the outcome of a decision is complete exactly when the inputs are distinct and all there |
| CausalTypes.AllocatedCompletes | consensus/consinterface/causalconsinterfacestate.go:819-866 | of the instances that can be allocated exactly those without a repeated input can be decided; the others stop at the first repetition |
| CausalState.RepeatedInputStops | consensus/consinterface/causalconsinterfacestate.go:682-687 | a run that allocates an instance over a repeated output and whose decision stops at the second occurrence |
| InstanceState.RisingSpread | consensus/consinterface/consinterfacestate.go:456-465 | the first of k rising indices is at least k - 1 below the last, which bounds garbage collection |
| InstanceState.OthersWereCleared | consensus/consinterface/consinterfacestate.go:391-450 | of all machines ever made for an index, all but the kept one were cleared |
| InstanceState.Instances.constructor | consensus/consinterface/consinterfacestate.go:128-177 | the window starts with the first index and its machine |
| InstanceState.Instances.GetMemberChecker | consensus/consinterface/consinterfacestate.go:325-350 | exactly which indices are too old, too new or out of reach; all others are allocated, except index 0 while the current index is at most keepPast |
| InstanceState.Instances.GetIndex | consensus/consinterface/consinterfacestate.go:646-720 | everything up to the index is allocated and the window stays one interval |
| InstanceState.Instances.DoneIndex | consensus/consinterface/consinterfacestate.go:380-481 | the window stays an interval around the new current index that covers all that may still be asked for; the decided index ends with one kept machine that got the decision once, or with none left; exactly which later indices are removed, and that nothing noted about the others changes; exactly when the started index falls below the decided one |
| InstanceState.Instances.FinishMachine | consensus/consinterface/consinterfacestate.go:406-494 | which machine is kept, made or cleared, on which support, and that machines of other indices are left alone |
| InstanceState.Instances.Reuse | consensus/consinterface/consinterfacestate.go:406-428 | the stored machine can be kept exactly when it is not to be discarded, and has the decision already exactly when it was expected |
| InstanceState.Instances.UpdateMC | consensus/consinterface/consinterfacestate.go:523-644 | after a change of members no later index that knew the old ones is left, nothing else is removed, all that was noted about the removed ones and nothing else is forgotten, and the started index goes back to the last machine |
| InstanceState.Instances.ClearLater | consensus/consinterface/consinterfacestate.go:579-624 | the removed indices are those from the first one on that knew its members |
| InstanceState.Instances.CollectOld | consensus/consinterface/consinterfacestate.go:458-476 | collects exactly what lies below the last keepPast decisions with a value, and nothing that may still be asked for |
| InstanceState.Instances.CheckPreDecision | consensus/consinterface/consinterfacestate.go:725-814 | exactly which started indices take their expected value, with its support: those with a stored machine, or whose machine can be made to build on an earlier one; nothing else changes; a machine that was made is asked for a proposal, and an index at most once |
| InstanceState.Instances.Expect | consensus/consinterface/consinterfacestate.go:745-812 | exactly when an expected value is taken, when a machine is made for it, and when that is asked for a proposal; no other machine is touched |
| InstanceState.Back | consensus/consinterface/consinterfacestate.go:575-624 | the exact condition under which the started index falls below the decided one |
| InstanceLimits.StartedFallsBack | consensus/consinterface/consinterfacestate.go:616-624 | a run of decisions without a value that leaves the started index behind |
| InstanceState.Instances.CheckProposalNeeded | consensus/consinterface/consinterfacestate.go:818-860 | exactly when a proposal is asked for: the index has started, names its support, was not asked before, and its machine or an uncleared one of the support is stored; a machine is made and stored with its support exactly when instances run concurrently and none is stored |
| InstanceDriver.HandedAppend | consensus/cons/cons_state.go:596-613 | what handing on a list of messages adds per index |
| InstanceDriver.ConsState.constructor | consensus/cons/cons_state.go:62-90 | nothing is stored, kept or handed on at the start |
| InstanceDriver.ConsState.Receive | consensus/cons/cons_state.go:376-411 | exactly which messages are dropped, kept, handed back or processed; none is kept for the current index or an earlier one |
| InstanceDriver.ConsState.AdvanceOne | consensus/cons/cons_state.go:470-613 | one decision is stored and given to the machine of its index, and the next index is current, started, and asked for its proposal |
| InstanceDriver.ConsState.StartMore | consensus/cons/cons_state.go:615-663 | as many instances run as may; each was let start by the one before it, whose members are known, and the last one started was asked for its proposal |
| InstanceDriver.ConsState.HandOn | consensus/cons/cons_state.go:666-683 | exactly the messages of the indices passed over are handed on, up to the first index that has some and whose members are not known |
| InstanceDriver.ConsState.CheckProgress | consensus/cons/cons_state.go:457-690 | in all modes: decisions are written once each in consecutive order up to the first undecided index, and the machines got what was written; no index is started that the one before did not let start, and the started index stays within its bounds; every kept message is handed on at most once and in order, and none stays at or below the current index; why it stops otherwise |
| Varints.UvarintRoundTrip | consensus/utils/utils.go:77-125 | every 64-bit number is read back, whatever follows |
| Varints.UvarintByPosition | consensus/utils/utils.go:77-81 | byte i holds the i-th seven bits, all but the last have the high bit set, and no byte is spare |
| Varints.Reader.ReadUvarint | consensus/utils/utils.go:104-125 | the loop computes the defined value, count and error |
| Varints.LongFormIsRead | consensus/utils/utils.go:104-125 | a form of a number with added zero bytes is read as the number exactly when it has at most ten bytes, and refused otherwise |
| EventCodec.EventRoundTrip | consensus/graph/event_info.go:108-174 | decoding an encoded event followed by anything gives the event and its length |
| EventCodec.PointerLayout | consensus/graph/event_info.go:89-107 | a pointer is the number of its identity, then that of its index, then the hash |
| EventCodec.EventLayout | consensus/graph/event_info.go:109-139 | an event is its own pointer, the number of remote pointers and these in order, the length of the buffer and the buffer |
| EventCodec.EventFormInjective | consensus/graph/event_info.go:108-174 | no two events share a form, and no form begins another |
| EventCodec.NarrowWiden | consensus/graph/event_info.go:67-95 | 32-bit identities and indices survive the conversion to 64 bits and back |
| EventIdentity.FormIdentifies | consensus/graph/graph.go:320-324 | in a graph without hash collisions, events with the same encoded form are the same event |
| EventIdentity.HashIdentifies | consensus/graph/graph.go:320-336 | so comparing hashes is comparing events |
| EventCodec.Writer.EncodeEvent | consensus/graph/event_info.go:109-139 | writes the form and its length; an event without remote ancestors is refused |
| EventCodec.DecodePointer | consensus/graph/event_info.go:67-87 | the decoder of pointers, with its errors |
| EventCodec.DecodeEvent | consensus/graph/event_info.go:141-174 | the decoder of events, with its errors |
| HeaderCodec.HeadRoundTrip | consensus/messages/static.go:115-228 | reading back a head gives its indices, size and length, whatever follows |
| HeaderCodec.LEByPosition | config/config.go:167 | byte i of a fixed size number holds its i-th eight bits |
| HeaderCodec.HeadLayout | consensus/messages/static.go:198-228 | a head has its size in bytes 0 to 4, its id in bytes 4 to 8, then the indices, and the id of the run last |
| HeaderCodec.IndicesLayout | consensus/messages/static.go:208-221 | the first index, the number of additional ones, and these in order at fixed widths |
| HeaderCodec.PeekAgrees | consensus/messages/static.go:68-180 | on any bytes that reading accepts, looking ahead by offsets shows the same indices, or fails exactly when a number comes with additional ones |
| HeaderCodec.PeekPanicsExactly | consensus/messages/static.go:68-105 | exactly which bytes make looking ahead panic, and with which error |
| HeaderCodec.PeekIdsAreParsed | consensus/messages/static.go:95-104 | finding ids by a running offset and reading them gives the same |
| HeaderCodec.MsgBuffer.PeekUvarintAt | consensus/messages/msg_buffer.go:294-306 | the integer at an offset, with the read offset back where it was |
| HeaderCodec.MsgBuffer.WriteHeaderHead | consensus/messages/static.go:198-228 | appends the head and reports its length and offsets |
| HeaderCodec.MsgBuffer.ReadHeaderHead | consensus/messages/static.go:115-180 | accepts exactly the heads of the expected kind and run, moves past them, and reports the first error otherwise |
| HeaderCodec.MsgBuffer.PeekHeaderHead | consensus/messages/static.go:68-105 | the loop over a running offset computes the defined outcome, and the read offset is where it was |
| EncryptedFrames.OpenedSealed | consensus/channel/encrypter.go:171-245 | the receiver cuts the chunks where the sender did, for every length |
| EncryptedFrames.SealedSize | consensus/channel/encrypter.go:210-245 | the length of a frame |
| EncryptedFrames.ChunkByPosition | consensus/channel/encrypter.go:217-235 | chunk c starts after c full ones with its number, and holds the part of the message after c full parts, sealed under the nonce of that number |
| EncryptedFrames.FrameRoundTrip | consensus/channel/encrypter.go:171-245 | under paired keys decoding undoes encoding |
| EncryptedFrames.NonceInjective | consensus/channel/encrypter.go:150-165 | different sequence numbers give different nonces |
| EncryptedFrames.Encrypter.NoncesDiffer | consensus/channel/encrypter.go:150-245 | no two chunks an encrypter ever sealed share a nonce |
| EncryptedFrames.Encrypter.Encode | consensus/channel/encrypter.go:206-245 | the frame, the exact size field, and one sequence number per chunk |
| EncryptedFrames.Encrypter.Decode | consensus/channel/encrypter.go:166-200 | what is returned for any bytes, with the error cases |

## Left out

- Forks in the graph: `AddEvent` and `AddEvents` are modelled for input that forks with nothing; `checkFork`, `seesForks` and identities with several tails are not modelled, because the fork path does not keep the invariants.
- Garbage collection of the graph (`CheckGCIndex`, `g.known`) and `GetMoreRecent`.
- Hashes do not collide: an event is a value that holds its ancestors, and its hash stands for the value, which `EventIdentity` justifies. Per-event fields are maps of the `Graph` object keyed by the event.
- `CreateEvent` and `CreateEventIndex`: they pick ancestors and call `AddEvent`.
- CopyWriteMap `Range`; version chains are sequences, and views are places in a sequence instead of references.
- CopyWriteMap.Store.DoneKeep: modelled for a view that has not called a Done operation before.
- CopyWriteMap.Store.DoneClear: modelled for a view in use or waiting to be cleared, not for one that was kept or taken out.
- CausalState.State.DoneIndex: requires outputs that were never created before, which hashing gives the program; the state after a decision that stops is not described.
- Proposals and messages kept by the causal state, `GetTimeoutItems`' choice of items, and recovery.
- InstanceDriver.ConsState.CheckProgress: the state after it stops at a report that does not fit is not described.
- Member checkers, forward checkers, consensus items and state machines are reduced to what they report: decisions, expected values, proposal indices, whether members are known or changed.
- Coin rounds, networking, timers, logging, statistics, disk storage and the concrete consensus algorithms.
- Sealing and opening are an abstract inverse pair; the key agreement of the encrypter is not modelled.
- EncryptedFrames.Encrypter.Encode: concurrent senders are not modelled; the atomic increment gives each chunk its own number.
- Identities and indices of the graph are naturals: a negative one, which the 32-bit type allows and the program would index with, is modelled in the codec only.
- Allocation limits: a decoder that is told a huge length fails for lack of input in the model.
