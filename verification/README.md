# Verified model of sixpack

sixpack compiles YAML fragments into one APISIX config for each virtual gateway and
pushes the result out. A fragment names a dotted gateway; it is merged into that gateway
and into every ancestor of it. The merged tree gets ownership labels, is rendered and
validated, and is applied unless the rendering has not changed. Applied configs are
distributed over server-sent events; certificates that the configs ask for are requested,
renewed and dropped by a tracker; sources that fail are read again through a retry queue.

The model follows the program's own parts, one module each.

- **Merge engine.** `Trees`, `MergeRules`: the values and the merge of two of them under a
  rule, as functions. `Compiler`: the engine's loops, each proved to return what the
  functions say. `MergeFacts`, `Associativity`, `Compatibility`, `Equivalence`,
  `Fragments`: the algebra. Merging is associative with failure; a sequence of fragments
  merges if and only if every two of them do; permuted fragments fail together or give
  trees that differ only in the order of lists. `MergeMeaning`, `SelfMerge`, `OrderOnly`,
  `IdStrings`: the same merge, its equivalence and its ids defined on the trees alone, and
  the proof that the engine computes exactly that.
- **Provenance.** `RawObjects`, `Provenance`, `Recorder`: the objects of a source, the index of
  sources by object, and what is left of an object when only its sources are merged.
- **Gateways.** `Strings`, `Gateways`: names, hierarchies and the grouping of fragments.
- **Labels.** `Cells`: decoded documents on the heap, whose maps and lists are objects that
  may be shared. `Labels`: deep copy and labelling in place.
- **Commit cache.** `CommitCache`: the linked state of a gateway and its serializer, under
  failures of any stage.
- **Distribution.** `SseServer`, `SseClient`: the two ends of the stream as step relations,
  with the critical sections as methods that take the same steps.
- **Certificates.** `TrackerRace`: requesters racing removers around calls made outside the
  lock, as a step relation. `TrackedProvider`: their code, with others at work between its
  sections. `TrackerCommit`: what a commit does to the tracked certificates.
- **Schemas.** `SchemaRefs`, `Pointers`: JSON pointers and the references built for plugins.
  `NormalizedSchema`: the normalised document, in which they resolve.
  `SchemaDefaults`: the instance filled with defaults, with the guard against cyclic
  references. `DefaultChains`: what is there afterwards, said of the document.
  `DefaultPasses`: when one pass is enough. `DefaultsWalk`: the walk that fills
  the instance in place.
- **Scheduling.** `RetryQueue`: the heap and its wake-up token. `DispatchLoop`: the rate
  bound and the request token of the pipeline.

A class or a loop of the program is a class or a loop here, proved against a function of
its inputs and its old state; the theorems are about those functions and about all runs
built from them. Clocks, timers, providers, the network, hashes, rendering and validation
are inputs of the model.

## Where the program falls short of what one may expect of it

Each of these is stated with a concrete run or input, beside the exact condition under which
the expected property holds where there is one.

- A cached cycle may leave another payload's config live if a hash collision joins payloads
  that render differently, and only then (`CommitCache.FreshIffNoCollision`); `StaleIff` says
  exactly which cycle of a run does, and `CollisionIsSkipped` gives one.
- A notification cut short by a cancelled context loses state if and only if it misses a
  handler that has nothing buffered and no re-read ahead (`SseServer.ApplyKeepsIff`,
  `CancelledApplyStrands`).
- A failed apply is not retried until a newer event arrives
  (`SseClient.CompletionForwardsIff`, `FailureIsNotRetried`).
- A failed rollback leaves a tracked identity unmanaged unless someone else still owes it
  (`TrackerRace.FailedRollbackKeepsIff`, `RunKeepsInvIff`, `FailedRollbackStrands`).
- An identity can stay managed that nobody tracks: a requester that fails late untracks what
  another has had managed, and a request that outlasts a removal manages what is no longer
  tracked (`TrackerRace.StrayIff`, `NeverStrayIff`, `ManagedMayBeUntracked`,
  `LateProvisionStrays`).
- A commit walks the keys of all providers in the turn of whichever comes first, and
  unmanages the stale ones from that one, so it is precise if and only if every stale key of
  another provider is harmless (`TrackerCommit.CommitAllPreciseIff`, `CommitMixesProviders`);
  and it can count one date twice (`CommitCountIff`, `CommitCountsTwice`).
- Filling in defaults twice is not filling them in once when an allOf meets a default that
  holds an object (`DefaultPasses.FilledIsIdempotent`, `InertExactly`,
  `AllOfNeedsTwoPasses`).
- Consecutive runs of the pipeline can start at the same instant, whatever the cooldown;
  every second run is a cooldown apart (`DispatchLoop.NextRunIsApartIff`,
  `ConsecutiveRunsMayMeet`, `RateBound`).
- Labelling a merge without copying it would give an object that two gateways share the
  labels of the last of them (`Labels.SharedWithoutCopy`); labelling implies copying in the
  program's configuration.

## Model

| member | source | states |
|---|---|---|
| Associativity.MergeIsAssociative | internal/compiler/compiler.go:245-416 | For all trees and every rule, merging (a, b) with c and merging a with (b, c) fail on the same inputs and otherwise give the identical tree, list order, anonymous tails and normalised ids included |
| Compatibility.MergedCompatible | internal/compiler/compiler.go:245-503 | A merged tree accepts a third tree if and only if both of its parts do |
| Equivalence.EquivSymmetric | internal/compiler/compiler.go:346-416 | Equality up to list order (keyed lists as id maps with a multiset of anonymous items, scalar lists as sets) is symmetric |
| Equivalence.EquivTransitive | internal/compiler/compiler.go:346-416 | The same relation is transitive |
| Equivalence.MergeIsCommutative | internal/compiler/compiler.go:245-503 | Swapping the operands of a merge fails on the same inputs and gives an equivalent tree |
| Equivalence.MergeIsCongruent | internal/compiler/compiler.go:245-503 | Replacing both operands by equivalent ones fails on the same inputs and gives an equivalent tree |
| OrderOnly.EquivIsSameButOrder | internal/compiler/compiler.go:346-416 | Two trees are equivalent if and only if they differ in list order only, read off their positions: the same ids with equivalent objects and the same anonymous items each as often, the same scalars, everything else equal |
| MergeMeaning.MergesExactly | internal/compiler/compiler.go:245-530 | For all trees and rules, the engine returns a tree if and only if it is the merge, defined on entries and positions alone: kept where one side has it, merged where both do, objects of the left first, then the new ones of the right in order, then those without an id, scalars equal |
| MergeMeaning.IndexIs | internal/compiler/compiler.go:438-462 | Indexing succeeds if and only if every item is an object with a distinct valid id or, where allowed, none; it gives the ids and the anonymous items in order and each item under its id |
| MergeMeaning.ScalarListsExactly | internal/compiler/compiler.go:398-416 | The left list as it is, then the scalars at exactly those positions of the right that neither the left nor an earlier position holds, in order; it fails if and only if some item is not a scalar |
| SelfMerge.ScalarsMergeIff | internal/compiler/compiler.go:282-290 | Two scalars of any type merge, to themselves, if and only if the rule is for scalars and they are equal |
| SelfMerge.SelfMergesIff | internal/compiler/compiler.go:245-503 | A tree merges with itself if and only if the rule of each of its parts allows it, read off the tree and the rules |
| SelfMerge.SelfMergeIsSame | internal/compiler/compiler.go:245-503 | Such a tree without anonymous items, merged with itself, is the same tree with the merged ids as strings |
| IdStrings.IdOf | internal/compiler/compiler.go:520-550 | Exactly strings and numbers are ids: a string its own, a whole number the decimal that reads back as it, a fraction that of its whole part |
| IdStrings.FormatIntReads | internal/compiler/compiler.go:520-530 | The decimal form reads back as the number and has no plus sign and no leading zero |
| IdStrings.TruncateIs | internal/compiler/compiler.go:544-548 | A fraction is dropped towards zero |
| IdStrings.SameId | internal/compiler/compiler.go:327-336 | A string that is the id of a number reads back as that number |
| IdStrings.DifferentIds | internal/compiler/compiler.go:520-530 | Different numbers are different ids |
| Fragments.StepIsApply | internal/compiler/compiler.go:224-243 | The nil start and the check that the merged value is a map add nothing to merging two by two |
| Fragments.MergeAllConcat | internal/compiler/compiler.go:224-243 | Fragments may be merged in two halves, with failure |
| Fragments.MergeAllOfOne | internal/compiler/compiler.go:224-243 | Nothing merges to nil and one fragment to itself |
| Fragments.MergesIffPairwise | internal/compiler/compiler.go:224-243 | A sequence of fragments merges if and only if every two of them do |
| Fragments.SelectionMerges | internal/compiler/compiler.go:224-243 | Any selection of the fragments of a mergeable sequence merges, in any order |
| Fragments.OrderIrrelevant | internal/compiler/compiler.go:224-243 | Permuted fragments fail together or merge to equivalent trees |
| MergeFacts.MergedKeepsID | internal/compiler/compiler.go:476-530 | Merging two items with the same normalised id gives an item with that id, although ids may differ in type |
| MergeFacts.MergeIndexWellFormed | internal/compiler/compiler.go:346-376 | Merging two indexes keeps ids distinct, each item under its own id, and the tail anonymous |
| MergeFacts.IndexOfRender | internal/compiler/compiler.go:346-376 | Indexing the list rendered from a well-formed index gives the index back |
| MergeFacts.IndexOfMerged | internal/compiler/compiler.go:346-376 | The index of a merged list is the merge of the indexes of its operands |
| Compiler.Merge | internal/compiler/compiler.go:224-243 | The loop over the fragments returns the left-to-right merge of all of them, or an error |
| Compiler.DefaultKinds | internal/compiler/compiler.go:67-221 | The kinds of objects of a config |
| Compiler.DefaultRulesOfKind | internal/compiler/compiler.go:67-221 | For each kind: its id attribute, whether the id may be missing, whether one id may be merged, and whether labels are supported |
| Compiler.DefaultMapAttributes | internal/compiler/compiler.go:47-65 | The kinds whose plugins and labels are merged attribute by attribute |
| Compiler.DefaultHosts | internal/compiler/compiler.go:79-104 | The kinds whose hosts are merged as a list of scalars |
| Compiler.DefaultUrisAndSnis | internal/compiler/compiler.go:79-129 | The same for uris and snis |
| Compiler.DefaultListAttributes | internal/compiler/compiler.go:192-212 | Credentials of consumers are merged as objects that may not share an id |
| Compiler.DefaultAttributes | internal/compiler/compiler.go:67-221 | No other attribute is merged as more than a scalar |
| Compiler.ApplyMergeRules | internal/compiler/compiler.go:245-294 | The dispatch on kinds and shapes returns the merge of the two trees under the rule |
| Compiler.MergeMap | internal/compiler/compiler.go:296-344 | The map loops return the entry-by-entry merge with the id attribute normalised, or an error if any entry fails |
| Compiler.MergeValue | internal/compiler/compiler.go:312-341 | One attribute: passed through when one side lacks it, normalised and merged under the child rule when both have it |
| Compiler.MergeList | internal/compiler/compiler.go:346-376 | Indexing both lists, merging the keyed items and concatenating the tails gives the list of the merged index, in order of first appearance |
| Compiler.LeftItems | internal/compiler/compiler.go:362-365 | The first output loop emits the merged items in the left order |
| Compiler.RightItems | internal/compiler/compiler.go:366-372 | The second output loop adds the ids that the left order did not have, in the right order |
| Compiler.MergeSet | internal/compiler/compiler.go:378-396 | Sets merge as keyed items; an entry that is not an object is an error |
| Compiler.MergeScalarList | internal/compiler/compiler.go:398-416 | Scalars are added once each in order of first appearance; an item that is not a scalar is an error |
| Compiler.ContainsScalar | internal/compiler/compiler.go:418-425 | True if and only if the value occurs |
| Compiler.IndexListByID | internal/compiler/compiler.go:438-462 | The ids in order, the items by id, and the anonymous tail; a duplicate, missing or badly typed id is an error |
| Compiler.IndexSet | internal/compiler/compiler.go:464-474 | Succeeds with the same map if and only if every entry is an object |
| Compiler.MergeKeyedItems | internal/compiler/compiler.go:476-503 | Ids on one side pass through; ids on both merge under the map form of the rule, or fail when the rule forbids it |
| Compiler.MergeItem | internal/compiler/compiler.go:483-500 | The body of that loop for an id that both sides have |
| Provenance.LookupOfMerged | internal/compiler/compiler.go:346-396 | The object under (kind, id) in a merge is the merge of the objects under it in the two operands |
| RawObjects.LookupIs | internal/compiler/snippet.go:10-43 | What is looked up under (kind, id) is the item at the last position of the kind's list whose id attribute normalises to the id, or the object under that key of a set; nothing if and only if there is none |
| RawObjects.DefinesIs | internal/recorder/recorder.go:147-165 | A source defines an object if and only if it holds one of that kind and id in that sense |
| Provenance.DatasAt | internal/recorder/handlers.go:135-141 | The fragments selected are those of the listed sources, position by position |
| Provenance.DefinersAt | internal/recorder/recorder.go:147-165 | The defining sources are exactly those of the fetched ones that define the object, in fetch order |
| Provenance.DefinersMerge | internal/recorder/handlers.go:135-142 | A fragment that merges after all earlier sources also merges after those of them that define an object |
| Provenance.SliceInOrder | internal/recorder/recorder.go:147-165 | Merging only the sources that define (kind, id), in fetch order, succeeds and holds the identical object under that id |
| Provenance.SliceInAnyOrder | internal/recorder/handlers.go:135-142 | In any order the merge succeeds and holds the same object up to list order |
| Provenance.LookupEquiv | internal/compiler/compiler.go:346-396 | Equivalent trees hold equivalent objects under every id |
| Recorder.AsTree | internal/compiler/snippet.go:10-43 | The nested loops list an item under (kind, id) if and only if the fragment holds it there: the last of a list with that normalised id, or the object under that key of a set |
| Recorder.IndexSnippets | internal/recorder/recorder.go:147-165 | The index lists a source under (kind, id), once, if and only if the source holds an object of that kind and id |
| Recorder.AddSource | internal/recorder/recorder.go:149-163 | The inner loops add one source to the lists of all the objects it defines, and to no others |
| Recorder.DescribeConfigs | internal/recorder/recorder.go:115-143 | The loops describe exactly the objects of the validated config, each with the sources that the index lists for it |
| Recorder.Instance.Commit | internal/recorder/recorder.go:79-104 | A config that can be parsed replaces the sources and the index, and every object of it is described with exactly its defining sources; one that cannot changes nothing |
| Recorder.MergeSources | internal/recorder/handlers.go:135-142 | The loop selects the listed sources, in order, and the result is their merge |
| Recorder.Instance.GetConfig | internal/recorder/handlers.go:111-147 | Nothing is found if and only if the validated config holds no object of that kind and id or no source does; otherwise the answer is the merge of exactly the sources that hold one, which holds the object of any successful merge of all sources, up to list order |
| Recorder.ServedObject | internal/recorder/handlers.go:130-147 | When all sources merge, the merge of the defining sources holds the object of the full merge up to list order, and no source defines it if and only if the full merge does not hold it |
| Recorder.DefinedInMerge | internal/recorder/handlers.go:135-149 | An object that all merged sources define is in their merge |
| Strings.SplitOfJoin | internal/compiler/source.go:71-95 | Splitting inverts joining when no part contains the separator |
| Strings.JoinOfSplit | internal/compiler/source.go:71-95 | Joining inverts splitting, for every string |
| Gateways.FromKey | internal/compiler/source.go:71-83 | The hierarchy of a name: its non-blank trimmed parts, or the default gateway when there are none |
| Gateways.FromLeaf | internal/compiler/source.go:85-95 | The hierarchy of a path: the gateway first, then its ancestors outwards |
| Gateways.LeafIsClean | internal/compiler/source.go:71-83 | Every name stands for a non-empty path of trimmed, non-empty parts without a dot |
| Gateways.LeafOfPadded | internal/compiler/source.go:71-83 | A name stands for its parts, in order, without the spaces around them and without the blank ones; for the gateway "default" when all are blank |
| Gateways.LeafOfJoin | internal/compiler/source.go:71-95 | Reading back the dotted name of a clean path gives the path |
| Gateways.HierarchyOfAncestor | internal/compiler/source.go:71-95 | The hierarchy of an ancestor is the rest of the hierarchy from that ancestor on |
| Gateways.HierarchyDistinct | internal/compiler/source.go:85-95 | No gateway occurs twice in a hierarchy |
| Gateways.GroupByGateway | internal/dispatcher/dispatcher.go:176-199 | A fetch error aborts; otherwise each gateway gets exactly the fragments of its hierarchy that have data, in fetch order, and no gateway is left with none |
| Gateways.AddToGroups | internal/dispatcher/dispatcher.go:192-199 | One fragment is appended once to each gateway of its hierarchy and to no other |
| Gateways.GroupIs | internal/dispatcher/dispatcher.go:185-199 | The fragments of a gateway are exactly those that have data and the gateway in their hierarchy, in fetch order |
| Gateways.GroupIsSubsequence | internal/dispatcher/dispatcher.go:185-199 | The fragments of a gateway are a sub-sequence of those of each of its ancestors |
| Gateways.DescendantMerges | internal/dispatcher/dispatcher.go:185-199 | If the fragments of a gateway merge, so do those of each of its descendants |
| Labels.DeepCopy | cmd/sixpack/factory/schema_fetcher.go:109-134 | The copy is an equal tree of new objects only, none of them twice, whatever the original shares |
| Labels.CopyEntries | cmd/sixpack/factory/schema_fetcher.go:111-120 | The loop over a map copies every entry into objects disjoint from those of the others |
| Labels.CopyItems | cmd/sixpack/factory/schema_fetcher.go:121-130 | The same for the loop over a list, in order |
| Labels.EnsureManagedLabels | internal/plugin/managed_labels.go:58-74 | In place: fails if and only if labels are neither absent, null nor an object; otherwise the object holds the labelled tree in its own objects and new ones |
| Labels.LabelItems | internal/plugin/managed_labels.go:45-53 | The loop over the items labels every object of the list, leaves other items alone, and fails if and only if one of them fails |
| Labels.LabelKinds | internal/plugin/managed_labels.go:33-54 | In place: the config becomes the labelled config of all kinds that support labels, or fails if and only if some object of such a kind does |
| Labels.Update | internal/plugin/managed_labels.go:25-56 | A nil config stays nil; any other is labelled in place under the rules given, or the default ones when none are |
| Labels.UpdatedIs | internal/plugin/managed_labels.go:25-32 | Without rules the default ones apply, and a nil config stays nil |
| Labels.ObjectLabelled | internal/plugin/managed_labels.go:16-18 | Every object of a supporting kind ends with both ownership labels, all its other labels and all its other entries |
| Labels.LabelledFailsIff | internal/plugin/managed_labels.go:33-74 | Labelling fails if and only if some object of a kind that supports labels has labels that are neither null nor an object |
| Labels.OthersUnlabelled | internal/plugin/managed_labels.go:33-50 | Kinds that do not support labels, and items that are not objects, stay as they were |
| Labels.LastGatewayWins | internal/plugin/managed_labels.go:58-74 | Labelling again overwrites the gateway's label and nothing else, so labelling twice for one gateway is labelling once |
| Labels.CopyAndLabel | cmd/sixpack/factory/compiler_factory.go:23-40 | After copying, labelling leaves every tree that was held before as it was, and returns the labelled tree in new objects |
| Labels.LabelGateways | cmd/sixpack/factory/compiler_factory.go:23-40 | Over any gateways whose merged values share objects, each gets exactly the labels of its own, and the values stay unlabelled |
| Labels.SharedWithoutCopy | cmd/sixpack/factory/compiler_factory.go:28-39 | Without the copy, an object in two gateways' lists carries the labels of the second in both |
| CommitCache.StepKeepsLinked | internal/dispatcher/dispatcher.go:225-299 | Under any stage outcomes, hasCommit agrees with lastCommit, the committed hash is that of the payload behind lastCommit, and commitSuccess implies that lastCommit is live |
| CommitCache.RunIsLinked | internal/dispatcher/dispatcher.go:225-299 | The same after every run of cycles |
| CommitCache.CacheRefinesAlwaysApply | internal/dispatcher/dispatcher.go:225-299 | In every run, a cycle without an error ends with its own rendering live, and it succeeds whenever a pipeline that always applies would |
| CommitCache.FailureIsRetried | internal/dispatcher/dispatcher.go:252-296 | After a failed cycle the next one that succeeds has applied something, even on a cache hit |
| CommitCache.CollisionIsSkipped | cmd/sixpack/factory/serializer_factory.go:140-147 | After a clean cycle, one for a payload with the same hash applies nothing and leaves the first config live |
| CommitCache.FreshIffNoCollision | cmd/sixpack/factory/serializer_factory.go:125-158 | No run has a cycle that succeeds with stale config live, if and only if no hash collision joins payloads that render differently |
| CommitCache.StaleIff | internal/dispatcher/dispatcher.go:252-296 | After any run, a cycle succeeds with a config other than its own live if and only if the serializer answers "no change", the last commit is not its rendering, and it is live already or validated and applied again |
| CommitCache.SendsIff | internal/dispatcher/dispatcher.go:225-288 | A cycle sends a payload if and only if merging, rendering and validation succeed and it is not skipped; the payload is its rendering, or on a hit the last commit |
| CommitCache.RejectedIsNotApplied | internal/dispatcher/dispatcher.go:264-276 | A payload that the validator does not accept is not sent and changes nothing that is live or committed; the cycle fails unless it is a hit after a success |
| CommitCache.SentIsCommitted | internal/dispatcher/dispatcher.go:282-298 | A payload that is applied becomes live and the last commit, with its hash and certificates; a failed apply commits nothing |
| CommitCache.LiveWasAccepted | internal/dispatcher/dispatcher.go:225-299 | Over every run, what is live was sent by the last cycle that sent anything, whose payload the validator accepted, or is the wreck of its failed apply |
| CommitCache.CommittedIsApplied | cmd/sixpack/factory/serializer_factory.go:114-121 | Over every run, the committed payload, hash and certificates are those of the last cycle that was applied |
| CommitCache.SerializerInstance.Reset | cmd/sixpack/factory/serializer_factory.go:107-112 | Forgets what the cycle recorded, and keeps what was committed |
| CommitCache.SerializerInstance.Serialize | cmd/sixpack/factory/serializer_factory.go:125-158 | Records the certificates and the hash, and answers "no change" if and only if the hash is the committed one |
| CommitCache.SerializerInstance.Commit | cmd/sixpack/factory/serializer_factory.go:114-122 | The hash and certificates of the cycle become the committed ones |
| CommitCache.VirtualGateway.HandleGateway | internal/dispatcher/dispatcher.go:225-299 | The cycle on the two linked objects takes exactly the step that the theorems are about; it sends nothing that was not merged, rendered and accepted |
| SseServer.StepKeepsInv | internal/sse/handlers.go:129-161 | Every step keeps: subscriptions are open channels, nothing written is newer than the record, and a handler shows the current record, has a notification buffered, or is about to re-read |
| SseServer.RunKeepsInv | internal/sse/handlers.go:207-282 | The same after every interleaving of applies, subscriptions, dropped sends and closes |
| SseServer.IdleHandlersAreCurrent | internal/sse/handlers.go:250-280 | After any run, a handler waiting with an empty channel has written the current record |
| SseServer.SentNeverGoesBack | internal/sse/handlers.go:212-281 | Between any two points of any run, even one whose notifications skip subscribers, the record that a handler has written last does not go back in time |
| SseServer.SendsAreSafe | internal/cursor/cursor.go:75-108 | A notification is never sent on a closed channel, and leaves the channel with something buffered |
| SseServer.ApplyKeepsIff | internal/cursor/cursor.go:91-108 | An apply whose notification skips some subscribers loses no state if and only if it skips no handler that it would strand |
| SseServer.CancelledApplyStrands | internal/cursor/cursor.go:98-101 | A run in which a cancelled context leaves a waiting handler stale with nothing to wake it |
| SseServer.EndsOnlyUnsubscribed | internal/sse/handlers.go:261-267 | In every run over named gateways, channels hold notifications of their own gateway only, and no handler ends but by its own end |
| SseServer.CatchesUp | internal/sse/handlers.go:207-282 | From every point of a run, a handler that has not ended can, by steps of its own, come to have written the current record |
| SseServer.Reloader.Apply | internal/sse/handlers.go:129-161 | Stores the record and notifies, as one step, if and only if the nested reloader accepts and the reply and event can be encoded; otherwise changes nothing |
| SseServer.Reloader.NotifyAllLocked | internal/cursor/cursor.go:91-108 | The loop offers the value to exactly the matching subscribers but those skipped when the context ends, dropping it where the buffer is full; without that none is skipped |
| SseServer.Reloader.Watch | internal/cursor/cursor.go:74-81 | Subscribing is one step that adds an open, empty channel |
| SseServer.Reloader.Close | internal/cursor/cursor.go:82-88 | Closing unsubscribes before it closes the channel, as two steps |
| SseClient.EnabledIsSafe | internal/sse/client.go:309-336 | In every reachable state a completion arrives only while something is in flight, no nil pointer is read, and the result channel has room for its sender |
| SseClient.RunKeepsInv | internal/sse/client.go:309-403 | Every run keeps one worker for the reply in flight and one completion owed for it |
| SseClient.RunsAreSafe | internal/sse/client.go:309-403 | No run of events, worker steps and completions ends on an unsafe action |
| SseClient.AppliesAreOrdered | internal/sse/client.go:369-394 | At most one apply is in flight, and the times applied strictly increase |
| SseClient.IdleAfterSuccessIsCurrent | internal/sse/client.go:380-394 | Idle after a successful apply, the client serves the newest event it was sent |
| SseClient.CompletionForwardsIff | internal/sse/client.go:380-394 | A completion starts another apply if and only if it succeeded and a newer event is waiting |
| SseClient.FailureIsNotRetried | internal/sse/client.go:386-390 | A run in which a failed apply leaves the newest event unapplied and the client idle |
| SseClient.ServesLastSuccess | internal/sse/client.go:320-332 | In every run the client serves the reply of the last apply that succeeded, whatever has failed since, and what it served before when none has |
| SseClient.NeverStuck | internal/sse/client.go:309-394 | While an apply is under way, a step of the worker or its completion can always be taken |
| SseClient.IdleCatchesUp | internal/sse/client.go:369-394 | An idle client that is sent a newer event, whose apply succeeds, serves it |
| SseClient.Stream.Forward | internal/sse/client.go:314-336 | Starts a worker for the target unless one is in flight |
| SseClient.Stream.OnEvent | internal/sse/client.go:369-379 | Accepts an event if and only if it is newer than the target |
| SseClient.Stream.Work | internal/sse/client.go:320-332 | The worker's three steps: read the reply in flight, apply and publish it, report |
| SseClient.Stream.OnCompletion | internal/sse/client.go:380-394 | A completion is safe to take in every state of the invariant, and keeps the invariant |
| TrackerRace.DebtsStay | internal/plugin/ssl/tracker.go:83-160 | A request, re-check or rollback owed for a key stays owed until the action that settles it |
| TrackerRace.StepKeepsInv | internal/plugin/ssl/tracker.go:83-160 | Every step but a failed rollback keeps: a tracked key is managed, or a requester or remover still owes something for it |
| TrackerRace.RunKeepsInvIff | internal/plugin/ssl/tracker.go:83-160 | Over every interleaving of any number of requesters and removers, the invariant holds throughout if and only if every failed rollback was harmless when it failed |
| TrackerRace.RunKeepsInv | internal/plugin/ssl/tracker.go:83-160 | The invariant holds at the end of every run whose failed rollbacks were harmless |
| TrackerRace.TrackedIsManaged | internal/plugin/ssl/tracker.go:83-160 | Once all of them have finished, every tracked key is managed by the provider, if failed rollbacks were harmless |
| TrackerRace.FailedRollbackKeepsIff | internal/plugin/ssl/tracker.go:150-159 | A failed rollback keeps the invariant if and only if the key is untracked, managed, or owed by someone else |
| TrackerRace.FailedRollbackStrands | internal/plugin/ssl/tracker.go:150-159 | A run that ends with a key tracked and not managed after a failed rollback |
| TrackerRace.StrayIff | internal/plugin/ssl/tracker.go:83-160 | Every managed key stays tracked or about to be removed, if and only if a successful request or rollback finds its key so, and a request that gives up finds its key unmanaged or about to be removed |
| TrackerRace.RemovalStaysOwed | internal/plugin/ssl/tracker.go:134-142 | The removal of a stale key is owed from the walk that finds it until the provider has dropped it |
| TrackerRace.NeverStrayIff | internal/plugin/ssl/tracker.go:83-160 | A run never has a managed key that is neither tracked nor about to be removed, if and only if each of its actions met that condition when it was taken |
| TrackerRace.ManagedIsTracked | internal/plugin/ssl/tracker.go:83-160 | Once all of them have finished, under both conditions, exactly the tracked keys are managed |
| TrackerRace.ManagedMayBeUntracked | internal/plugin/ssl/tracker.go:111-118 | A run in which a late failure untracks a key that another requester has had managed |
| TrackerRace.LateProvisionStrays | internal/plugin/ssl/tracker.go:111-119 | A run in which a request that outlasts a whole removal leaves its key managed and untracked |
| TrackedProvider.Provider.RequestCertificate | internal/plugin/ssl/tracker.go:83-131 | With any steps of others between its sections, the code is a run of the step relation whose own steps are the claim, the request and, if that failed, the delete; it succeeds if and only if the key was tracked or the provider succeeds |
| TrackedProvider.Provider.Expire | internal/plugin/ssl/tracker.go:240-274 | The walk's section drops the stale keys as one step, and owes their removal |
| TrackedProvider.Provider.RemoveManaged | internal/plugin/ssl/tracker.go:134-160 | With any steps of others in between, the own steps are the drop, the provider's removal, the re-check, and one rollback for each key that is tracked again |
| TrackedProvider.Provider.DropAll | internal/plugin/ssl/tracker.go:136-141 | The loop drops exactly the given keys |
| TrackedProvider.Provider.FindAgain | internal/plugin/ssl/tracker.go:145-153 | The loop finds exactly the given keys that are tracked |
| TrackedProvider.Provider.RollBack | internal/plugin/ssl/tracker.go:154-159 | The loop makes one request for each key found, whatever others do before each |
| TrackerCommit.CommitPreciseIff | internal/plugin/ssl/tracker.go:238-276 | One provider's turn drops and unmanages exactly the stale keys if and only if every stale key of another provider is unmanaged and its namesake stale or unknown |
| TrackerCommit.CommitAllPreciseIff | internal/plugin/ssl/tracker.go:214-279 | A whole commit at one instant drops and unmanages exactly the stale keys if and only if that condition holds for the provider whose turn comes first, which the order of a map picks |
| TrackerCommit.CommitSingleProvider | internal/plugin/ssl/tracker.go:214-279 | With one provider: committed keys get a fresh time and a date that does not go back, committed dates agree with the track, and exactly the stale keys go |
| TrackerCommit.CommitMixesProviders | internal/plugin/ssl/tracker.go:243-273 | With two providers and one identity, the stale key of one takes the committed key of the other with it |
| TrackerCommit.CommitCountIff | internal/plugin/ssl/tracker.go:221-278 | The count returned is at least the number of dates modified, and equal to it if and only if no later turn finds a newer certificate for a key whose date the first turn had to correct |
| TrackerCommit.CommitCountsTwice | internal/plugin/ssl/tracker.go:254-257 | Two providers and one changed date that is counted twice |
| TrackerCommit.DatesNeverGoBack | internal/plugin/ssl/tracker.go:325-343 | Over any operations, a key tracked throughout never has its expiry date decrease |
| TrackerCommit.TurnCerts | internal/plugin/ssl/tracker.go:243-264 | After a turn, a committed key that stays holds the polled certificate, whole, when that expires later, and its own otherwise, with the time of the turn; any other key keeps its entry |
| TrackerCommit.CertsAreSupplied | internal/plugin/ssl/tracker.go:83-343 | Over any operations, the certificate tracked for a key is the one it had, the empty one of a claim, or one that an update or a poll supplied for that key, entire |
| TrackerCommit.StaysIff | internal/plugin/ssl/tracker.go:240-276 | A tracked key stays if and only if it is committed or tracked since the deadline, and is not the namesake at this provider of a stale key |
| TrackerCommit.EntriesAre | internal/plugin/ssl/tracker.go:102-107 | A claim adds an empty entry with its own time; an update replaces the certificate when none had arrived or it expires later; nothing else changes |
| TrackerCommit.Tracker.UpdateTrack | internal/plugin/ssl/tracker.go:325-343 | A certificate replaces the tracked one when none had arrived or it expires later; it is delivered when told to always, or when told to and it was recorded |
| TrackerCommit.Tracker.Claim | internal/plugin/ssl/tracker.go:83-107 | The first requester of a key inserts it and owns the request; later ones do not |
| TrackerCommit.Tracker.RequestCertificate | internal/plugin/ssl/tracker.go:83-131 | Alone, a failed request leaves the tracker as it was, and a successful one tracks and manages the key, records the certificate that has arrived unless one was recorded before, and delivers the recorded one |
| TrackerCommit.Tracker.Walk | internal/plugin/ssl/tracker.go:243-273 | The loop over the track refreshes committed entries, drops stale ones, lists their identities, and counts exactly the dates that changed |
| TrackerCommit.Tracker.RemoveManaged | internal/plugin/ssl/tracker.go:134-160 | Alone, exactly the given identities of the provider are untracked and unmanaged, and nothing is rolled back |
| TrackerCommit.Tracker.CommitProvider | internal/plugin/ssl/tracker.go:236-279 | One provider's turn: the walk followed by the removal |
| TrackerCommit.Commit | internal/plugin/ssl/tracker.go:214-279 | The turns of all providers, one after the other, and the sum of the dates that each turn changes |
| SchemaRefs.UnescapeInvertsEscape | internal/schema/schema.go:346-349 | Unescaping a reference token inverts escaping, for every string |
| SchemaRefs.EscapedHasNoSlash | internal/schema/schema.go:346-349 | An escaped name contains no slash, so it is a single token |
| SchemaRefs.PluginsOfAre | internal/schema/schema.go:207-225 | A plugin is defined if and only if its section describes it with a schema, which is its definition |
| SchemaRefs.SplitRef | internal/schema/schema.go:264-276 | A generated reference splits into the section of the definitions and the escaped name |
| SchemaRefs.RefResolves | internal/schema/validator.go:176-199 | A reference to a definition resolves to exactly that definition in any document that has the section |
| NormalizedSchema.PluginRefsResolve | internal/schema/schema.go:178-205 | Every reference that the normalised document holds for a plugin, in the items of routes, plugin configs or global rules, resolves in it to that plugin's schema |
| NormalizedSchema.StreamRefsResolve | internal/schema/schema.go:178-205 | The same for stream routes and stream plugins |
| NormalizedSchema.NormalizeSchema | internal/schema/schema.go:178-205 | Fails if and only if there is no main section; otherwise the top level with the metadata schema, the version and the definitions added |
| NormalizedSchema.RootKeywords | internal/schema/schema.go:192-204 | The document is an object with no other properties, of the schema version, and lists the plugins' metadata when there is any |
| NormalizedSchema.BuildTopLevelSchema | internal/schema/schema.go:351-366 | The loop wraps each kind of resource that the main section has, with its id enforced, under its own key |
| NormalizedSchema.EnforcedKeepsRefs | internal/schema/schema.go:383-408 | Enforcing the id of a resource, strictly or not, leaves its plugin references alone |
| NormalizedSchema.EnforcedIs | internal/schema/schema.go:383-443 | The id is described as it was or, strictly, as a string, not empty by default, with string alternatives only, and is required with all that was; no other property or keyword changes |
| NormalizedSchema.ResourceAt | internal/schema/schema.go:351-366 | No kind of resource overwrites another |
| SchemaRefs.ResolveRef | internal/schema/validator.go:176-199 | The loop over the tokens follows the reference, or gives nil at the first token that leads nowhere |
| SchemaRefs.ResolveToken | internal/schema/validator.go:183-196 | One token: an unescaped key of an object, or an index in range of an array |
| Pointers.NodeResolves | internal/schema/validator.go:176-199 | Every node of a document but the root is what the pointer to it, keys escaped and positions in decimal, resolves to |
| Pointers.NothingResolves | internal/schema/validator.go:181-196 | A pointer through an absent key, a position beyond the end or a scalar resolves to nothing |
| SchemaRefs.BuildPluginsSchema | internal/schema/schema.go:264-276 | The loop builds one reference for each plugin and no other property |
| SchemaDefaults.RefShrinks | internal/schema/validator.go:92-101 | Following an unseen reference leaves fewer unseen references and stays inside the document, which is why the walk ends on every document, cyclic or not |
| SchemaDefaults.DefaultIsOfDocument | internal/schema/validator.go:146-174 | The default found for a schema, through any references, is a default that the document holds |
| DefaultChains.DefaultByChain | internal/schema/validator.go:146-174 | The default of a schema is a non-nil value if and only if a chain of distinct unseen references, through schemas without a default, leads to a schema with it |
| DefaultChains.PresentIff | internal/schema/validator.go:86-125 | After filling an object, a property is there if and only if it was, or some part of the schema that applies to the object has a chain to a default for it |
| DefaultChains.ValueGrows | internal/schema/validator.go:115-123 | Each property ends as what it was, or as the default that the chain leads to, filled by its own schema |
| DefaultChains.UnchangedIffSated | internal/schema/validator.go:86-144 | For every document, filling leaves an instance as it is if and only if no object in it, through references, allOf, properties and items, lacks a property with a default |
| DefaultChains.FilledIsSated | internal/schema/validator.go:86-144 | Where one pass is enough, nothing is lacking after it |
| SchemaDefaults.FilledGrows | internal/schema/validator.go:86-144 | No existing key, scalar or list length changes, and every added value is a non-nil default of the document, possibly with defaults added inside |
| DefaultPasses.FilledIsIdempotent | internal/schema/validator.go:86-144 | Filling a filled instance changes nothing, in every document that has no allOf or whose defaults hold no object |
| DefaultPasses.StableOnGrowth | internal/schema/validator.go:86-144 | When no default holds an object, a schema that adds nothing to an instance adds nothing to whatever the instance grows into |
| DefaultPasses.InertExactly | internal/schema/validator.go:104-123 | A value may be the default of every document, whatever its allOf, with one pass being enough, if and only if it holds no object |
| DefaultPasses.AllOfNeedsTwoPasses | internal/schema/validator.go:104-109 | A schema with an allOf and an object default for which the second pass adds more |
| DefaultsWalk.Walk.GetDefault | internal/schema/validator.go:146-174 | Finds the default to which a chain of references that are not being followed leads, nil if and only if there is none, and restores the seen references |
| DefaultsWalk.Walk.ApplyDefaults | internal/schema/validator.go:86-144 | In place: the instance's own objects, with new ones for the defaults, hold exactly the filled tree, shared nowhere; the seen references are restored exactly |
| DefaultsWalk.Walk.ApplyKeywords | internal/schema/validator.go:104-143 | The same for a schema without a reference: allOf first, then properties or items |
| DefaultsWalk.Walk.ApplyAll | internal/schema/validator.go:105-109 | The loop over allOf fills by each entry in turn |
| DefaultsWalk.Walk.ApplyProps | internal/schema/validator.go:112-125 | The loop over the properties leaves the same object in whatever order it visits them |
| DefaultsWalk.Walk.ApplyProp | internal/schema/validator.go:114-123 | One property: kept and filled inside, or inserted from a non-nil default and filled inside, or left absent |
| DefaultsWalk.Walk.InsertDefault | internal/schema/validator.go:115-119 | A clone of the default, in new objects, is added under the property and nothing else changes |
| DefaultsWalk.Walk.ApplyItems | internal/schema/validator.go:128-143 | The loops over an array fill each item by its schema, in place, and keep the length |
| DefaultsWalk.ApplyDefaults | internal/schema/validator.go:82-84 | The walk from an empty set of seen references: a property of the object is there afterwards if and only if it was or the schema demands it; nothing changes if and only if nothing is lacking, and nothing is lacking afterwards where one pass is enough |
| Cells.Decode | internal/schema/validator.go:152-159 | Decoding a clone gives an equal tree in new objects, none of them twice |
| RetryQueue.RootIsLeast | internal/queue/queue.go:133-145 | The task at the root of the heap comes before every other |
| RetryQueue.LeqTotal | internal/queue/queue.go:178-186 | Any two tasks are ordered |
| RetryQueue.LeqTransitive | internal/queue/queue.go:178-186 | The order on deadline, descending priority and id is transitive |
| RetryQueue.LeqIs | internal/queue/queue.go:178-186 | A task comes no later than another if and only if its deadline is earlier, or equal and its priority higher, or both are equal and its id does not come after the other's, character by character |
| RetryQueue.HeadAfterPush | internal/queue/queue.go:56-67 | After a push the head is the better of the old head and the new task |
| RetryQueue.BatchTasksAre | internal/queue/queue.go:56-67 | A batch holds one new task for each listed id, with its priority and deadline, and no other |
| RetryQueue.ImprovementKept | internal/queue/queue.go:63-65 | Comparing each task with the current head decides whether the head strictly improves over the whole batch |
| RetryQueue.PopsAreSorted | internal/queue/queue.go:178-186 | Tasks each of which comes before all that are left come sorted by deadline, descending priority and id |
| RetryQueue.Queue.HeapPush | internal/queue/queue.go:166-168 | Keeps the heap order and adds exactly the task |
| RetryQueue.Queue.HeapPop | internal/queue/queue.go:170-176 | Keeps the heap order and removes exactly the root |
| RetryQueue.Queue.Batch | internal/queue/queue.go:47-72 | Adds exactly the tasks, and wakes the consumer if and only if the queue was empty or its head strictly improves; keeps the heap, conservation and no-oversleep |
| RetryQueue.Queue.Retry | internal/queue/queue.go:74-93 | The same for one task, or changes nothing when its policy gives up |
| RetryQueue.Queue.Cleanup | internal/queue/queue.go:95-103 | Removes all pending tasks and keeps the invariant |
| RetryQueue.Queue.NextReady | internal/queue/queue.go:133-145 | Returns a task if and only if one is due, and then the first in order; otherwise sleeps until the head is due |
| RetryQueue.Queue.Wake | internal/queue/queue.go:117-130 | A token or the timer ends the sleep, and keeps the invariant |
| RetryQueue.Queue.Pop | internal/queue/queue.go:106-131 | Whatever the clock shows at each look and whatever ends each sleep, returns the first task in order if and only if some look finds it due, and otherwise leaves the queue as it was |
| RetryQueue.Queue.Pops | internal/queue/queue.go:106-145 | Successive pops without pushes, over any clock readings: each task comes before all that are left, they come sorted, and with those left they are the tasks there were |
| RetryQueue.PopRunSnoc | internal/queue/queue.go:133-145 | One more pop extends such a sequence |
| DispatchLoop.NoNotifyIsLost | internal/dispatcher/dispatcher.go:135-169 | In every run, a request that no run has fetched after has left a token or a run about to fetch |
| DispatchLoop.IdleHasServedAll | internal/dispatcher/dispatcher.go:135-169 | When the loop waits without a token, a run started at or after every request so far |
| DispatchLoop.RunsAreRequested | internal/dispatcher/dispatcher.go:135-169 | In every run there are no more runs than requests, and each was dequeued after a request of its own |
| DispatchLoop.SecondNextRun | internal/dispatcher/dispatcher.go:146-169 | Run n+2 starts at least a cooldown after run n |
| DispatchLoop.RateBound | internal/dispatcher/dispatcher.go:301-310 | Run n+2k starts at least k cooldowns after run n, whatever the arrivals and run times |
| DispatchLoop.ConsecutiveRuns | internal/dispatcher/dispatcher.go:146-169 | Consecutive starts are a cooldown apart less the time that the first of them waited |
| DispatchLoop.NextRunIsApartIff | internal/dispatcher/dispatcher.go:146-169 | While a run is under way, every continuation starts the next one a cooldown after it if and only if it did not wait before it started, or has lasted a cooldown already |
| DispatchLoop.EarliestNextRun | internal/dispatcher/dispatcher.go:154-160 | From every such point some continuation starts the next run as soon as the run has finished and the cooldown allows |
| DispatchLoop.RunContinued | internal/dispatcher/dispatcher.go:146-169 | Continuing a run keeps its starts and dequeues and adds only later ones |
| DispatchLoop.ConsecutiveRunsMayMeet | internal/dispatcher/dispatcher.go:146-169 | For every cooldown, a run in which two consecutive starts coincide |
| DispatchLoop.Dispatcher.Notify | internal/dispatcher/dispatcher.go:135-143 | Leaves a token, whether or not there was one |
| DispatchLoop.Dispatcher.WaitForCooldown | internal/dispatcher/dispatcher.go:301-310 | The time left until a cooldown after the previous dequeue, or zero |
| DispatchLoop.Dispatcher.Turn | internal/dispatcher/dispatcher.go:146-169 | One turn of the loop is a dequeue and a start that the step relation allows |

## Left out

- FilledIsIdempotent: a document that has both an allOf and an object default may still be filled in one pass, when no entry reaches into what a later one creates; `InertExactly` says that no condition on the defaults alone admits an object.
- DefaultsWalk.ApplyDefaults: the instance shares nothing with itself, as decoded instances do. The clone of a default through JSON is taken to be equal to it, and the schema document is a value, since the walk does not write to it.
- CacheRefinesAlwaysApply: assumes that hashes separate the payloads that occur; `StaleIff` needs no such assumption. Rendering after the hash is a function of the payload.
- SseServer.RunKeepsInv: assumes that the context of an apply is not cancelled while it notifies; `ApplyKeepsIff` covers the other case.
- SseServer: the handler's loop is a step relation, not a method; keep-alive comments, HTTP headers and write errors are not modelled (a write error ends the handler, which the relation allows at any point). Encoding a reply is an input of `Apply`.
- SseClient: reading and decoding lines, the read timeout, reconnection and backoff.
- IdleAfterSuccessIsCurrent: convergence is stated for a successful last apply, since a failed one is not retried.
- CommitSingleProvider: assumes that all tracked keys belong to one provider; `CommitAllPreciseIff` and `CommitCountIff` cover the others.
- CommitAllPreciseIff: the turns of a commit are taken to be at one instant.
- CommitCountIff: keys carry the name of their provider, not an alias of it.
- TrackerCommit.Tracker.RequestCertificate: with nobody else at work, to say what happens to certificates; `TrackedProvider.Provider.RequestCertificate` has others at work. The same holds of `RemoveManaged`.
- Deliveries made by the walk of a commit, loading and parsing of PEM certificates, and the polling of providers are inputs or left out.
- RetryQueue.Queue.NextReady: one consumer, as in the program; the task's backoff policy is an input, and the clock does not advance inside the call.
- DispatchLoop: context cancellation and the errors of a run, which the loop logs and forgets.
- PluginRefsResolve: the schema of the plugins' metadata is an input, which takes the place of one kind of resource that holds no plugins; the sanitising of the document, which comes after, is not modelled.
- Compiler.Merge: error values and paths are collapsed to one `Err`; which of several errors is reported depends on map order.
- DefaultMergingRules: the paths, priorities and taggers of the rules.
- Merged values of type `map[any]any`, NaN, unsigned and very large numbers as ids; scalars have ordinary equality.
- Typed nil maps are treated as null.
- The merge methods work on values; that a merge shares objects with its fragments is what `Labels` allows for.
- Recorder: the tags of objects, and the eviction of sources; the theorems are about a fixed set of sources. Parsing the validated config is an input.
- SSL target classification, provider routing, the certificate manager, SQL and file inputs, the HTTP and admin interfaces, metrics, logging, the scheduler, the substitution of APISIX variables and the nginx module.
