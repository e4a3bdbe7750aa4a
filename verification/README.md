# Leptos: protocols and algorithms behind hot reload, streaming and suspense

A Dafny model of six parts of Leptos, with proofs of what they are relied on for.

- **Hot-reload diff** (`EditDistance`, `EditTable`, `Template`, `Patching`, `TreeDiff`, `OldIndex`, `InPlace`,
  `DiffCorrect`, `Slots`, `Moves`, `ViewMacroPatching`). `LNode::diff` fills an edit-distance table in place, walks it
  backwards and emits a patch script. From any live tree of the old template the script, if it applies, leaves a live
  tree of the new one, and for a static new template it always applies and leaves exactly its tree. It is built on a
  script of least length and changes the live tree in place; its `unreachable!()` is unreachable; every path in it is
  the position of an equal old node. A run on the old template with slots for its dynamic parts decides whether it
  applies to every document and whether dynamic parts keep their content. Over a run of edits a browser mirror follows
  the stored views.
- **Server data stream** (`SsrRun`, `SsrSafety`, `SsrHistory`, `SsrStream`). The snapshot, `poll_next` and the tail as
  a step system in which registrations interleave anywhere. In every reachable state futures and errors are conserved, ids are
  announced before they are resolved, each with the data of its own future, and markers arrive once and in order. The
  loops of `poll_next` are methods, each shown to be a run of that system.
- **Ids and hydration** (`DataIds`, `Hydration`). Up and down root counters wrapping at 2^64, nested scopes, decimal
  and dash-joined rendering: ids are pairwise distinct exactly as long as no counter space is exhausted, and do not
  depend on timing. Sessions interleave the stream with the client's probes for incomplete chunks.
- **Load-once resource** (`OnceResource`). Loader, pollers and suspense readers interleaving one lock section at a time:
  no lost wake-up, a safe `unwrap`, every suspense handle released.
- **Suspense readiness** (`Suspense`). When the boundary is ready, what has finished is closed under what the view
  reads, exactly if no task slipped in between the last walk and its check.
- **Literals, hash, title** (`JsLiteral`, `JsonPayload`, `StableHash`, `Title`). What JavaScript reads back of the
  streamed literals; the finalizer's bijection; the two title stacks over whole runs of view life cycles.

Emitted text is modelled as a sequence of commands, and the client as a replay of them; the literals inside that text
are modelled separately as strings. A future is the finite tree of its polls, each of which may call back into the
shared context. `ReplacementNode::Html` is represented by the template it was rendered from, and document trees keep
attributes as maps. Source procedures that change things step by step are methods or classes whose contracts equate
the new state with a specification function; the lemmas are about those functions.

Where the code does not do what one would like, that is a result, with a concrete run and the exact condition:

- a `Path` of a script is looked up in the document as it is when its patch is applied; by then the node may be gone
  (`MovedNodeMayBeGone`) or the path lead to another one (`MovedNodeMayBeAnother`), and for blocks that change places
  nothing is emitted at all (`SwappedBlocksStay`). `AppliesExactly` and `PreservesExactly` say when a script is right,
  by a test on the two templates. The paths stored below a component are not those patches use (`StoredPathExactly`);
- a client that probes for incomplete chunks before the stream is over misses later markers (`EarlyProbeMisses`,
  `AnswersAgreeExactly`). The server integration starts hydration after the whole stream;
- a task that finishes between a walk and the check after it makes a suspense boundary ready too early
  (`FinishingDuringAWalkBreaksIt`, `ReadyExactly`);
- an error message with a NUL before an octal digit is not read back (`ErrorRoundTrip`);
- an edit that moves or renames views leaves the mirror behind (`SyncExactlyWhenTracked`), and ids repeat once a
  counter space is exhausted (`DistinctExactlyWithinLimits`).

## Model

| member | source | states |
|---|---|---|
| `EditDistance.NoShorterScript` | leptos_hot_reload/src/diff.rs:254-274 | no sequence of child insertions, removals and substitutions, at whatever positions and in whatever order, is shorter than the distance the table computes |
| `EditDistance.EditMovesDistByOne` | leptos_hot_reload/src/diff.rs:264-274 | one edit anywhere in a list changes its distance to any other list by at most one |
| `EditDistance.CostIsDist` | leptos_hot_reload/src/diff.rs:254-274 | the table's recurrence over cells is the distance of the two prefixes a cell stands for |
| `EditDistance.WalkNeverStuck` | leptos_hot_reload/src/diff.rs:277-317 | from every cell but the origin one of the four branches applies: `unreachable!()` is never reached |
| `EditDistance.BacktraceLength` | leptos_hot_reload/src/diff.rs:275-317 | the walk from a cell takes exactly as many non-matching steps as the cell says |
| `EditDistance.BacktraceTransforms` | leptos_hot_reload/src/diff.rs:275-317 | at every moment of the walk the list is the untouched old prefix followed by a finished suffix, and the remaining steps turn it into the new list |
| `EditDistance.CostIsLeast` | leptos_hot_reload/src/diff.rs:254-317 | for every pair of prefixes the cell holds the least script length: the walk's own script attains it and none is shorter |
| `EditTable.InitBorders` | leptos_hot_reload/src/diff.rs:254-263 | the first row and the first column of the flat table hold their distance to the empty list |
| `EditTable.SetAt` | leptos_hot_reload/src/diff.rs:264-274 | writing the flat cell of a row and column changes that entry and no other |
| `EditTable.FillCell` | leptos_hot_reload/src/diff.rs:266-272 | one cell computed from its three neighbours holds its cost, and the cells before it keep theirs |
| `EditTable.FillTable` | leptos_hot_reload/src/diff.rs:254-274 | after the in-place loops every cell holds the cost of its two prefixes |
| `Template.RenderAll` | leptos_hot_reload/src/node.rs:138-182 | children are rendered one by one and in order |
| `Template.StaticAttrsShown` | leptos_hot_reload/src/node.rs:159-170 | an attribute map shows a list of literal, uniquely named attributes exactly when it is the rendered one |
| `Template.StaticShownExactly` | leptos_hot_reload/src/node.rs:138-182 | a static template has exactly one live tree, the one its markup stands for |
| `Patching.PathExtends` | leptos_hot_reload/src/patch.js:439-459 | addressing a child is addressing its parent and then the child, for reading and for replacing |
| `Patching.ApplyConcat` | leptos_hot_reload/src/patch.js:40-172 | a script applied in two parts is the second part applied to the result of the first |
| `TreeDiff.OldChildren.Add` | leptos_hot_reload/src/diff.rs:64-96 | the recursive loops over children build exactly the index whose meaning `OldIndex.IndexExact` states |
| `TreeDiff.OldChildren.AddList` | leptos_hot_reload/src/diff.rs:66-72 | one loop over children, with each child's position appended to the path |
| `TreeDiff.TableDecides` | leptos_hot_reload/src/diff.rs:278-315 | on a filled table the chain of comparisons picks the move of the recurrence and never falls through |
| `TreeDiff.WalkStep` | leptos_hot_reload/src/diff.rs:277-317 | one turn of the loop emits the next part of the walk's patches and makes `i + j` smaller |
| `TreeDiff.WalkBack` | leptos_hot_reload/src/diff.rs:275-319 | the loop terminates with the patches of the whole backward walk |
| `TreeDiff.ComputeMove` | leptos_hot_reload/src/diff.rs:282-312 | the patches of one substitution, removal or insertion |
| `TreeDiff.ComputeDiffChildren` | leptos_hot_reload/src/diff.rs:230-321 | the child patches for all four cases of empty and non-empty lists |
| `TreeDiff.ComputeDiffAt` | leptos_hot_reload/src/diff.rs:98-181 | the patches for every pair of node kinds; what they do is stated by `DiffCorrect.DiffAtApplies`, and which nodes they may replace by `OldIndex.OnlyOtherKindsReplaced` |
| `TreeDiff.ComputeDiff` | leptos_hot_reload/src/diff.rs:10-14 | the whole script for two templates, whose meaning `DiffCorrect.DiffShowsNew` states |
| `OldIndex.IndexSound` | leptos_hot_reload/src/diff.rs:64-96 | every stored path leads to a node equal to its key |
| `OldIndex.IndexComplete` | leptos_hot_reload/src/diff.rs:64-96 | every block and component of the tree, at whatever depth, is a key |
| `OldIndex.IndexExact` | leptos_hot_reload/src/diff.rs:64-96 | a node is a key if and only if it is a block or component occurring in the old tree, and its path leads to an equal node |
| `OldIndex.IndexKeepsLast` | leptos_hot_reload/src/diff.rs:64-96 | of equal nodes the last one, from left to right and parents before children, is the one whose path is kept |
| `OldIndex.StoredPathExactly` | leptos_hot_reload/src/diff.rs:84-91 | the path stored for a node is the one at which patches address it (two levels deeper below a component, diff.rs:169-171) if and only if no component encloses the node |
| `OldIndex.PatchPathExtends` | leptos_hot_reload/src/diff.rs:168-177 | the recursion of the diff goes from the path of a position to those of its children, two levels deeper below a component |
| `OldIndex.ReplacementDenotes` | leptos_hot_reload/src/diff.rs:16-62 | in a replacement a dynamic node of the old tree is the path of its last occurrence, a text or other dynamic node its markup, and an element or fragment is rebuilt part by part |
| `OldIndex.PatchesNameEqualNodes` | leptos_hot_reload/src/diff.rs:10-62 | for any two templates every node a patch brings in is a node of the new template, as `ReplacementDenotes` says or, appended to an empty list, as markup; so every path in it is the position of an equal old node |
| `OldIndex.OnlyOtherKindsReplaced` | leptos_hot_reload/src/diff.rs:104-111 | a `ReplaceWith` is only ever addressed to an old node, at the path patches have for it, for which the new template has a node of another kind, and brings in that node |
| `OldIndex.StaticPathFree` | leptos_hot_reload/src/diff.rs:16-62 | a script towards a static template never moves old nodes |
| `OldIndex.WalkIsBacktrace` | leptos_hot_reload/src/diff.rs:275-317 | the patches of the walk are those of the least edit script, step by step |
| `OldIndex.ChildPatchesAreLeast` | leptos_hot_reload/src/diff.rs:254-319 | the child patches come from an edit script of least length between the two child lists |
| `DiffCorrect.RenderShows` | leptos_hot_reload/src/node.rs:138-182 | the rendered markup of any template is a live tree of it |
| `DiffCorrect.ReplacementBuilds` | leptos_hot_reload/src/diff.rs:16-62 | whatever a replacement builds, with copies of dynamic content or not, is a live tree of its template; without paths it always builds |
| `DiffCorrect.AttrsApply` | leptos_hot_reload/src/diff.rs:183-228 | after the attribute patches each attribute has exactly the expected value: unchanged and non-literal ones what they had, changed literal ones their value, changed boolean ones the empty string, those that are gone none; nothing else is touched |
| `DiffCorrect.ReplacementAttrsShow` | leptos_hot_reload/src/diff.rs:39-51 | a rebuilt element has its literal attributes with their values, its boolean ones with their own names, and no others |
| `DiffCorrect.DiffAtApplies` | leptos_hot_reload/src/diff.rs:98-181 | for any two nodes, the patches, if they apply, rewrite the live node at their path into one of the new template and nothing else in the document; and they do it in place: matched children stay the same trees, substituted ones come out of their predecessors, blocks and differently named components keep their content |
| `DiffCorrect.InsideApplies` | leptos_hot_reload/src/diff.rs:157-178 | for two components of equal name: if the node two levels below has children that show the old children, afterwards it has children that show the new ones, changed in place likewise |
| `DiffCorrect.LocalScript` | leptos_hot_reload/src/diff.rs:168-178 | patches addressed inside one node, such as those between the children of two components, change that node only |
| `DiffCorrect.DiffChildrenApplies` | leptos_hot_reload/src/diff.rs:230-321 | the child patches, if they apply, turn live children of the old list into live children of the new one |
| `DiffCorrect.WalkApplies` | leptos_hot_reload/src/diff.rs:275-317 | midway the live children are the untouched first `i` followed by finished ones from `j` on; the rest of the walk, if it applies, finishes the list, each matched child being the same tree as before; without moved nodes every index and path is valid at its turn |
| `DiffCorrect.DiffShowsNew` | leptos_hot_reload/src/diff.rs:10-14 | for any two templates, blocks and components included: from every live tree of the old one the script, if it applies, leaves a live tree of the new one that came out of it in place; it applies if it has no path and no component of either template has children |
| `DiffCorrect.DiffIsCorrect` | leptos_hot_reload/src/diff.rs:10-14 | for any old template and any static new one, the script turns every live tree of the old into exactly the tree of the new |
| `Slots.ScriptFills` | leptos_hot_reload/src/patch.js:40-172 | a script that applies to a tree with slots applies to every filling of the slots, and does the same to it |
| `Slots.BareDecides` | leptos_hot_reload/src/diff.rs:10-14 | a script that applies to the document of the old template without any dynamic content applies to the tree with slots |
| `Slots.AppliesExactly` | leptos_hot_reload/src/diff.rs:10-14 | the script applies to every document (a tree without slots) of the old template if and only if it applies to the one tree that has a slot for every dynamic part, which needs the two templates only |
| `Slots.MarkDecides` | leptos_hot_reload/src/diff.rs:20-23 | if the content of a dynamic part survives the script in the document that marks just this part, its slot survives in the tree with slots |
| `Slots.PreservesExactly` | leptos_hot_reload/src/diff.rs:20-23 | in every document the dynamic parts that stay or are copied keep their content if and only if they do in the tree with slots |
| `Moves.MovedNodeMayBeGone` | leptos_hot_reload/src/diff.rs:20-23 | two small templates whose script applies to no live tree: an earlier patch has already replaced the parent of the node to be copied |
| `Moves.MovedNodeMayBeAnother` | leptos_hot_reload/src/diff.rs:20-23 | two small templates whose script applies to no live tree: an earlier insertion has shifted the block, and its path leads to the inserted text |
| `Moves.CopyIsKept` | leptos_hot_reload/src/diff.rs:20-23 | a script with a path that applies to every live tree and copies the content of the block |
| `Moves.SwappedBlocksStay` | leptos_hot_reload/src/diff.rs:179-179 | no patch is emitted for two blocks that change places, so their content is preserved only where both show the same |
| `ViewMacroPatching.ViewMacros.PatchFile` | leptos_hot_reload/src/lib.rs:102-137 | all four outcomes: parse failure and unknown file leave the store alone, a changed view count stores without patches, otherwise the diffs of the changed views are returned and the views stored |
| `ViewMacroPatching.DiffsReceived` | leptos_hot_reload/src/lib.rs:108-122 | a mirror that knows every view can apply the whole patch set if and only if every single script applies, and then ends with every changed view patched once |
| `ViewMacroPatching.EditKeepsSync` | leptos_hot_reload/src/lib.rs:102-137 | an edit that keeps the view ids in place and writes no attribute twice, whatever it moves: a mirror receives it exactly if every script applies, and then shows the newly stored views |
| `ViewMacroPatching.EditReceivedExactly` | leptos_hot_reload/src/lib.rs:102-137 | every mirror of documents in step receives such an edit if and only if each changed pair of templates passes the test of `Slots.AppliesExactly` |
| `ViewMacroPatching.RunKeepsSync` | leptos_hot_reload/src/lib.rs:102-137 | over any run of such edits a mirror that receives them shows the stored views after each, and it receives them all if each passes the test |
| `ViewMacroPatching.SyncExactlyWhenTracked` | leptos_hot_reload/src/lib.rs:108-136 | with static templates and distinct ids, an arbitrary edit leaves the mirror in step if and only if every view keeps its place or its id already showed the same tree |
| `SsrRun.ErrorsReplayed` | hydration_context/src/ssr.rs:474-490 | replaying a drain adds to the client exactly the errors whose boundary is not sealed, in order |
| `SsrRun.MarkersReplayed` | hydration_context/src/ssr.rs:461-472 | replaying marker pushes appends exactly those markers, in order |
| `SsrSafety.StepConservesFutures` | hydration_context/src/ssr.rs:193-310 | every step keeps each registered future in exactly one of staged, in flight, or resolved |
| `SsrSafety.PollConservesFutures` | hydration_context/src/ssr.rs:413-444 | the same for one poll, including futures it registers itself |
| `SsrSafety.StepKeepsAnnouncements` | hydration_context/src/ssr.rs:205-211 | every step keeps: no id resolved before it is pending, pending are the snapshot and the resolved ids and nothing else, no snapshot id is pushed |
| `SsrSafety.ResolutionAnnounced` | hydration_context/src/ssr.rs:425-443 | an id that was not in the snapshot is announced just before its resolution, and never again if no id was registered twice |
| `SsrSafety.StepKeepsMarkers` | hydration_context/src/ssr.rs:287-308 | every step keeps the client's markers equal to the server's up to the cursor; after the tail they are equal |
| `SsrSafety.StepConservesErrors` | hydration_context/src/ssr.rs:169-191 | every step keeps: the errors taken so far followed by those buffered are the registered ones in order, the client has exactly the delivered ones, and only errors of sealed boundaries were dropped |
| `SsrSafety.DrainConservesErrors` | hydration_context/src/ssr.rs:474-490 | the same for a drain: each error is streamed once or dropped because its boundary is sealed |
| `SsrSafety.SnapshotConservesErrors` | hydration_context/src/ssr.rs:233-251 | the same for the initial chunk, which takes every buffered error whatever is sealed |
| `SsrSafety.EveryRunSafe` | hydration_context/src/ssr.rs:193-310 | in every state of every interleaving of outside registrations with the stream's sections: futures conserved, announced first and at most once, markers in order, errors conserved |
| `SsrSafety.EndResolvesAll` | hydration_context/src/ssr.rs:492-501 | when the stream may end, every registered future has been resolved exactly as often as it was registered, and the client holds exactly those ids |
| `SsrSafety.SealedStaysSilent` | hydration_context/src/ssr.rs:186-191 | over any continuation after a boundary is sealed, none of its errors is streamed |
| `SsrHistory.EffectsRecorded` | hydration_context/src/ssr.rs:134-191 | calls into the context add exactly what they say: futures to the staging buffer, errors to the error buffer, markers to the marker list, boundaries to the sealed ones |
| `SsrHistory.RunRecorded` | hydration_context/src/ssr.rs:134-191 | over any run the registrations, errors, markers and seals are exactly those of the effects of its steps, in order |
| `SsrHistory.SealSilences` | hydration_context/src/ssr.rs:186-191 | once the snapshot is out, no error of a boundary is streamed after the call that seals it |
| `SsrHistory.SnapshotShowsAll` | hydration_context/src/ssr.rs:193-269 | the initial chunk gives the client every id, marker and error there is so far, and nothing else |
| `SsrHistory.ResolvedWithOwnData` | hydration_context/src/ssr.rs:422-443 | over every run the client has for an id the final result of a future that was registered for this id |
| `SsrHistory.OneFutureOneResult` | hydration_context/src/ssr.rs:422-443 | an id registered once is resolved with the result of its future, or not yet |
| `SsrHistory.EndDeliversAll` | hydration_context/src/ssr.rs:492-501 | when the stream may end, exactly the results of all registered futures have been written, each as often as registered |
| `SsrStream.PollUsesOne` | hydration_context/src/ssr.rs:422-444 | a poll uses up exactly one unit of the remaining work, whatever it registers |
| `SsrStream.PollBudget` | hydration_context/src/ssr.rs:413-455 | over any run, polls made plus work left equal the work brought in from outside |
| `SsrStream.SsrSharedContext.Perform` | hydration_context/src/ssr.rs:134-191 | each registration changes the context as its step of the system does |
| `SsrStream.SsrSharedContext.PendingData` | hydration_context/src/ssr.rs:193-289 | the initial chunk and the stream with its cursor and snapshot ids are those of the snapshot step |
| `SsrStream.SsrSharedContext.GetIncompleteChunk` | hydration_context/src/ssr.rs:337-343 | the server answers by membership in the whole marker list |
| `SsrStream.AsyncDataStream.PollOne` | hydration_context/src/ssr.rs:422-444 | a polled future either stays in flight silently or leaves it with its announcement and resolution, whose data `SsrHistory.ResolvedWithOwnData` fixes; it no longer waits for its first poll |
| `SsrStream.AsyncDataStream.PollInFlight` | hydration_context/src/ssr.rs:422-424 | polling pushed and woken futures is a run of the system that ends; an item means work was used up; without an item every future in flight has had its first poll, unless two polls woke their own futures |
| `SsrStream.AsyncDataStream.Stage` | hydration_context/src/ssr.rs:414-419 | staged futures move to the in-flight set, none lost, to wait for their first poll |
| `SsrStream.AsyncDataStream.DrainReady` | hydration_context/src/ssr.rs:421-444 | the inner loop terminates and writes exactly what the steps it made emit |
| `SsrStream.AsyncDataStream.StageAndDrain` | hydration_context/src/ssr.rs:413-444 | one staging and draining; if nothing resolved and nothing is in flight, nothing is staged either |
| `SsrStream.AsyncDataStream.Round` | hydration_context/src/ssr.rs:413-455 | one turn of the outer loop extends the run so far, uses up work if there is another turn, and otherwise strands nothing |
| `SsrStream.AsyncDataStream.DriveFutures` | hydration_context/src/ssr.rs:413-455 | the outer loop terminates for every finite future forest, leaves nothing staged when nothing is in flight, and strands nothing: what is staged at its end was registered after the last resolution, and everything in flight has been polled unless two polls woke their own futures |
| `SsrStream.AsyncDataStream.FlushMarkers` | hydration_context/src/ssr.rs:461-472 | the markers past the cursor are written and the cursor moves to the end |
| `SsrStream.AsyncDataStream.DrainErrors` | hydration_context/src/ssr.rs:474-490 | the error buffer is emptied and the unsealed ones written |
| `SsrStream.AsyncDataStream.Gather` | hydration_context/src/ssr.rs:404-490 | a call writes its resolutions, then the markers past the cursor, then the unsealed errors, in this order, and leaves nothing past the cursor or buffered |
| `SsrStream.AsyncDataStream.PollNext` | hydration_context/src/ssr.rs:396-507 | the call terminates and is a run of the system; its text is what the run emits; `None` only when nothing is staged, in flight, past the cursor or buffered; `Pending` only with something in flight; a chunk is never empty; no child of a resolved future is left staged or, unless two polls woke their own futures, unpolled |
| `DataIds.DecimalRoundTrip` | hydration_context/src/lib.rs:60-62 | decimal rendering can be read back and contains no dash |
| `DataIds.RenderInjective` | hydration_context/src/lib.rs:110-113 | two positions in the nesting with the same dash-joined string are the same position |
| `DataIds.SerializedDataIdScope.NextId` | hydration_context/src/lib.rs:110-113 | the id handed out is the parent's with the current count, and the counter steps and wraps |
| `DataIds.SsrIdCounters.NextId` | hydration_context/src/ssr.rs:125-132 | while hydrating the upward counter is used, otherwise the downward one; the other is untouched |
| `DataIds.AllIdsDistinct` | leptos/src/suspense_component.rs:126-127 | all ids of a request, across both root counters and arbitrarily nested scopes, are pairwise distinct strings within the limits |
| `DataIds.DistinctExactlyWithinLimits` | hydration_context/src/ssr.rs:125-132 | the ids of a run are distinct if and only if no scope minted more than 2^64 and the two root counters together no more than 2^64 |
| `DataIds.KthIdFixed` | hydration_context/src/lib.rs:100-114 | whatever is interleaved, the ids of a counter or scope are a fixed sequence of which a run sees a prefix |
| `DataIds.IdFollowsAddress` | hydration_context/src/lib.rs:87-114 | in every run the id at an address (which mint of a root counter, then which mint in the scope opened on that id, and so on) is a function of the address |
| `DataIds.TimingIndependent` | hydration_context/src/lib.rs:87-98 | any two interleavings give the same id to the same address, however the scopes take turns |
| `DataIds.HydratingIdsFixed` | hydration_context/src/ssr.rs:125-132 | the n-th hydrating root id does not depend on the other ids minted in between |
| `DataIds.FirstIds` | hydration_context/src/lib.rs:54-62 | the first ids of the upward counter are `0` and so on, and the first one nested in `3` is `3-0` |
| `DataIds.FirstDownId` | hydration_context/src/ssr.rs:129-129 | the first id of the downward counter is the largest 64-bit number |
| `Hydration.HydrateSharedContext.NextId` | hydration_context/src/hydrate.rs:130-133 | the client's n-th call returns its n-th root id |
| `Hydration.HydrateSharedContext.GetIncompleteChunk` | hydration_context/src/hydrate.rs:215-218 | a probe is a step of the session: the first one during hydration copies the page's list, later ones answer from the copy, and after hydration the answer is false |
| `Hydration.RootIdsAgree` | hydration_context/src/hydrate.rs:130-133 | the server's hydrating root ids are the client's root ids, one for one, in every run |
| `Hydration.AnswersAgreeExactly` | hydration_context/src/hydrate.rs:215-218 | over every session the client never calls a chunk incomplete that the server does not, and agrees with the server if and only if the list it copied at its first probe has the chunk or the server has no marker for it either |
| `Hydration.FirstProbeReads` | hydration_context/src/hydrate.rs:57-69 | that list is the server's markers up to the cursor of the moment of the first probe, and never changes afterwards |
| `Hydration.CompleteCopyAgrees` | hydration_context/src/hydrate.rs:215-218 | if the copy holds every marker of the server, all answers given while hydrating agree |
| `Hydration.EarlyProbeMisses` | hydration_context/src/hydrate.rs:215-218 | a session in which a marker set after the first probe is never seen, although it has been streamed to the page |
| `Hydration.AnswersAfterTail` | hydration_context/src/ssr.rs:291-308 | after the tail of any run the page's marker list equals the server's, so a first probe made then misses nothing |
| `OnceResource.ArcOnceResource.WriteValue` | leptos_server/src/once_resource.rs:141-141 | the section is the write step of the system and keeps its invariant |
| `OnceResource.ArcOnceResource.TakeSuspenses` | leptos_server/src/once_resource.rs:142-146 | the section is the take step: the handles are those the loader then releases, and the invariant is kept |
| `OnceResource.ArcOnceResource.ClearLoading` | leptos_server/src/once_resource.rs:155-159 | the section is the clear step: the wakers taken are exactly those of the polls that returned Pending, each once |
| `OnceResource.ArcOnceResource.CheckOrRegister` | leptos_server/src/once_resource.rs:403-413 | the section is the poll step: it is pending exactly when the poll of the system is, and keeps the invariant |
| `OnceResource.ArcOnceResource.PushSuspense` | leptos_server/src/once_resource.rs:332-335 | the section is the push step of a reader and keeps the invariant |
| `OnceResource.ArcOnceResource.Poll` | leptos_server/src/once_resource.rs:384-413 | a whole poll is a run of the system: Pending with its waker registered, or the stored value, whose `unwrap` cannot fail |
| `OnceResource.ArcOnceResource.TryRead` | leptos_server/src/once_resource.rs:321-345 | a whole read inside a suspense is a run of the system: a loaded resource takes no handle, otherwise the handle is pushed, a waker registered and the releasing task spawned |
| `OnceResource.ArcOnceResource.Load` | leptos_server/src/once_resource.rs:141-162 | the loader's sections in their order are a run of the system: it releases the handles it took and wakes exactly the polls that returned Pending, each once |
| `OnceResource.StepKeeps` | leptos_server/src/once_resource.rs:130-164 | every step keeps: flag, loader and value agree; the waker of a pending poll is in exactly one of the list, the loader's hands, or woken; live handles belong to readers that will release them |
| `OnceResource.FreshWithValue` | leptos_server/src/once_resource.rs:112-124 | a resource whose value the server serialized has it in every run: no loader step is ever possible, no poll is Pending and every finished poll returned it |
| `OnceResource.FreshWithoutValue` | leptos_server/src/once_resource.rs:119-141 | without one, in every run before the loader writes, the flag is set and every poll is Pending |
| `OnceResource.PollsReturnTheValue` | leptos_server/src/once_resource.rs:408-411 | every finished poll of every run returned the value there is, which is the initial one or one the loader wrote |
| `OnceResource.UnwrapSafe` | leptos_server/src/once_resource.rs:408-411 | in every reachable state a poll that saw the flag cleared finds the value |
| `OnceResource.NoLostWakeup` | leptos_server/src/once_resource.rs:155-162 | in every run in which the loader is through, each poll that returned Pending was woken exactly once, any other never, and no waker is left |
| `OnceResource.WakersStayEmpty` | leptos_server/src/once_resource.rs:403-407 | after the loader the waker list stays empty in every continuation |
| `OnceResource.ReaderProgresses` | leptos_server/src/once_resource.rs:321-345 | after the loader every unfinished reader can run, and each of its steps brings it nearer to its end |
| `OnceResource.QuietMeansReleased` | leptos_server/src/once_resource.rs:336-339 | when no reader has anything left to run, every handle ever taken has been released |
| `OnceResource.HandlesAllReleased` | leptos_server/src/once_resource.rs:321-345 | from every state after the loader some run of reader steps, of bounded length, ends with all handles released |
| `OnceResource.ReaderRunsRelease` | leptos_server/src/once_resource.rs:321-345 | after the loader every run of reader steps, in whatever order, is bounded, and when none can be added every handle has been released, also those pushed after the loader took its list |
| `Suspense.TasksReady.Poll` | leptos/src/suspense_component.rs:368-387 | while tasks go on finishing elsewhere, the closure ends and is a run of the system; it is Pending only with a task left, and Ready only with none |
| `Suspense.ReadyExactly` | leptos/src/suspense_component.rs:361-390 | over every run, when a non-strict boundary is ready, what had finished at its last walk is closed under what the view reads if and only if no task that walk revealed finished before the check after it |
| `Suspense.FirstReadyIsClosed` | leptos/src/suspense_component.rs:361-390 | in particular if nothing finishes between the last walk and its check; then the finished resources hold everything repeated reading can reach, and are closed themselves if a walk depends on its own reads only |
| `Suspense.ReadyHasFinished` | leptos/src/suspense_component.rs:368-387 | over any run, a boundary, strict or not, is ready only when it has walked, no task is left and everything its last walk read has finished |
| `Suspense.BecomesReady` | leptos/src/suspense_component.rs:368-387 | once no task is left and the view reads nothing more, one uninterrupted poll makes the boundary ready |
| `Suspense.ClosedHoldsAllReads` | leptos/src/suspense_component.rs:365-367 | a closed set contains every round of reading of a monotone view |
| `Suspense.AtMostOneMoreWalk` | leptos/src/suspense_component.rs:368-387 | over any run, whatever finishes when, the children are walked at most once more than there are resources |
| `Suspense.StrictWalksOnce` | leptos/src/suspense_component.rs:384-385 | a strict boundary has walked its children exactly once when it is ready, whatever finishes meanwhile |
| `Suspense.FinishingDuringAWalkBreaksIt` | leptos/src/suspense_component.rs:378-385 | a four-step run in which the one task a walk reveals finishes before the check: the boundary is ready although the view reads more |
| `StableHash.Fnv1a64` | leptos_macro/src/stable_hash.rs:22-29 | the byte loop computes the finalized fold, whose steps and start the next two rows fix |
| `StableHash.AbsorbIsFnv1a` | leptos_macro/src/stable_hash.rs:25-26 | a step mixes the byte in first and multiplies by the 64-bit FNV prime afterwards |
| `StableHash.PublishedFnv` | leptos_macro/src/stable_hash.rs:11-29 | before the finalizer the empty string and "a" have the published FNV-1a values |
| `StableHash.Fmix64` | leptos_macro/src/stable_hash.rs:32-39 | the five reassignments compute the mix that `MixedBijective` inverts |
| `StableHash.ShiftMixMeans` | leptos_macro/src/stable_hash.rs:33-33 | the shift takes the quotient by 2^33 |
| `StableHash.MixOrder` | leptos_macro/src/stable_hash.rs:34-36 | the two multipliers come in their order: the inverse of the first leads to the second alone |
| `StableHash.ShiftMixInvolution` | leptos_macro/src/stable_hash.rs:33-33 | xor with the word shifted right by 33 undoes itself |
| `StableHash.MixedBijective` | leptos_macro/src/stable_hash.rs:32-39 | the finalizer has a two-sided inverse on 64-bit words |
| `StableHash.CollidesExactlyLikeFnv` | leptos_macro/src/stable_hash.rs:22-29 | two inputs collide if and only if their plain FNV-1a folds do |
| `StableHash.OneByteNeverCollides` | leptos_macro/src/stable_hash.rs:22-29 | inputs of equal length differing in exactly one byte have different hashes |
| `Title.TitleContext.PushTextAndFormatter` | meta/src/title.rs:70-86 | the given parts are pushed on their stacks |
| `Title.TitleContext.UpdateTextAndFormatter` | meta/src/title.rs:88-132 | each part is overwritten in place, removed or pushed, as the entry and the new part are present or absent |
| `Title.TitleContext.RemoveId` | meta/src/title.rs:134-150 | the id's entries are removed and returned |
| `Title.TitleContext.AsString` | meta/src/title.rs:152-175 | the top text through the top formatter, if there is a text |
| `Title.UpdatedFacts` | meta/src/title.rs:88-132 | an update keeps ids from occurring twice, and leaves the id present exactly if there is a new part |
| `Title.UpdatedLookup` | meta/src/title.rs:88-132 | an update leaves the id with exactly the new part, or none, and every other id with its own |
| `Title.UpdatedOrder` | meta/src/title.rs:88-132 | the other entries keep their order, an overwritten entry its place, and a new one comes on top |
| `Title.StepKeeps` | meta/src/title.rs:271-310 | every life-cycle event keeps the ownership invariant |
| `Title.EveryRunSound` | meta/src/title.rs:351-407 | over every run no id is twice in a stack, a mounted view holds nothing itself, and an unmounted or dropped one is in neither stack |
| `Title.CurrentFollows` | meta/src/title.rs:279-407 | building, hydrating and rebuilding set the text and formatter of their view, wherever they are kept; no event changes those of another view, and mounting and unmounting change none |
| `Title.EveryRunKeepsParts` | meta/src/title.rs:279-407 | over every run each view has exactly the text and formatter it was last given |
| `Title.UnmountThenMount` | meta/src/title.rs:380-407 | unmounting and mounting again restores the same text and formatter, moves them to the top and leaves the rest in order |
| `Title.MountShows` | meta/src/title.rs:391-407 | mounting a view with a text makes that text the title, through its own formatter or else the topmost one |
| `Title.HydrateShows` | meta/src/title.rs:351-372 | hydrating a view with a text makes that text the title, as mounting does |
| `Title.RebuildShows` | meta/src/title.rs:299-310 | rebuilding the mounted view whose text is on top makes the new text the title, through the topmost formatter |
| `JsLiteral.HexRoundTrip` | hydration_context/src/ssr.rs:241-242 | a code point written in hexadecimal is read back, and the reader stops at the closing brace |
| `JsLiteral.NoLtLeft` | hydration_context/src/ssr.rs:517-523 | no `<` is left after escaping |
| `JsLiteral.ErrorRoundTrip` | hydration_context/src/ssr.rs:479-487 | JavaScript reads the streamed message back if and only if no NUL stands directly before a digit: before 0 to 7 in a plain script, before 0 to 9 in strict code; and the literal contains no `<` |
| `JsLiteral.SloppyDecodes` | integrations/utils/src/lib.rs:269-274 | a plain script always reads some text of a quoted literal, and a shorter one exactly if a NUL meets an octal digit, which it takes for a legacy octal escape |
| `JsLiteral.DebugRoundTrip` | hydration_context/src/ssr.rs:439-443 | the same for a literal that is only quoted |
| `JsonPayload.TokensEscaped` | hydration_context/src/ssr.rs:438-438 | escaping `<` inside a JSON text changes none of its tokens |
| `JsonPayload.JsonHasNoNul` | hydration_context/src/ssr.rs:439-443 | a JSON text contains no NUL, so the exception of the error literals cannot arise |
| `JsonPayload.PayloadRoundTrip` | hydration_context/src/ssr.rs:438-443 | JavaScript reads a streamed JSON payload back with its `<` still escaped, which has the payload's own tokens with the same string contents, and the literal contains no `<` |

## Left out

- DiffShowsNew: assumes that no element of the new template writes an attribute twice; `ReplaceWith` and paths are read as in the next two lines.
- DiffIsCorrect: `ReplaceWith` replaces whatever it is addressed to; patch.js leaves the content of a component or block alone (leptos_hot_reload/src/patch.js:60-73). The same holds for DiffShowsNew, AppliesExactly and PreservesExactly.
- ReplacementBuilds: a path copies dynamic content (leptos_hot_reload/src/patch.js:252-271); where it leads to a text or an element, which patch.js would move, the script counts as not applying.
- DiffAtApplies: a live tree only has to have a boolean attribute, with any value, because the code writes it in two ways, empty (leptos_hot_reload/src/diff.rs:199-201) and its own name (leptos_hot_reload/src/diff.rs:43-45); `AttrsApply` and `ReplacementAttrsShow` state which.
- PreservesExactly: equal dynamic parts are not told apart, because the index keeps one path for all of them.
- StaticShownExactly: the tree of a template is the one its markup is meant for; `to_html` writes a childless element as `<x />`, which an HTML parser reads as an open tag when siblings follow, and other repairs of an HTML parser are left out too.
- RenderShows: the same reading of markup as `StaticShownExactly`.
- ReadyExactly: the children are still there to be walked, and a walk reads a function of what had finished when it began.
- PendingData: the list of synchronously resolved data is left out, because nothing in the file writes to it.
- ErrorRoundTrip: which characters Rust's `{:?}` writes as code points is a parameter that only has to show digits; escapes that are never written are read as errors.
- PayloadRoundTrip: payloads of codecs other than JSON, whose decoders do not undo the `<` escape.
- Tokens compares JSON texts by punctuation, literals and string contents; numbers are compared character by character.
- TryRead: is one uninterrupted call; interleavings of its sections are the runs of the system.
- Fragments nested in fragments are one level of the live tree, whereas the browser splices them into their parent; so are the HTML comment markers around components and blocks.
- `patch.js` as code: tree walkers, live node lists, the copying of children by `ChangeTagName`, and truthiness of action fields; only the meaning of each action is taken from it. A missing node or index means that the script does not apply, where the browser logs a warning, goes on or throws.
- HTML and template parsing, `syn` and `rstml`, file walking, token generation.
- PollInFlight: `FuturesUnordered` is modelled by its rules: a queue served in order that holds no future twice, a stop after two polls that woke their own futures and after as many polls as there are futures; which futures are woken is arbitrary.
- Staging a child of a future that itself stays pending is not claimed before the next poll of the stream.
- `consume_buffers`, deferred streams, and two streams on one context.
- Memory ordering: sections under a lock and atomic operations are sequentially consistent.
- Loading suppression, triggers and value guards of the load-once resource; a suppressed loader is one that never takes its first step.
- `Owner`, `SuspenseContext` and `SharedTaskHandle`: ids come from the nearest scope, and a handle is released at most once.
- The title pushed while rendering on the server, wrap-around of title ids, and the effect that writes the document's title.
- `either_of`, `const_str_slice_concat`, `any_error`, `any_spawner`, configuration and macro diagnostics: they would only add easy members.
