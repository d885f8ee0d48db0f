# Verification of the document editor, the agent session and three small protocols

A Dafny model of the parts of the repository whose correctness is an argument over many
steps, with proofs. `dafny verify dfyconfig.toml` checks all of it.

* **Document edits** (`packages/ai-shared`). `EditApplier` is the in-place applier: node objects
  with mutable `data` and `children`, and the two indexes `byId` and `parentOf` that every edit
  keeps up to date. It is proved equal, edit by edit, to `EditSemantics`, which says what an edit
  means on tree values. `EditValidation` is the validator, proved to accept exactly the legal
  batches and to report exactly the codes each edit deserves; `EditInputs` is its check of node inputs.
  `EditBatches` proves what a legal batch does as a whole when its destinations are kept.
  `EditLinks` and `EditSkeleton` follow a batch on a map from child to parent, which tells which edits
  are skipped and which moves close a cycle; `EditCycles`, `EditContainment`, `EditMinting` and
  `EditRecycling` give the exact conditions for cycles, for legal edges and for ids and positions;
  `EditPlacement` says where a placed node stands and `EditFields` what becomes of legal fields.
  `EditDistance` is the suggestion finder, `DocumentSerializer` the default-stripping reader with the array
  `Envelopes` it takes off, `DataMerge` the recursive update of a node's data.
* **Session log** (`packages/agent`). `Utf8Chunks` is the chunking of encoded text, `SessionKeys` the
  storage keys, `SessionLog` the append-only log with the exact sequence of writes of an append.
  `AgentSession` is the session machine (owner, sockets, alarm, one creation at a time, eviction),
  `AgentSessionAlarms` when its alarm does what it is for, `AgentSessionTimes` idling, attachment and
  commands told from the history of a run, and `SessionModels` the model choice across evictions.
* **Small machines.** `Webhooks` and `WebhookDelivery` (two-generation de-duplication and the
  claim/acknowledge/apply/release protocol), `EntitlementsCache` (single-flight TTL cache) and
  `ReactNativeClient` (client lifecycle with its bounded buffer). `EntitlementsHistory` and
  `ReactNativeHistory` tell their states from what the server answered and what was called.

How the source's forms are rendered. Objects whose fields change are classes; each method states its
whole new state through a function on values, and the theorems are about those functions, over all
runs. A run is any sequence of steps; a step is what runs between two awaits or under one lock, and
promise callbacks (`then`, `finally`) are steps of their own. `Histories` tells what happened in a
run. A list of sibling nodes is a first-child/next-sibling value, so a loop over children is a recursion over that list. A draw of
`shortId` is the next element of an arbitrary supply `draw`, of which only `Endless` is assumed: it
does not run out of ids that are not yet in use. Clocks and outcomes of I/O are inputs.

## What the code does not give for free

Each of these is a lemma below, with the exact condition or a concrete input.

* The cycle check looks at each move against the committed tree. Two moves that swap siblings into
  each other both pass and close a cycle. A legal batch that keeps its destinations closes none exactly
  when for every move no path of parents, each the destination of an earlier move or else the committed
  parent, leads from its destination up to its node.
* A destination may be removed by an earlier edit of the batch: the edit passes validation and is
  silently skipped. If moves stay out of what the batch drops, an edit is skipped exactly when an earlier
  one drops the part of the tree that holds its destination. For every legal batch, wherever its moves
  go, the skipped edits and the closing moves are read off a map of parents.
* Parent/child legality inside a nested input is not checked (the comment says the caller does), and a
  nested child of a type that cannot be inserted is passed over, with its fields. A batch that keeps its
  destinations leaves a legal tree legal exactly when the edges inside its inputs are legal, and allowed
  fields allowed exactly when all fields of its inputs are.
* Two inserts without an index append in order when run as given, and in reverse once normalized,
  because both carry the committed child count. A normalized append lands last exactly when its
  destination then has no more other children than that count.
* The re-roll of minted ids looks at the current index only, so a new node can be given the id of a
  committed one. Some supply of ids does that exactly when an edit that creates a node comes after, or
  is, one that drops a committed node. The theorems about cycles and skipped edits therefore ask for
  destinations kept, or for a supply that never draws a committed id.
* The root of an insert gets no parent entry, so an edit that would move or remove it later in the same run
  is skipped; the nodes that `replaceChildren` makes get theirs.
* Applying one update patch twice is not applying it once when the patch holds `undefined` inside an
  object that replaces something.
* `levenshtein` with an empty candidate reads past the end of a row. `nearestField` accepts a
  distance up to `min(3, length / 2 + 1)`; its comment says at most 3 and less than half the key's
  length. The code is followed; the two agree exactly for keys of seven or more characters.
* Chunked text is lost when a chunk begins with U+FEFF, because each decode drops a leading byte
  order mark; such texts exist for every chunk size. A stored chunk is empty only if it is the last one and
  the text left for it is a single U+FEFF. Below four bytes per chunk the reader can stay at one offset
  forever.
* A de-duplicated key lives at least one window and is forgotten exactly after two rotations. The
  comment's two windows need other deliveries to come in, since only a claim rotates the generations.
* Two applies of one key never run at once exactly if applies are bound to end within a window of their
  claim. One that takes longer, by however little, can overlap a second one, and its failure then frees the
  second one's claim.
* A delivery is acknowledged before it is applied. Everything acknowledged has a job that runs or has
  succeeded at that moment; if the job then fails, the delivery and its duplicates have been acknowledged and
  nothing is applied until the event is sent again.
* Array envelopes come off one layer deep: unwrapping twice is unwrapping once exactly when no envelope
  holds another.
* Invalidating a person does not cancel a fetch in flight: the old answer is cached afterwards and
  served as fresh.
* `onAlarm` looks at the live agent, awaits the deletion of the alarm, and only then evicts. An agent
  published in between is dropped from the registry while it stays subscribed, and a second one can then
  be subscribed beside it: possible exactly when no agent is live at the check and a creation has
  already read the log. A turn that starts in between is evicted mid-way. A command that starts its
  turn after the eviction talks to an agent nobody is subscribed to: exactly when an alarm evicted that
  agent before.
* A live agent with nobody attached is left without an alarm exactly when it was published with nobody
  attached and no alarm set, and no socket was attached or removed since.
* A published client drops every event exactly when its `init` published it after an `end()` had
  completed and no `end()` completed since. When `init()` starts a run, that can happen without further
  calls exactly when an earlier `end()` still awaits its facade.

## Model

| member | source | states |
|---|---|---|
| DataMerge.MergeData | packages/ai-shared/src/apply-document-edits.ts:236-254 | the loop over the patch entries, in any order, builds the recursive merge |
| DataMerge.MergeRead | packages/ai-shared/src/apply-document-edits.ts:229-254 | path by path: a field the patch does not mention reads as before; a non-object or a deletion in the patch is what is read |
| DataMerge.MergeSelf | packages/ai-shared/src/apply-document-edits.ts:236-254 | a value merged into itself is itself exactly when no object in it holds `undefined` |
| DataMerge.MergeIdempotent | packages/ai-shared/src/apply-document-edits.ts:236-254 | applying a patch twice is applying it once, exactly when the objects it adds hold no deletion |
| EditSemantics.BuildDistinct | packages/ai-shared/src/apply-document-edits.ts:277-303 | minted ids are pairwise distinct and none names an indexed node |
| EditSemantics.BuildMirrors | packages/ai-shared/src/apply-document-edits.ts:277-290 | the created nodes have the shape, types and fields of the input |
| EditSemantics.StepWellFormed | packages/ai-shared/src/apply-document-edits.ts:101-156 | every edit that closes no cycle leaves one tree of distinct ids with the same root; its ids are the old ones minus the dropped plus the created |
| EditEffects.StepRow | packages/ai-shared/src/apply-document-edits.ts:101-156 | every survivor keeps its id and type, only an update changes data, and its child list changes only as the edit says |
| EditEffects.StepUntouched | packages/ai-shared/src/apply-document-edits.ts:101-156 | a subtree that holds none of the edit's nodes is left as it is |
| EditEffects.StepUnder | packages/ai-shared/src/apply-document-edits.ts:120-130 | ancestry among survivors changes only by a move, and only into the moved subtree |
| EditEffects.MoveSub | packages/ai-shared/src/apply-document-edits.ts:120-130 | exactly which ids are below any node after a move |
| EditPlacement.PlacedNearest | packages/ai-shared/src/apply-document-edits.ts:203-222 | a node that an insert or move places stands among the other children, which keep their order, at the position nearest to the index asked for, or last without one; an inserted node is new and looks like its input |
| EditPlacement.PlacedNearestInRun | packages/ai-shared/src/apply-document-edits.ts:203-222 | the same right after any edit of a batch |
| EditPlacement.NearestUnique | packages/ai-shared/src/apply-document-edits.ts:219-222 | there is one nearest position |
| EditPlacement.ReplacedMirrors | packages/ai-shared/src/apply-document-edits.ts:140-155 | after `replaceChildren` a node's children look like the inputs, in their order, and their ids name no other node |
| EditPlacement.InsertedIsFixed | packages/ai-shared/src/apply-document-edits.ts:102-113 | a later move or removal of the root of an insert is skipped, since that root was given no parent entry |
| EditPlacement.ReplacedAreRemovable | packages/ai-shared/src/apply-document-edits.ts:140-155 | the nodes that `replaceChildren` makes have theirs, at every depth, and can be removed |
| EditPlacement.MintedInOrder | packages/ai-shared/src/apply-document-edits.ts:264-290 | the ids an edit reports are those of the nodes it made, each before all below it and before its later siblings |
| EditApplier.ToMutable | packages/ai-shared/src/apply-document-edits.ts:310-317 | the copy consists of fresh nodes that hold the tree |
| EditApplier.FromMutable | packages/ai-shared/src/apply-document-edits.ts:320-327 | reading the nodes back gives the tree they hold |
| EditApplier.InsertChild | packages/ai-shared/src/apply-document-edits.ts:203-211 | splicing at a clamped position is grafting the new subtree there |
| EditApplier.DetachChild | packages/ai-shared/src/apply-document-edits.ts:214-217 | removing the first child of that id cuts exactly that subtree and leaves it intact |
| EditApplier.TreeIndex.constructor | packages/ai-shared/src/apply-document-edits.ts:170-182 | the two indexes hold exactly the nodes of the tree and the parent of each but the root |
| EditApplier.TreeIndex.RegisterSubtree | packages/ai-shared/src/apply-document-edits.ts:185-191 | both indexes gain exactly the subtree; the root's own parent link is left alone |
| EditApplier.TreeIndex.UnregisterSubtrees | packages/ai-shared/src/apply-document-edits.ts:194-200 | both indexes lose exactly the ids of the subtrees |
| EditApplier.TreeIndex.MintUniqueId | packages/ai-shared/src/apply-document-edits.ts:297-303 | the first draw that names no indexed node; the draws before it are used up |
| EditApplier.TreeIndex.NodeInputToMutable | packages/ai-shared/src/apply-document-edits.ts:277-290 | the nodes, the index and the pre-order list of minted ids are those of the built tree |
| EditApplier.TreeIndex.ApplyInsert | packages/ai-shared/src/apply-document-edits.ts:102-113 | nodes and indexes agree with the inserted tree; the new root has no parent entry |
| EditApplier.TreeIndex.ApplyUpdate | packages/ai-shared/src/apply-document-edits.ts:114-119 | nodes and indexes agree with the updated tree |
| EditApplier.TreeIndex.ApplyMove | packages/ai-shared/src/apply-document-edits.ts:120-130 | nodes and indexes agree with the moved tree, and with a cyclic move the nodes hold the relinked rows all the same |
| EditApplier.TreeIndex.ApplyRemove | packages/ai-shared/src/apply-document-edits.ts:131-139 | nodes and indexes agree with the tree without the subtree |
| EditApplier.TreeIndex.ApplyReplaceChildren | packages/ai-shared/src/apply-document-edits.ts:140-155 | nodes and indexes agree with the new child list; each new child has its parent entry |
| EditApplier.TreeIndex.Apply | packages/ai-shared/src/apply-document-edits.ts:101-156 | one edit in place is one edit on tree values, and reports the ids it minted; a move that closes a cycle relinks the rows all the same |
| EditApplier.CycleLeavesRest | packages/ai-shared/src/apply-document-edits.ts:120-130 | after a move that closes a cycle, what hangs below the root is the tree without the moved subtree |
| EditApplier.ApplyDocumentEdits | packages/ai-shared/src/apply-document-edits.ts:93-159 | the in-place run of a batch returns the tree and the minted-id map that the edits mean on tree values; if its last move closes a cycle, the moved subtree is lost |
| EditInputs.InputErrorsExactly | packages/ai-shared/src/document-edits.ts:484-521 | the check of an input reports that its type may not be inserted, or that some input on a path of insertable types has illegal fields, and nothing else |
| EditInputs.EnableAt | packages/ai-shared/src/document-edits.ts:187-192 | the normal form has the same paths to nodes of the same types, each with the flags of its own fields derived |
| EditInputs.EnableOk | packages/ai-shared/src/document-edits.ts:143-154 | flags that keep legal fields legal keep a legal input legal |
| EditValidation.Walk | packages/ai-shared/src/document-edits.ts:378-388 | the index holds exactly the ids of the tree, each with its subtree |
| EditValidation.AnySelfOrDescendant | packages/ai-shared/src/document-edits.ts:416-419 | the search answers membership in the subtree |
| EditValidation.IsProperDescendant | packages/ai-shared/src/document-edits.ts:367-371 | the search answers membership below the node |
| EditValidation.TargetErrors | packages/ai-shared/src/document-edits.ts:263-289 | no error exactly for targets that are neither the root nor a protected type |
| EditValidation.ReportRepeats | packages/ai-shared/src/document-edits.ts:313-329 | an overlap error for exactly the edits whose target an earlier edit already has |
| EditValidation.ReportInside | packages/ai-shared/src/document-edits.ts:331-357 | an overlap error for exactly the edits whose target is strictly below another edit's remove or replace target |
| EditValidation.CheckEdit | packages/ai-shared/src/document-edits.ts:181-245 | reports exactly the codes the edit deserves; none exactly for legal edits, and then the normalized edit |
| EditValidation.ChildrenErrorsExactly | packages/ai-shared/src/document-edits.ts:226-238 | each listed child is checked for its place, its type and its fields, and nothing else is reported |
| EditValidation.LegalIffNothingDeserved | packages/ai-shared/src/document-edits.ts:181-245 | an edit is legal exactly if no code is deserved |
| EditValidation.ValidateDocumentEdits | packages/ai-shared/src/document-edits.ts:159-251 | accepts exactly the legal batches, hands on their normal form, and otherwise names exactly the faulty edits, each with exactly the codes it deserves |
| EditBatches.NestedOrDisjoint | packages/ai-shared/src/document-edits.ts:308-358 | two subtrees are nested or disjoint |
| EditBatches.DroppedPartsDisjoint | packages/ai-shared/src/document-edits.ts:308-358 | the parts a legal batch drops are pairwise disjoint |
| EditBatches.RunIntact | packages/ai-shared/src/document-edits.ts:308-358 | what a pending edit relies on stays as committed while the tree changes |
| EditBatches.NoEditSkipped | packages/ai-shared/src/apply-document-edits.ts:66-68 | with every destination kept, no edit of a legal batch is skipped |
| EditSkeleton.SkeletonFollows | packages/ai-shared/src/apply-document-edits.ts:101-156 | for every legal batch under a fresh supply, a map of parents tells which committed nodes are left and where, and whether the batch closes a cycle |
| EditSkeleton.SkippedExactly | packages/ai-shared/src/apply-document-edits.ts:66-68 | for every such batch, an edit is skipped exactly if a node it names is not left in the map, and closes a cycle exactly if the map leads from its destination to its node |
| EditSkeleton.SkippedIff | packages/ai-shared/src/apply-document-edits.ts:66-68 | if moves stay out of what the batch drops, an edit is skipped exactly if an earlier edit drops the part that holds its destination |
| EditBatches.BatchIds | packages/ai-shared/src/apply-document-edits.ts:93-159 | result ids are committed minus dropped plus created, with no clash |
| EditBatches.BatchSurvivor | packages/ai-shared/src/apply-document-edits.ts:93-159 | survivors keep id and type, and their data up to the batch's own updates |
| EditBatches.BatchOrder | packages/ai-shared/src/apply-document-edits.ts:203-217 | siblings that are neither moved nor dropped keep their relative order |
| EditBatches.PlacementLasts | packages/ai-shared/src/apply-document-edits.ts:102-130 | what an insert or move puts under its parent is still there when the batch ends |
| EditBatches.NormalizedLegal | packages/ai-shared/src/document-edits.ts:143-154 | the batch handed on is legal and unchanged by another round |
| EditBatches.NormalizedConditions | packages/ai-shared/src/document-edits.ts:181-245 | normalizing changes neither condition on destinations |
| EditPlacement.NormalForm | packages/ai-shared/src/document-edits.ts:181-245 | the normalized edit names the same nodes, carries the position nearest to its index among the committed children, and has the flags of its inputs, path by path, or of its patch derived |
| EditCycles.MovesApartRuns | packages/ai-shared/src/document-edits.ts:206-224 | if no move of a legal batch goes into a moved subtree, no edit closes a cycle |
| EditLinks.UnderIffAbove | packages/ai-shared/src/document-edits.ts:416-419 | ancestry in a tree is the existence of a path of parents |
| EditLinks.StepParent | packages/ai-shared/src/apply-document-edits.ts:101-156 | only a move changes the parent of a survivor |
| EditLinks.NewParentIs | packages/ai-shared/src/document-edits.ts:206-224 | in a legal batch a node is moved once at most, so its parent after the moves is that move's destination or else the committed one |
| EditLinks.ProtectedStay | packages/ai-shared/src/document-edits.ts:258-289 | the root, libraries and code components outlast every legal batch, with their type and under their parent, unless they lie below a node that is dropped |
| EditCycles.RunsIffMovesRun | packages/ai-shared/src/document-edits.ts:206-224 | inserts, updates, removals and the ids drawn make no difference to cycles |
| EditCycles.RunsIffNoMoveCloses | packages/ai-shared/src/document-edits.ts:206-224 | a legal batch with destinations kept closes no cycle exactly when no path of parents, as the earlier moves leave them, leads from a move's destination to its node |
| EditCycles.CycleBreaksTree | packages/ai-shared/src/apply-document-edits.ts:120-130 | after a move that closes a cycle the nodes hold no tree at all |
| EditCycles.SwapCloses | packages/ai-shared/src/document-edits.ts:211-217 | two sibling swaps pass validation together and close a cycle |
| EditContainment.ContainmentKept | packages/ai-shared/src/document-edits.ts:181-245 | from a legal tree, with legal inputs, every edge stays legal after every edit, whatever moves there are |
| EditContainment.CreatedLasts | packages/ai-shared/src/apply-document-edits.ts:102-155 | later edits of the batch neither drop nor change what an edit created |
| EditContainment.ContainmentIff | packages/ai-shared/src/document-edits.ts:181-245 | from a legal tree, a legal batch with destinations kept leaves every edge legal exactly if the edges inside every input are legal |
| EditContainment.NestedTypesUnchecked | packages/ai-shared/src/document-edits.ts:514-520 | a legal batch that makes an illegal edge inside a nested input |
| EditFields.FieldsKeptIff | packages/ai-shared/src/document-edits.ts:484-521 | from a document with allowed fields, a legal batch with destinations kept leaves all fields allowed exactly if all fields of its inputs are |
| EditFields.FieldsKept | packages/ai-shared/src/document-edits.ts:484-521 | so it does if every type in its inputs may be inserted |
| EditFields.UpdatedFieldsOk | packages/ai-shared/src/document-edits.ts:196-205 | the fields of a committed node stay allowed through all updates |
| EditMinting.MintedAreNew | packages/ai-shared/src/apply-document-edits.ts:264-303 | minted ids are in the result, in pre-order without repeats, reported once, and none names a survivor |
| EditMinting.RemovedIdComesBack | packages/ai-shared/src/apply-document-edits.ts:292-303 | an id removed earlier in the batch can be minted again |
| EditRecycling.CanMintCommittedIff | packages/ai-shared/src/apply-document-edits.ts:292-303 | some supply of ids gives a new node a committed id exactly if an edit that creates comes after, or is, one that drops |
| EditMinting.InsertBelowRemovedIsSkipped | packages/ai-shared/src/apply-document-edits.ts:103-104 | an insert below a removed node is accepted and then skipped |
| EditMinting.AppendsSwapWhenNormalized | packages/ai-shared/src/document-edits.ts:421-426 | two appends keep their order as given and lose it once normalized |
| EditMinting.AppendLandsLastIff | packages/ai-shared/src/document-edits.ts:421-426 | a normalized append lands last exactly if its destination has no more other children than it had at validation |
| EditDistance.LevenshteinIsDistance | packages/ai-shared/src/document-edits.ts:909-922 | the row fold is the edit distance exactly for a non-empty second string, and otherwise reads past a row |
| EditDistance.LevenshteinIsLeast | packages/ai-shared/src/document-edits.ts:908-922 | the answer is the least cost of any insert/delete/substitute script |
| EditDistance.DistanceReached | packages/ai-shared/src/document-edits.ts:908-922 | some script has that cost |
| EditDistance.LevenshteinMetric | packages/ai-shared/src/document-edits.ts:908-922 | symmetric, zero exactly on equal strings, triangle inequality |
| EditDistance.NearestField | packages/ai-shared/src/document-edits.ts:893-906 | the earliest candidate of least distance, or nothing exactly when none is within 3 edits with all but one of them at most half the key |
| EditDistance.ThresholdAsCommentedIff | packages/ai-shared/src/document-edits.ts:888-904 | the threshold is the commented one exactly for keys of seven or more characters |
| EditDistance.FarSuggestion | packages/ai-shared/src/document-edits.ts:888-904 | a suggestion at the distance of the whole key |
| DocumentSerializer.DeepEqualIsEquality | packages/ai-shared/src/document-serializer.ts:125-137 | counting keys and checking one direction is structural equality |
| DocumentSerializer.StripDefaults | packages/ai-shared/src/document-serializer.ts:147-166 | the fold over the entries builds the stripped value |
| DocumentSerializer.StrippingLossless | packages/ai-shared/src/document-serializer.ts:139-166 | overlaying the stripped value on the default gives the value back exactly when it carries every default key and no empty structure differing from its default |
| DocumentSerializer.StrippingIdempotent | packages/ai-shared/src/document-serializer.ts:139-166 | stripping twice is stripping once, for every value and default |
| DocumentSerializer.StrippingMinimal | packages/ai-shared/src/document-serializer.ts:139-166 | nothing is left that is empty or its default, at every depth where both are objects |
| DocumentSerializer.CleanNode | packages/ai-shared/src/document-serializer.ts:168-218 | the draft filled key by key is the rendering of the node |
| DocumentSerializer.DepthOnlyCuts | packages/ai-shared/src/document-serializer.ts:175-177 | rendering to a depth is the full rendering cut at that depth |
| DocumentSerializer.CleanShows | packages/ai-shared/src/document-serializer.ts:168-239 | every node down to the limit is shown in full with its name, and one level below as a stub that counts its children |
| DocumentSerializer.CleaningLosslessIff | packages/ai-shared/src/document-serializer.ts:168-218 | a document without code components is recovered from the full rendering of its stored form, in which arrays hold envelopes, exactly if every node is faithful |
| DocumentSerializer.SourceNotShown | packages/ai-shared/src/document-serializer.ts:186-200 | a code component shows its path and the length of its source and no other field; sources of one length are rendered alike |
| Envelopes.UnwrapRecovers | packages/ai-shared/src/mimic-introspection.ts:123-151 | unwrapping gives back whatever value was stored with its array elements in envelopes |
| Envelopes.UnwrapFixedIff | packages/ai-shared/src/mimic-introspection.ts:123-151 | it leaves a value alone exactly if no array in it holds an envelope |
| Envelopes.UnwrapTwiceIff | packages/ai-shared/src/mimic-introspection.ts:117-122 | unwrapping twice is unwrapping once exactly if no envelope holds another |
| Utf8Chunks.DecodeEncoded | packages/agent/src/SessionLog.ts:136-143 | strict UTF-8 decoding undoes encoding |
| Utf8Chunks.EncodeDecoded | packages/agent/src/SessionLog.ts:136-143 | only the encoding of a text decodes to it |
| Utf8Chunks.FindsBoundary | packages/agent/src/SessionLog.ts:138-139 | from a character boundary, the step back ends on the last boundary within the limit, at most three bytes back |
| Utf8Chunks.ReadsTextChunks | packages/agent/src/SessionLog.ts:140-145 | with a limit of four or more the loop always advances and cuts on boundaries |
| Utf8Chunks.ChunksPartition | packages/agent/src/SessionLog.ts:135-146 | the chunks make up the text, none is empty, each encodes within the limit |
| Utf8Chunks.ChunkingIff | packages/agent/src/SessionLog.ts:135-146 | they are the only cut of the text into non-empty chunks within the limit that leaves no room for the next chunk's first character |
| Utf8Chunks.RoundTrip | packages/agent/src/SessionLog.ts:135-146 | joining the stored chunks gives the text back exactly when no chunk begins with U+FEFF |
| Utf8Chunks.LimitOfFourNeeded | packages/agent/src/SessionLog.ts:138-145 | below four bytes the loop can stay at one offset |
| Utf8Chunks.BomAfterFullChunkIsLost | packages/agent/src/SessionLog.ts:137-143 | at every limit some text is not recovered |
| SessionKeys.KeysNeverCollide | packages/agent/src/SessionLog.ts:106-112 | different keys are different strings, for every index and chunk number, also wider than the padding |
| SessionKeys.KeysSortByIndex | packages/agent/src/SessionLog.ts:106-112 | up to the padded number of digits, keys sort as entries do and chunk keys as chunks do |
| SessionLog.DurableEntity.PutEntry | packages/agent/src/SessionLog.ts:223-232 | an entry's chunks are written in order, then its record |
| SessionLog.DurableEntity.AppendSessionLog | packages/agent/src/SessionLog.ts:208-250 | the writes of an append are, entry by entry, a greedy cut of its text into values of at most 122880 bytes with its count, and then the log record; and the entries it returns |
| SessionLog.AppendWrites | packages/agent/src/SessionLog.ts:208-250 | the same for the write sequence of any append |
| SessionLog.AppendValuesFit | packages/agent/src/SessionLog.ts:20 | every chunk an append writes fits into one value |
| SessionLog.EntryValues | packages/agent/src/SessionLog.ts:135-146 | a chunk is empty only as the last of a text that ends in U+FEFF; without that character no chunk leaves room for the first character of the next |
| SessionLog.EmptyChunkWritten | packages/agent/src/SessionLog.ts:135-146 | a text that fills one value and ends in U+FEFF has an empty second chunk |
| SessionLog.ReadLogIff | packages/agent/src/SessionLog.ts:178-187 | the log reads as a list exactly if each counted entry reads as the one in its place |
| SessionLog.ReadEntryIff | packages/agent/src/SessionLog.ts:148-176 | an entry reads exactly if its record counts its chunks, each is stored as a text, and together they decode |
| SessionLog.EmptyLogIff | packages/agent/src/SessionLog.ts:114-121 | the log reads as empty unless its record counts a positive safe number of entries |
| SessionLog.InterruptedAppendInvisible | packages/agent/src/SessionLog.ts:217-248 | after any strict prefix of the writes the log reads exactly as before |
| SessionLog.CompleteAppendVisible | packages/agent/src/SessionLog.ts:148-248 | after all writes the log reads as the old log followed by the new entries, over any leftover chunks |
| SessionLog.StampedLinked | packages/agent/src/SessionLog.ts:217-246 | each new entry's parent is the entry before it, the first one's the old head; ids, times and bodies are taken in order |
| SessionLog.AttemptKeepsChain | packages/agent/src/SessionLog.ts:208-250 | an append, cut short anywhere or complete, keeps the log one chain |
| SessionLog.LogIsOneChain | packages/agent/src/SessionLog.ts:208-250 | over any run of appends the log is one chain that holds exactly the committed entries, counted and headed by its record |
| SessionLog.EmptyStoreIsChain | packages/agent/src/SessionLog.ts:114-121 | the empty store is such a log |
| AgentSession.Session.EnsureOwner | packages/agent/src/SessionLog.ts:269-284 | stores the first owner and grants exactly the stored one |
| AgentSession.Session.Connect | packages/agent/src/AgentSessionCore.ts:223-246 | grants exactly the stored owner, or anyone if there is none yet |
| AgentSession.Session.GetOrCreate | packages/agent/src/AgentSessionCore.ts:470-497 | the live agent, the pending creation, a new one, or denial, as the specification step says |
| AgentSession.Session.Publish | packages/agent/src/AgentSessionCore.ts:533-543 | the agent is subscribed and published in one step |
| AgentSession.Session.CheckPrompt | packages/agent/src/AgentSessionCore.ts:391-414 | a prompt goes on to the host exactly if no turn runs |
| AgentSession.Session.StartPrompt | packages/agent/src/AgentSessionCore.ts:415-417 | the turn starts after the host answered, whatever happened meanwhile |
| AgentSession.Session.CheckAlarm | packages/agent/src/AgentSessionCore.ts:444-457 | goes on to evict exactly when due, nobody is attached and no turn runs, and remembers the agent it saw |
| AgentSession.Session.FinishAlarm | packages/agent/src/AgentSessionCore.ts:457-461 | unsubscribes the agent seen then and clears the registry without another look |
| AgentSession.SessionSafety | packages/agent/src/AgentSessionCore.ts:223-546 | over all interleavings: the owner never changes once set, attached connections and all agents share it, no command is denied, the live agent is subscribed, one creation at a time and none beside a live agent |
| AgentSessionTimes.AlarmExactly | packages/agent/src/AgentSessionCore.ts:249-262 | over all runs the alarm is set to one idle timeout after the moment since which the session idles: a removal that left nobody attached, or an expired alarm in a turn, with no attachment or expired alarm since |
| AgentSessionTimes.EvictsAfterIdleIff | packages/agent/src/AgentSessionCore.ts:436-464 | a check decides to evict exactly if the session has idled for one timeout at least, nobody is attached and no turn runs |
| AgentSessionTimes.IdleMeansAlone | packages/agent/src/AgentSessionCore.ts:249-262 | nobody was attached at any moment since then |
| AgentSessionTimes.ConnectionsExactly | packages/agent/src/AgentSessionCore.ts:223-262 | over all runs a connection is attached exactly if it was and has not been removed since, and rejected exactly if its owner is not the stored one |
| AgentSessionTimes.MadeExactly | packages/agent/src/AgentSessionCore.ts:500-546 | over all runs a creation has made an agent exactly if it published it |
| AgentSessionTimes.CommandsExactly | packages/agent/src/AgentSessionCore.ts:391-417 | over all runs a command waits for the creation it joined, holds the agent live when it asked or made by that creation, and prepares a prompt if no turn ran when that was checked, each until its next stage |
| AgentSessionAlarms.EvictionKeepsOneSubscribedIff | packages/agent/src/AgentSessionCore.ts:457-461 | the eviction leaves exactly the live agent subscribed if and only if the live agent is still the one it saw |
| AgentSessionAlarms.SubscribedExactly | packages/agent/src/AgentSessionCore.ts:452-461 | over all runs an agent is subscribed exactly if it is live or was orphaned by an alarm that never saw it, and unsubscribed exactly if an alarm evicted it |
| AgentSessionAlarms.OneSubscribedIff | packages/agent/src/AgentSessionCore.ts:452-461 | a run leaves at most the live agent subscribed exactly if no alarm orphaned an agent |
| AgentSessionAlarms.DecisionSafeIff | packages/agent/src/AgentSessionCore.ts:452-461 | when the alarm decides, some continuation leaves an agent subscribed that is not live exactly if none is live and a creation has read the log |
| AgentSessionAlarms.StreamingExactly | packages/agent/src/AgentSessionCore.ts:391-417 | over all runs an agent streams exactly if a turn of it started and has not ended |
| AgentSessionAlarms.EvictsIdleIff | packages/agent/src/AgentSessionCore.ts:444-461 | from check to end nobody is attached and the agent seen stays live; it is evicted in a turn exactly if one started in between and runs |
| AgentSessionAlarms.OnlyAlarmsEvict | packages/agent/src/AgentSessionCore.ts:436-464 | the live agent is lost in no other way |
| AgentSessionAlarms.TurnUnloggedIff | packages/agent/src/AgentSessionCore.ts:391-433 | a turn starts on an unsubscribed agent exactly if an alarm evicted it before |
| AgentSessionAlarms.ArmedLostIff | packages/agent/src/AgentSessionCore.ts:436-497 | a live agent loses its alarm in one step exactly by being published with nobody attached and no alarm set |
| AgentSessionAlarms.LeakedExactly | packages/agent/src/AgentSessionCore.ts:436-497 | over all runs it is without an alarm exactly if that happened and no socket was attached or removed since |
| AgentSessionAlarms.TwoSubscribed | packages/agent/src/AgentSessionCore.ts:452-461 | a run after which two agents are subscribed |
| AgentSessionAlarms.EvictedInTurn | packages/agent/src/AgentSessionCore.ts:452-461 | a run in which a streaming agent is evicted |
| AgentSessionAlarms.PromptAfterEviction | packages/agent/src/AgentSessionCore.ts:391-433 | a run in which a turn runs on an unsubscribed agent |
| AgentSessionAlarms.LateCommandLeaksAgent | packages/agent/src/AgentSessionCore.ts:436-497 | a run that leaves a live agent which no alarm evicts |
| SessionModels.SessionModel.GetOrCreate | packages/agent/src/AgentSessionCore.ts:508-543 | a new agent has the model of the last model change in the log, if it still resolves |
| SessionModels.SessionModel.ChooseModel | packages/agent/src/AgentSessionCore.ts:365-385 | a resolved model is set and logged; an unknown one changes nothing |
| SessionModels.ModelFollowsLog | packages/agent/src/AgentSessionCore.ts:523-532 | the live agent always has the model the log says |
| SessionModels.NewAgentsModel | packages/agent/src/AgentSessionCore.ts:508-532 | a new agent's model is given by the last known choice of the run, and is the standard model without one |
| SessionModels.AgentHasLastChoice | packages/agent/src/AgentSessionCore.ts:365-385 | with a factory that restores what it resolves, any agent has the last chosen model, whatever was evicted |
| SessionModels.MessagesAreTurns | packages/agent/src/SessionLog.ts:287-293 | a new agent is given the messages of all turns so far, in order |
| SessionModels.EvictionsInvisibleIff | packages/agent/src/AgentSessionCore.ts:365-385 | log, messages and model of every run equal those without its evictions, exactly when every resolvable model restores to itself |
| Webhooks.DedupeSet.Claim | examples/backend-go/webhooks.go:183-198 | the answer and the new generations of a claim |
| Webhooks.DedupeSet.Release | examples/backend-go/webhooks.go:200-207 | forgets the key in both generations |
| Webhooks.DedupeSet.RotateLocked | examples/backend-go/webhooks.go:209-216 | rotates exactly when a window has passed |
| Webhooks.GenerationsHold | examples/backend-go/webhooks.go:160-216 | the sets hold exactly the unreleased granted claims of this generation and the one before |
| Webhooks.ClaimRefusedIff | examples/backend-go/webhooks.go:183-198 | a claim is refused exactly when an unreleased granted claim of the key is at most one rotation old |
| Webhooks.GrantsMoreThanWindowApart | examples/backend-go/webhooks.go:160-216 | two granted claims of a key without a release between are more than a window apart |
| Webhooks.BusyWindowsForget | examples/backend-go/webhooks.go:162-164 | what the two-window bound needs: a claim of any key a window later and another window after it |
| Webhooks.IdleSetNeverForgets | examples/backend-go/webhooks.go:162-164 | without other claims a key is remembered for any time |
| WebhookDelivery.WebhookServer.HandleWebhook | examples/backend-go/webhooks.go:45-88 | acknowledges exactly the verified deliveries of a configured server, tells the other cases apart, and starts one job for exactly each granted claim |
| WebhookDelivery.WebhookServer.DispatchWebhook | examples/backend-go/webhooks.go:90-99 | a failed apply releases its key, a successful one does not |
| WebhookDelivery.JobsExactly | examples/backend-go/webhooks.go:75-99 | over all runs the jobs are exactly the granted deliveries, and each has succeeded or failed exactly if it ended so |
| WebhookDelivery.AcknowledgedHasJob | examples/backend-go/webhooks.go:75-88 | whatever is acknowledged, new or duplicate, has a job of its key that has not failed |
| WebhookDelivery.AcknowledgedThenFailed | examples/backend-go/webhooks.go:82-99 | a run in which a delivery and its duplicate are acknowledged and the only job fails |
| WebhookDelivery.PromptRunsAreSafe | examples/backend-go/webhooks.go:75-99 | the invariant of all interleavings in which every apply ends within a window |
| WebhookDelivery.OneApplyAtATime | examples/backend-go/webhooks.go:75-99 | at most one apply per key in flight, and none starts within a window of a claim that succeeded |
| WebhookDelivery.ReleaseFreesOwnClaim | examples/backend-go/webhooks.go:90-97 | a failing apply frees no claim but its own |
| WebhookDelivery.FailedApplyIsRetried | examples/backend-go/webhooks.go:91-97 | after a failure the key can be claimed until somebody does |
| WebhookDelivery.NoOverlapIff | examples/backend-go/webhooks.go:75-99 | applies that end within a limit never overlap, in any run, exactly if the limit is at most a window |
| WebhookDelivery.SlowApplyOverlaps | examples/backend-go/webhooks.go:75-99 | an apply one time unit longer than a window can overlap the next, and free its claim |
| EntitlementsCache.Cache.Resolve | examples/backend-node/src/entitlements-cache.ts:142-150 | fresh answer, joined fetch or new fetch, as the specification step says |
| EntitlementsCache.Cache.Refresh | examples/backend-node/src/entitlements-cache.ts:116-136 | the fetch in flight or a new one, recorded |
| EntitlementsCache.Cache.GrantsArrived | examples/backend-node/src/entitlements-cache.ts:91-114 | an unknown person has no grants, any other failure rejects, and the entry says whether the perk is held |
| EntitlementsCache.Cache.HasActiveGrant | examples/backend-node/src/entitlements-cache.ts:110-112 | true exactly when an active grant holds the perk |
| EntitlementsCache.Cache.Resumed | examples/backend-node/src/entitlements-cache.ts:149-166 | the answer after the await: fetched, stale or unavailable |
| EntitlementsCache.AtMostOneFetch | examples/backend-node/src/entitlements-cache.ts:116-136 | over all interleavings, two fetches of one person are never both under way |
| EntitlementsCache.OnePerkId | examples/backend-node/src/entitlements-cache.ts:72-89 | one perk id decides every entry of a run |
| EntitlementsCache.FreshAnswer | examples/backend-node/src/entitlements-cache.ts:142-150 | an answer that is not stale was stored less than the TTL before the call, or by a fetch in flight during it |
| EntitlementsCache.AnswerAfterFailure | examples/backend-node/src/entitlements-cache.ts:151-166 | any other answer follows a failed fetch: the entry cached at the call, too old, or an error exactly when there was none |
| EntitlementsCache.StepKeepsSound | examples/backend-node/src/entitlements-cache.ts:91-168 | every step keeps the invariant that justifies every answer |
| EntitlementsCache.FailureIsNotDenial | examples/backend-node/src/entitlements-cache.ts:46-47 | once an answer is cached no failure removes it or turns a later call away |
| EntitlementsHistory.FetchedExactly | examples/backend-node/src/entitlements-cache.ts:91-114 | over all runs a fetch has an entry exactly if the server answered it, with the grants and at the time of that answer, and ends without one exactly if it failed |
| EntitlementsHistory.FailedNeverAnswers | examples/backend-node/src/entitlements-cache.ts:97-104 | a failed fetch never has an entry, whatever follows |
| EntitlementsHistory.FailureServesSame | examples/backend-node/src/entitlements-cache.ts:149-166 | while every fetch of the person fails, the cached entry stays the same one and every later call is answered with it, as stale exactly if it was too old |
| EntitlementsHistory.ProExactly | examples/backend-node/src/entitlements-cache.ts:106-113 | an entry says yes exactly if its grants hold an active one of a perk id that was found |
| EntitlementsHistory.OnePerkFound | examples/backend-node/src/entitlements-cache.ts:72-89 | a run finds at most one perk id |
| EntitlementsHistory.FetchStartsAfresh | examples/backend-node/src/entitlements-cache.ts:55-58 | a failed lookup poisons no later fetch |
| EntitlementsHistory.CachedExactly | examples/backend-node/src/entitlements-cache.ts:124-141 | over all runs an entry is cached exactly if a fetch of the person landed with it and neither another nor an invalidation came since |
| EntitlementsHistory.ResolveAnswers | examples/backend-node/src/entitlements-cache.ts:142-150 | a call is answered at once exactly if an entry younger than the TTL is cached, and otherwise waits for the one fetch of its person |
| EntitlementsCache.InvalidationHoldsIff | examples/backend-node/src/entitlements-cache.ts:139-141 | after an invalidation all answers are fetched anew exactly when no usable fetch was in flight |
| ReactNativeClient.VoidhashClient.Capture | libraries/react-native/src/client.tsx:1212-1256 | the four ways of a captured event, and the eviction of the oldest |
| ReactNativeClient.VoidhashClient.Init | libraries/react-native/src/client.tsx:554-570 | joins, returns, or starts a run |
| ReactNativeClient.VoidhashClient.InitSettled | libraries/react-native/src/client.tsx:580-623 | the client is published and the buffer handed over before the next await |
| ReactNativeClient.VoidhashClient.EndSettled | libraries/react-native/src/client.tsx:742-751 | the current client is dropped and the client marked ended |
| ReactNativeClient.RunsAreSound | libraries/react-native/src/client.tsx:554-688 | over all interleavings: the buffer is the latest 100 accepted events, and while a transfer is awaited it is what was handed over, so clearing it loses nothing |
| ReactNativeClient.AtMostOneInit | libraries/react-native/src/client.tsx:554-570 | at most one run of `init` is active |
| ReactNativeClient.EventConservation | libraries/react-native/src/client.tsx:1212-1256 | each captured non-blank event is in exactly one of handed on, waiting, evicted, dropped |
| ReactNativeClient.HandedInOrder | libraries/react-native/src/client.tsx:617-632 | facades are handed events in capture order |
| ReactNativeClient.EvictKeeps | libraries/react-native/src/client.tsx:1234-1251 | eviction moves the oldest events, each to exactly one place |
| ReactNativeClient.SerialEndsStayConsistent | libraries/react-native/src/client.tsx:727-755 | with one `end` at a time, events are dropped only while no client is published |
| ReactNativeClient.StuckStep | libraries/react-native/src/client.tsx:572-755 | a published client starts to drop events exactly by being published while ended, and stops exactly by another `end` |
| ReactNativeClient.StuckExactly | libraries/react-native/src/client.tsx:572-755 | the same over all runs |
| ReactNativeClient.InitSafeIff | libraries/react-native/src/client.tsx:554-755 | when `init` starts a run, its client can come to drop events without further calls exactly if an earlier `end` awaits its facade |
| ReactNativeClient.OverlappingEndsDropEvents | libraries/react-native/src/client.tsx:727-755 | a run of two overlapping ends that leaves a published client dropping events |
| ReactNativeHistory.TrimTrims | libraries/react-native/src/client.tsx:1231 | what is buffered is what stands between the spaces a name begins and ends with |
| ReactNativeHistory.TrimmedUnique | libraries/react-native/src/client.tsx:1231 | and there is one such string |
| ReactNativeHistory.NamesAndBound | libraries/react-native/src/client.tsx:1230-1252 | over all runs the buffer holds the latest accepted events, at most 100; buffered events carry their trimmed name, never a blank one, also when handed over, and others keep theirs |
| ReactNativeHistory.EventsExactly | libraries/react-native/src/client.tsx:1212-1256 | over all runs: dropped exactly if captured while ended; handed over exactly if captured while the client was published or buffered when it was; accepted exactly if captured before that and not cleared since |
| ReactNativeHistory.ClientExactly | libraries/react-native/src/client.tsx:554-755 | over all runs which client is published, and whether the client counts as ended, told from publications, completed `end` calls and `init` calls |

## Left out

- EditApplier.ApplyDocumentEdits: edits that come after a move that closed a cycle are not followed. A later move can heal the cycle, and emptying a node of it would recurse without end.
- EditApplier.TreeIndex.NodeInputToMutable: that a field named `id`, `type` or `children` of an input could overwrite or shadow a structural one is not modelled; inputs carry their data as a map.
- EditCycles.MovesApartRuns: assumes a supply that never draws a committed id, or destinations kept, because of the re-rolled ids described above.
- DocumentSerializer.CleaningLosslessIff: the default tables are parameters; code components, whose source is never shown, are excluded; that a data field named `id`, `type` or `children` would overwrite a structural one is not modelled, nor is the choice of the subtree to render.
- SessionLog.CompleteAppendVisible: assumes that JSON encoding and decoding are inverse on the entry, and that the count stays a safe integer.
- AgentSessionTimes.EvictsAfterIdleIff: for a session that no former process left an alarm for; AgentSessionTimes.AlarmExactly covers both.
- AgentSession.SessionSafety: one session id; commands come only from connections whose `connect` returned true. The agent is opaque apart from its owner, its streaming flag and its subscription; the per-session command lock is not relied on. At most one subscribed agent is not promised: see AgentSessionAlarms.OneSubscribedIff.
- SessionModels.EvictionsInvisibleIff: commands are whole, so evictions fall between them, and the factory gives a new agent the same standard model each time. Connection data are not modelled.
- WebhookDelivery.WebhookServer.DispatchWebhook: whether an apply succeeds is an input; signature checking, the digest that makes the key and the decoding of payloads are not modelled.
- EntitlementsCache.FreshAnswer: the pages of the perk lookup are one step, and a lookup counts as settled when its failure handler has run.
- ReactNativeClient.RunsAreSound: handed on means given to the facade client; a transfer that the facade answers with an error is logged and the events are gone. Event properties, subscriptions and background flushes are not modelled.
- Document trees have distinct ids, as decoded documents do. Schema tables (`canBeChildOf`, field schemas, style flags) are abstract functions; error messages are reduced to codes.
- JSON objects are finite maps: key order, prototype keys, NaN and lone surrogates are not modelled. Malformed UTF-8 cannot arise from an encoded text and decodes to nothing.
- `Arr.getUnsafe` past the end of a row is modelled as a failed read; what the library does then is not part of this model.
- Time subtraction in the Go window check is exact; durations of centuries saturate there.
- Session index updates, broadcasts, protocol decoding, wire codecs, SDK wrappers, HMAC checks, the Rust and Node de-duplicators, the Go and Rust caches and all user interface code: easier versions of members above, or no state to model.
