# A verified model of oci-amber

oci-amber is an OCI registry that keeps images in a content-addressed store. This
project models the parts of it that are hardest to get right and proves what they
promise, for every input, every run and every interleaving. `dafny verify
dfyconfig.toml` checks all of it. No proof uses automatic induction: every lemma carries
`{:induction false}` and says in its body what it inducts on.

## What is modelled

**Root filesystems** (`rootfs/`, `image/rootfs.go`). Layers are merged into a tree
of heap nodes (`MergeTree`, `Builder`) that is proved to behave, operation by
operation, like a flat map from paths to entries (`PathMap`, `Merge`), symlinks,
`..`, hop limit and implicit directories included. For layers whose paths cross no
symlink the flat map obeys declarative whiteout and opaque rules (`LayerRules`; the
sections "Applying Changesets", "Whiteouts" and "Opaque Whiteout" of layer.md in the
OCI image-spec). The tree is written bottom-up as directory objects (`StoredTree`)
and read back by an independent walker (`FsWalker`), which finds for every request
path what the builder's own walk finds; `PathNames` says where a symlink leads from the
names in its target. `LayerEntries` turns tar headers into entries, `HeaderNames` says
which from their names and fields, `LayerParse` pairs them with their contents, and
`RootfsBuild` puts it all together.

**Stream readers.** `Splice` (`rootfs/layer.go`) serves an archive out of a recipe and
cut-out contents with reads and forward seeks; `ChunkReader` (`store/read.go`) reads
and skips over a tree of chunks. Both are proved against a plain byte sequence.

**Accounting** (`store/write.go`, `store/pack.go`). `StoreAccounting` proves that
staging a pack and committing it gives the Stats of writing live, whatever order the
encoders finish in and however the store changed meanwhile. `WriterProtocol` is the
emit, close and abort protocol as a state machine.

**Locks and pipelines.** `KeyedMutex`, `Stager` (the rebuild-ahead pipeline of a save,
with its write loop), `WorkerPool` (the importer's `each`) and `UploadManager` are step
relations over arbitrary interleavings; invariants are proved for every step and lifted
to whole runs.

**References** (`image/`, `oci/`). `OciNames` has the grammar of names and a one-pass
matcher proved equal to it; `RefNames` the printers, parsers and prefix scans;
`ImageRefs` what Put and Delete do to the references, call by call, with a reference
store any call of which may fail.

**Plans.** `SavePlan` (`dockerarchive/write.go`) reads the manifests under exported
images; `ImportPlan` (`dockerarchive/plan.go`) resolves and prunes an archive, and
`Publish` (`importer/importer.go`) orders the puts; `ArchiveOrder` says for which archives
the order is right.

**Uploads** (`upload/`). `UploadSession` moves bytes from a buffer to a file, with
snapshots that share the buffer's array.

`Sums`, `ByteOrder`, `OciManifest` and `Wrappers` hold what several of these need.

## What the code does that a reader might not expect

- A hard link whose own path is the root is not refused, as `put` refuses it: its copy
  hangs in the root under the name `.`, and the tree cannot be stored
  (`LayerEntries.RootHardLinkCannotBeStored`) unless a later layer takes it away with a
  whiteout of that name or an opaque marker on the root
  (`LayerEntries.LaterWhiteoutTakesDot`). A symlink with an empty target is the only other
  thing that keeps an image from being stored (`RootfsBuild.ImageStorableExactly`).
- An index whose children are all in the archive is not rewritten, even when one of the
  children was itself pruned. Its body then names a digest that is never published.
  The publish order holds exactly when this does not occur, which can be told from the
  archive beforehand (`ArchiveOrder.OrderHoldsForArchives`, with
  `Publish.StaleChildExample`).
- The comment on `Put` says that nothing has been published when an internal error is
  returned. In the code a failing publish of the tag or referrer reference leaves the
  ones before it (`image/store.go:262-274`, `ImageRefs.FailedTagPush`); the model follows
  the code, and `ImageRefs.FailedPutPublishesNothingExactly` says when the comment is
  right. Every such prefix keeps the references consistent (`ImageRefs.PutKeeps`).
- A Delete by digest that fails after its first step can leave a tag without a manifest
  (`ImageRefs.StrandedTag`); `ImageRefs.DeleteIsSafeExactly` says when it cannot.
- `Len` of the keyed mutex counts a key whose last holder has let go but has not yet
  counted itself out, beside those held or awaited (`KeyedMutex.LenCountsKeysInUse`).

## Model

| member | source | states |
|---|---|---|
| PathMap.CreateWalkGrows | rootfs/tree.go:72-117 | a creating walk, even through symlinks and `..`, never removes or replaces a directory or symlink, adds only implicit directories, keeps the map a tree and ends in one of its directories or in the loop error |
| PathMap.CreatedPathIsWalkable | rootfs/tree.go:72-117 | after a creating walk succeeds, the non-creating walk of the same components ends in the same place, on the resulting tree and on any that keeps its directories and symlinks |
| PathMap.WalkStaysInside | rootfs/tree.go:72-117 | a walk that ends, ends in a directory of the tree: `..` never leaves the root; it terminates on cyclic symlinks by hops and components left |
| PathNames.JoinSplit | rootfs/tree.go:105 | every string is its components joined with slashes |
| PathNames.SplitJoin | rootfs/tree.go:105 | names without slashes are the components of what they join to |
| PathNames.LinkStandsForItsTarget | rootfs/tree.go:96-106 | whatever its target, a name that is a symlink is walked as the names of the target in its place, from the root if the target begins with a slash, with one more link followed; after forty it is the loop error. So for the plain walk, the creating walk and the reader |
| PathNames.LinkLeadsToItsTarget | rootfs/fs.go:202-210 | a symlink to a directory by names that meet no further link leads into that directory, below the link's own parent or below the root, and the walk goes on from there |
| PathNames.FortyLinks | rootfs/tree.go:13-14 | forty links in a row lead to what the last one names, directory or not; forty-one are a loop |
| Merge.StepsWellFormed | rootfs/tree.go:148-237 | every put, link, whiteout and opaque keeps the flat map a tree: each entry's parent is a directory in it |
| Merge.LoopsAreRefused | rootfs/tree.go:148-237 | an entry is refused as a symlink loop exactly when the way to its place, to what it removes or to what it links to is one |
| MergeTree.Tree.ResolveDir | rootfs/tree.go:72-117 | the loop over heap nodes returns the stack the flat walk describes, creates what it creates, and keeps the nodes a finite unshared tree |
| MergeTree.Tree.Put | rootfs/tree.go:148-186 | put on the node tree is put on the flat map, outcome included, and keeps the nodes a finite unshared tree |
| MergeTree.Tree.LookupNode | rootfs/tree.go:132-142 | lookup finds the node of the flat lookup, follows symlinks in parents only and changes nothing |
| MergeTree.Tree.Link | rootfs/tree.go:191-211 | link copies the target's entry with its own metadata, as on the flat map, and shares no node |
| MergeTree.Tree.Whiteout | rootfs/tree.go:215-226 | whiteout detaches exactly the subtree the flat map loses |
| MergeTree.Tree.OpaqueDir | rootfs/tree.go:230-237 | opaque removes everything strictly below the directory the path resolves to |
| Builder.MergeBuilder.Apply | rootfs/builder.go:52-84 | a layer that parses is applied in two passes, erasures before additions, as ApplyLayer on the flat map; every refused entry is noted in order; one that does not parse changes nothing |
| Builder.MergeBuilder.Record | rootfs/builder.go:87-95 | every skip is counted, only the first hundred are kept |
| LayerRules.LayerFollowsRules | rootfs/builder.go:52-84 | for a layer whose paths cross no symlink that is there when their turn comes, applying it is the declarative rule: whiteouts remove a path and what is below, opaque what is strictly below, a directory over a directory keeps its descendants, anything else drops them, parents become directories |
| LayerRules.PlaceFollowsRule | rootfs/tree.go:121-186 | placing one entry along a path without symlinks is exactly the rule for an added entry |
| LayerRules.EraseStepFollowsRule | rootfs/tree.go:215-237 | a whiteout or opaque marker that meets no symlink in the tree at hand is exactly its rule |
| LayerRules.PlaceStepFollowsRule | rootfs/tree.go:148-211 | an entry whose way meets no symlink is placed by the rule, or left out with its reason: not a directory at the root, a hard link to nothing, a hard link to a directory |
| LayerEntries.ConvertIsLegal | rootfs/layer.go:175-251 | every header without NUL becomes an entry with legal names; it is a hard link at the root exactly for a link header whose cleaned name is the root and whose target stays inside |
| HeaderNames.CleanPathUndoesJoining | rootfs/layer.go:232-244 | a name is read as the path whose components it joins, whatever empty components and `.` stand between them, with or without slashes at either end |
| HeaderNames.NamesMeanTheSame | rootfs/layer.go:232-244 | repeated slashes, `.`, a name before `..` and `..` right after the root change neither the path nor the entry, wherever they stand |
| HeaderNames.RefusedExactly | rootfs/layer.go:232-244 | a name is refused if and only if it is relative and somewhere on the way has gone up more often than down |
| HeaderNames.MarkersMean | rootfs/layer.go:191-206 | `d/.wh.n` is a whiteout of `d/n`, the opaque marker in `d` is opaque on `d`, a whiteout without a name is left out, whatever the type |
| HeaderNames.EntriesMean | rootfs/layer.go:175-229 | any other name is placed with the kind of its type: content, symlink target and device numbers as given, permission bits, owner, time and attributes field by field; other types are left out |
| HeaderNames.HardLinksMean | rootfs/layer.go:214-219 | a hard link header links to the path its target stands for |
| HeaderNames.HardLinksStayInside | rootfs/layer.go:214-219 | it is left out if and only if its target climbs out of the root |
| HeaderNames.LeftOutMean | rootfs/layer.go:185-190 | a header is left out for its name exactly when that climbs out, and as sparse exactly when it is and does not |
| LayerEntries.StepsLegal | rootfs/tree.go:148-211 | one entry keeps every name of a legal tree legal if and only if it is not a hard link at the root that finds something other than a directory to copy |
| LayerEntries.StepsNearly | rootfs/tree.go:148-237 | after any earlier entries, exactly such a hard link puts something under the name `.`, and exactly a whiteout of that name in the root or an opaque marker on the root takes it away |
| LayerEntries.LayerKeepsLegalNames | rootfs/builder.go:52-84 | over whatever lower layers left, a layer leaves only names a directory object accepts, if and only if none of its hard links hangs `.` in its turn and a `.` that was there is taken away by one of its markers |
| LayerEntries.LaterWhiteoutTakesDot | rootfs/layer.go:197-205 | a hard link at the root and then a whiteout of `.` leave the tree as it was |
| LayerParse.PairedIsLegal | rootfs/layer.go:102-251 | the entries parsed from headers without NUL have legal names |
| RootfsBuild.ImageStorableExactly | rootfs/builder.go:52-150 | for whole images: the merged tree can be stored if and only if no layer leaves something under `.` that no later layer takes away, and no symlink that is left has an empty target |
| LayerEntries.StorableExactly | store/dir.go:76-96 | a legal tree can be stored if and only if no symlink has an empty target |
| LayerEntries.RootHardLinkCannotBeStored | rootfs/tree.go:191-211 | a hard link at the root is hung under the name `.` and makes the tree unstorable |
| StoredTree.DirBuilder.AddEntry | store/dir.go:76-96 | accepts an entry exactly when the directory is not finished, its name is legal, its payload fits and its name is after the last one |
| StoredTree.LegalNames | store/dir.go:81-84 | the legal names are those a walk takes for an entry's name, without NUL |
| StoredTree.EmitDir | rootfs/builder.go:109-150 | succeeds exactly when every entry below is storable, stores every directory as an object listing its children in strictly increasing name order, each with its metadata and its content key, link target, device numbers or directory key, and counts the entries below |
| StoredTree.WriteTree | rootfs/builder.go:101-106 | stores the whole tree under one root; its count is the number of non-root nodes |
| ByteOrder.LessByFirstDifference | rootfs/builder.go:112 | the order of names is decided by the first character that differs, or by one name ending there |
| FsWalker.Resolve | rootfs/fs.go:172-221 | the reader's loop computes the reader's walk of the cleaned path over the stored objects |
| FsWalker.WalksAgree | rootfs/fs.go:172-221 | from matching places, for any components, reader and builder walks agree: the same directory, the loop error together, and nothing for the builder exactly when the reader finds nothing, not a directory or a non-directory entry |
| FsWalker.StatAgreesWithBuilder | rootfs/fs.go:82-88 | so they do for every request path on a stored tree |
| FsWalker.ReadsWhatIsThere | rootfs/fs.go:172-221 | from matching places, for any components, the reader reports the very entry the path leads to on the flat map, with its name, payload and metadata, or exactly its error: not found, not a directory, loop |
| FsWalker.StatReadsWhatIsThere | rootfs/fs.go:82-88 | so it does for every request path on a stored tree |
| FsWalker.PlainPathLeadsToItself | rootfs/fs.go:172-221 | a path that meets no symlink leads to its own entry; where there is none, past something that is no directory or to nothing |
| FsWalker.CleanIsProper | rootfs/fs.go:79-84 | a cleaned path has no empty, `.` or `..` component |
| RootfsBuild.BuildRootfs | image/rootfs.go:44-93 | a build is unavailable exactly when a layer does not parse, fails to write exactly when a `.` or an empty symlink target is left, and otherwise stores a tree from which every request path reads the entry the layers merged in order have there, content and metadata included, or its exact error, with exact entry and skip counts |
| RootfsBuild.MergedWellFormed | image/rootfs.go:44-93 | whatever the layers, the merged map is a tree |
| Splice.LocateIsSplice | rootfs/layer.go:297-331 | the region arithmetic finds byte v of the recipe with the contents spliced in |
| Splice.Reader.Read | rootfs/layer.go:352-397 | each byte served at an offset is that byte of the spliced archive, or zero in a region a seek has touched; where the contents are whole a read gets somewhere unless the reader below fails, and the end is reported exactly at the end |
| Splice.Reader.Seek | rootfs/layer.go:400-433 | a forward seek, any recipe piece of which may fail after part of it, lands where asked or stops short, without error only at the end of a recipe that cannot skip, fails only when a piece fails, and touches exactly the regions with a byte in the range it moved over |
| Splice.Reader.RegionAt | rootfs/layer.go:438-445 | hands out a region exactly when the position is in the first one that did not lie behind when it was last looked at, both ends included, and no earlier header got it; the indices increase |
| Splice.HeaderBeforeItsContent | rootfs/layer.go:435-445 | a reader that has read the header in front of a region is in place for it, also when the region is empty |
| Splice.RecipePosition | rootfs/layer.go:317-433 | the recipe reader is always at pos minus the region bytes before pos |
| Splice.ReadThrough | rootfs/layer.go:352-397 | reads alone hand out a prefix of the spliced archive, byte for byte, and all of it once the end was reported |
| Splice.ReadAll | rootfs/layer.go:352-397 | over a reader that does not fail, reading until the end is reported terminates and yields the whole archive |
| LayerParse.ParseLayer | rootfs/layer.go:102-160 | whatever calls archive/tar makes, a parse succeeds if and only if archive/tar does not fail, the headers with content are as many as the index entries, and the i-th was met in region i, zero-length files included; it is then paired with index entry i |
| LayerParse.PairedAt | rootfs/layer.go:140-154 | every header becomes one entry, in order; one with content gets the key whose number is how many with content come before it |
| LayerParse.HeadersJoin | rootfs/layer.go:120-139 | the headers are those archive/tar returned, in order, without the global ones |
| LayerParse.IncreasingFills | rootfs/layer.go:438-445 | n strictly increasing indices below n are 0 to n-1 |
| ChunkReader.Reader.Read | store/read.go:131-147 | where the objects of the file are well formed, whatever else the store holds, a read returns the next bytes of the content and loses none |
| ChunkReader.Reader.Skip | store/read.go:152-201 | after any reads and skips, skipping n leaves exactly the content from n on; it fetches only objects the new position lies strictly inside, each a child of the one before, at most one of them a blob |
| ChunkReader.SkipAndRead | store/read.go:73-201 | skipping n bytes and reading to the end yields the remaining content without its first n bytes |
| ChunkReader.ReadToEnd | store/read.go:102-147 | reading in pieces of any size yields all the content that was left |
| StoreAccounting.Writer.Finish | store/write.go:369-400 | the six Stats fields are the logical, stored, deduplicated and disk sums over what was offered and what the store did not hold |
| StoreAccounting.WriteLive | store/write.go:194-233 | a live writer's Stats depend only on the objects and the store it started with, not on how the store writers interleave |
| StoreAccounting.CommitPack | store/pack.go:200-233 | AddPack fails because it was used, or because a skipped key is gone from the store, or yields the Stats of offering records and skipped keys live |
| StoreAccounting.RunConserves | store/pack.go:107-195 | in every interleaving of the encoders each object is queued, taken, encoded or left out exactly once |
| StoreAccounting.LeftOutByAnswer | store/pack.go:126-152 | in every interleaving a key is left out only after the store has held it, and encoded only after the store has lacked it |
| StoreAccounting.NothingLeftOutIsLost | store/write.go:209-233 | if the store loses nothing between staging and commit, no key left out is gone |
| StoreAccounting.StagedStatsAreLive | store/pack.go:107-233 | for every encoder order, every answer of the store while staging and every commit-time store, the committed Stats are those of a live writer offered the same objects |
| StoreAccounting.StatsIgnoreOrder | store/write.go:369-400 | Stats depend on the multiset of objects only |
| StoreAccounting.StageCommitAndCompare | store/pack.go:107-233 | a finished staging run, its commit and a live writer on the same store: the commit reports the live Stats, or a skipped key that is gone from the store, which cannot be when the store has lost nothing since |
| WriterProtocol.StepInv | store/write.go:159-190 | every step of emit, Close, Abort and the backend keeps the lock, accounting and result invariants |
| WriterProtocol.NoSendAfterClose | store/write.go:244-264 | in every interleaving nothing is sent on the closed channel and it is closed once |
| WriterProtocol.SuccessCountsAcceptedObjects | store/write.go:330-365 | when Close succeeds, LogicalBytes is the sum over exactly the objects whose Emit returned nil |
| WriterProtocol.OneFixedResult | store/write.go:342-411 | Close and Abort in any order report one result that no later step changes |
| WriterProtocol.AbortMeansFailure | store/write.go:402-411 | after an Abort that found no result no call reports success; the error is the Abort's, unless something stopped the Writer before or the backend failed |
| WriterProtocol.CauseMeansFailure | store/write.go:369-376 | once there is a cause to stop, what is reported is that cause or an error the backend stopped with |
| WriterProtocol.CleanRunSucceeds | store/write.go:322-335 | without abort, cancellation or backend failure, what is reported is success |
| WriterProtocol.LateEmitsFail | store/write.go:244-263 | no Emit that starts once the Writer is closed or has a cause to stop gets its object accepted |
| WriterProtocol.NoDeadlock | store/write.go:244-411 | while any call is inside, a step of the calls or the backend is possible |
| KeyedMutex.StepInv | keyedmutex/keyedmutex.go:33-62 | every step of any number of Lock calls and unlock functions keeps the invariant |
| KeyedMutex.MutualExclusion | keyedmutex/keyedmutex.go:33-62 | at most one call holds a key, and no inner mutex is unlocked by one that has it not |
| KeyedMutex.ReferencedEntriesAreLive | keyedmutex/keyedmutex.go:33-62 | an entry's refs is the number of calls waiting for, holding or releasing it; while there is one it is the table's entry for the key, so two live entries for one key never exist |
| KeyedMutex.LenCountsKeysInUse | keyedmutex/keyedmutex.go:68-72 | Len counts the keys held, awaited or being released; those held or awaited if and only if nobody is releasing another |
| KeyedMutex.LenOutlivesTheLock | keyedmutex/keyedmutex.go:50-72 | a run after which Len is one and no key is held or awaited |
| KeyedMutex.OnlyTheSameKeyBlocks | keyedmutex/keyedmutex.go:33-62 | no deadlock: a call can move, or the one in the table's section can, or it waits for an owner of the same key |
| KeyedMutex.PanicsExactly | keyedmutex/keyedmutex.go:47-61 | an unlock function panics exactly when it is called again after it has run, and lets nothing go a second time |
| Stager.StepInv | dockerarchive/stage.go:45-139 | every step of feeder, workers and writer keeps the order, crew, file, byte, archive and cause invariants |
| Stager.NextMatchesTheEntry | dockerarchive/stage.go:126-139 | the k-th next returns the k-th blob in write order, the one the write loop is at |
| Stager.FewStagedFiles | dockerarchive/stage.go:45-81 | at most 2*workers+1 staged files exist at once |
| Stager.SuccessIsComplete | dockerarchive/write.go:305-354 | when writing succeeds Produced is Total, Done is Count, and the archive, whatever the parallelism, holds every entry in order with the bytes of the digest it is named after |
| Stager.NothingLeftBehind | dockerarchive/stage.go:144-161 | when Write returns no staged file, worker or feeder is left, and it never reports a cancellation its own failure caused |
| Stager.NoDeadlock | dockerarchive/stage.go:45-139 | until Write returns something can always go on |
| Stager.ErrorsAreTrue | dockerarchive/stage.go:115-154 | a Write that fails reports what happened: the caller's cancellation only if there was one, a failed rebuild only if that blob's failed and was the first, a wrong size only of a blob rebuilt without error whose size differs |
| Stager.FailsOnlyForSize | dockerarchive/write.go:327-348 | when the caller does not cancel, no rebuild fails and the archive takes what it is given, Write fails only for a blob that came out with another size |
| Stager.CancellationWins | dockerarchive/stage.go:141-154 | once the caller has cancelled, a writer that is stopped or meets a failed blob reports the cancellation, whatever else failed |
| SavePlan.Plan.Resolve | dockerarchive/write.go:259-283 | terminates on any finite graph by the count of unresolved digests, reads each manifest once, records only what lies under the root, closed under config, layers and children as the manifests' fields have them; fails only when a manifest under it is missing or malformed |
| OciManifest.BlobsByFields | oci/manifest.go:206-218 | the blobs of a manifest are its config, if it has one, and its layers, when it is no index, and nothing else |
| OciManifest.IndexByFields | oci/manifest.go:153-164 | a manifest is an index by its media type, or without one by having a manifests array |
| SavePlan.ResolvedExactly | dockerarchive/write.go:259-283 | on a fresh plan success records exactly the manifests reachable from the root, all of them good |
| SavePlan.Plan.AddAll | dockerarchive/write.go:105-116 | the items of all exports are closed, each is needed by some export, every manifest was read once |
| SavePlan.Plan.PickLegacy | dockerarchive/write.go:207-220 | the manifest.json manifest is the exported one if it is an image, or of an index the child with a config, no attestation, that no other such child comes before: those for the platform first, then by position; none exactly when there is none; choosing it reads nothing and cannot fail |
| SavePlan.LegacyCandidates | dockerarchive/write.go:239-254 | all children but the attestations, those for the platform first, each group in order |
| SavePlan.Plan.Entries | dockerarchive/write.go:305-316 | the entries are the items in strictly increasing digest order; total and blobs are those of the entries |
| ImportPlan.ResolvesExactly | dockerarchive/plan.go:149-208 | a descriptor fails to resolve if and only if something unusable is reached from it through indexes and children the archive holds: no manifest, an image lacking a blob, an index lacking all children, or one that cannot be rewritten without those it lacks |
| ImportPlan.ResolvesChild | dockerarchive/plan.go:177-250 | which descriptor the body has for each kept child: the original, with the child's new digest and size where both were rewritten |
| ImportPlan.ResolvesLocal | dockerarchive/plan.go:149-208 | a resolved node has the archive's manifest under its own descriptor, or one that differs only in its children under the digest and size of the new body; a missing media type is filled in; an image has its config and layers in the archive |
| ImportPlan.PrunesTheAbsent | dockerarchive/plan.go:177-191 | pruning drops exactly the children the archive does not hold, in order |
| ImportPlan.Planner.Walk | dockerarchive/plan.go:92-119 | the recursive walk lists the nodes children first, and adds manifests and blobs on first use |
| ImportPlan.FindRoots | dockerarchive/plan.go:73-88 | fails exactly when an index.json entry does not resolve; the roots are the resolved entries in their order, each digest once and at its first entry |
| ImportPlan.MakePlan | dockerarchive/plan.go:72-130 | the plan is the one of those roots, in that order |
| ImportPlan.PlanIsComplete | dockerarchive/plan.go:89-130 | in any plan manifests and blobs are unique and exactly those of the resolved nodes, every listed blob is in the archive, each entry's list has every child before its parent and the entry last |
| ImportPlan.RowsSayWhatIsThere | dockerarchive/plan.go:89-128 | every row of a plan, field by field: a blob's size in the archive and the type its descriptor gives, all that is known of a manifest, an entry's digest and its manifests in order |
| Publish.ReposExact | importer/importer.go:340-363 | each repository of the names is listed once and has at least one tag |
| Publish.BuildJobs | importer/importer.go:246-266 | yields the jobs of every entry in every repository, images and indexes apart, in plan order; fails exactly when a named entry lists a manifest the plan does not carry |
| Publish.PoolPutsAllImages | importer/importer.go:268-289 | when the pool returns nil every image job has been put |
| Publish.IndexesFollowTheirChildren | importer/importer.go:244-299 | if no unpruned index has a pruned child, no manifest is missing and every index is put after all children its body names, in that repository, whatever order the pool finished in |
| Publish.StaleChildIsNeverPut | dockerarchive/plan.go:189-206 | an unpruned index with a pruned child names a digest that is never put, unless a rewritten index has that very digest |
| Publish.OrderHoldsExactly | importer/importer.go:290-299 | the order holds if no unpruned index has a pruned child, and, unless a rewritten index has the very digest left in the body, only if |
| ArchiveOrder.OrderHoldsForArchives | importer/importer.go:244-299 | the same told from the archive: the order holds if, and but for such a coincidence only if, no index reached from index.json has all its children while one of them is an index that lacks a child |
| ArchiveOrder.NoGapNoStale | dockerarchive/plan.go:177-206 | without such a pair in the archive no unpruned index of the plan has a pruned child |
| ArchiveOrder.GapMakesStale | dockerarchive/plan.go:73-206 | with one there is such an index, also when an entry was dropped for coming to the digest of another |
| ImportPlan.RewrittenExactly | dockerarchive/plan.go:189-206 | a resolved node is rewritten exactly when it is an index the archive lacks a child of |
| Publish.StaleChildExample | dockerarchive/plan.go:192-206 | an archive whose plan no order of the pool can serve, under any names |
| WorkerPool.StepInv | importer/importer.go:147-186 | every step of feeder and workers keeps the invariant |
| WorkerPool.NilMeansAllDone | importer/importer.go:147-186 | when the pool returns nil the function succeeded exactly once on every item and none is running |
| WorkerPool.ErrorsHaveACause | importer/importer.go:180-185 | an error is that of an item that failed, or the caller's cancellation |
| WorkerPool.FirstFailureIsReturned | importer/importer.go:158-166 | the first failure recorded is the one returned, whatever happens after it |
| WorkerPool.NoDeadlock | importer/importer.go:147-186 | a pool with a worker can go on until it has returned |
| OciNames.MatcherIsGrammar | oci/names.go:11-36 | the one-pass matcher accepts exactly the repository grammar (section "Pulling manifests" of the OCI distribution-spec) |
| OciNames.RepositoryChars | oci/names.go:20-36 | a valid name has neither `:` nor `@` |
| OciNames.RepositoryShape | oci/names.go:11-36 | a name is valid exactly when it is 1 to 255 characters in the grammar |
| OciNames.TagShape | oci/names.go:17-50 | a tag is a word character and up to 127 word characters, dots and hyphens |
| OciNames.DigestShape | oci/digest.go:32-47 | the parser accepts exactly `sha256:` and 64 lower-case hex digits |
| OciNames.DigestsAreNotTags | oci/digest.go:80-88 | every valid digest is taken for a digest, no valid tag is |
| RefNames.PrintParse | image/refs.go:20-102 | a reference parses back from its printed name if and only if its parts are valid |
| RefNames.ParsePrint | image/refs.go:36-102 | what parses prints back to the same name, with valid parts |
| RefNames.KindsAreDisjoint | image/refs.go:13-34 | the three kinds never share a name |
| RefNames.PrefixTellsTheKind | image/refs.go:13-34 | a printed name begins with `oci/tag/`, `oci/manifest/` or `oci/referrer/` exactly according to its kind |
| RefNames.PrintIsInjective | image/refs.go:20-102 | two valid references with one name are the same |
| RefNames.TagScanIsExact | image/list.go:11-32 | the tag prefix of a repository matches no nested or longer-named one |
| RefNames.Tags | image/list.go:20-44 | exactly the repository's tags in byte order; not found exactly when it has neither tags nor manifests |
| RefNames.RepoHasManifests | image/list.go:50-62 | true exactly when the repository itself has a manifest reference |
| RefNames.Manifests | image/list.go:146-163 | exactly the digests pushed to the repository, never to a nested one |
| RefNames.Referrers | image/list.go:76-104 | one descriptor for each referrer of the subject in the repository with the artifact type asked for, by digest; an error exactly when one of their metas cannot be read |
| RefNames.Repositories | image/list.go:113-139 | each repository that has a tag or a manifest, once, in byte order |
| ImageRefs.RefFor | image/store.go:361-376 | names a reference exactly for a valid repository and a valid digest or tag |
| ImageRefs.Store.Put | image/store.go:115-274 | invalid input publishes nothing; a Put that goes through leaves the manifest's reference, the tag's exactly when pushed under a tag and the referrer's exactly when there is a subject on the new root, and every other name as it was; a call that fails leaves those before it, and itself if it took effect |
| ImageRefs.FailedPutPublishesNothingExactly | image/store.go:103-114 | the promise that a failed Put has published nothing holds if and only if it failed before its first publish took effect, or only rewrote what was there |
| ImageRefs.FailedTagPush | image/store.go:262-268 | a tag push whose second publish fails leaves the manifest reference |
| ImageRefs.PutKeeps | image/store.go:261-274 | every prefix of a Put's publishing keeps tags and referrers with their manifests |
| ImageRefs.Store.Delete | image/store.go:419-436 | by tag removes the tag alone, by digest everything of the image; fails exactly when a call it made failed, and finds nothing exactly when there is no such reference |
| ImageRefs.Store.DeleteImage | image/store.go:438-482 | removes the manifest, every tag on the same root or digest, and the referrer reference; when a call fails some of them, the manifest first; not found exactly when the manifest reference is missing |
| ImageRefs.DoomedExactly | image/store.go:455-480 | what a delete by digest removes is exactly what belongs to the image in that repository, tags on older roots included |
| ImageRefs.DeleteKeeps | image/store.go:438-482 | a delete that goes through keeps the invariant |
| ImageRefs.DeleteIsSafeExactly | image/store.go:449-480 | whatever call fails, a delete by digest leaves the references consistent, if and only if before it the image has neither a tag nor a referrer reference in the repository |
| ImageRefs.StrandedTag | image/store.go:449-458 | a delete that fails right after the manifest strands a tag |
| ImageRefs.OthersDoNotMatter | image/store.go:182-183 | only a repository's own references matter to it, so calls for other repositories may interleave |
| ImageRefs.RunKeeps | image/store.go:261-482 | over every run of Put and Delete with no failing call inside a Delete, every tag and every referrer has its manifest |
| ImageRefs.DeletedForGood | image/store.go:419-482 | after a delete by digest no manifest, tag or referrer reference of the image is left in the repository |
| UploadSession.Session.Write | upload/session.go:138-155 | what a write reports is exactly what the session has gained, and every snapshot stays as it was; it succeeds exactly when the bytes fit in memory, or the file is there or can be made and takes them |
| UploadSession.Session.Spill | upload/session.go:159-172 | moves the bytes to the file, or leaves them in the buffer; no byte is lost either way |
| UploadSession.Session.Append | upload/session.go:79-90 | a session gains a prefix of the body, all of it without error, nothing once closed; the offset is the count of all bytes accepted; without a failure below it succeeds |
| UploadSession.Session.Snapshot | upload/session.go:105-123 | size and hash of everything accepted so far, shared, not copied |
| UploadSession.Session.ReadSpool | upload/spool.go:80-98 | reads what had been accepted when the snapshot was taken, whatever was appended since, or fails once the file is gone |
| UploadSession.Session.Close | upload/session.go:206-227 | ends appends at once; succeeds exactly when the file is gone and its descriptor was closed, or it was done before; may be repeated |
| UploadSession.Session.BufferWrite | upload/session.go:151-154 | appending in place or into a larger array changes no byte a snapshot shares |
| UploadManager.StepInv | upload/manager.go:121-219 | every step of creations, appends, removals and sweeps keeps the invariant |
| UploadManager.GoneForGood | upload/manager.go:156-219 | an id gone from the manager has no file, its session refuses appends, and neither comes back |
| UploadManager.NoOrphanFile | upload/manager.go:150-219 | every file has a registered session that still answers for it |
| UploadManager.ForgottenForGood | upload/manager.go:156-219 | a Remove or Sweep that gets as far as forgetting a session has removed it and its file for good |
| UploadManager.CloseEndsAppends | upload/manager.go:156-219 | a session a close has been at takes no more appends, whether its file could be unlinked or not |
| UploadManager.LifeOfASession | upload/manager.go:121-219 | a run in which a session is created, spilled, closed and forgotten, its file there in between and gone at the end |

## Left out

- Hashing: sha256 and key hashes are not computed. Directory objects are assumed to have distinct keys, chunk and manifest graphs to have no cycle through a digest, a digest to have one body.
- Library internals: `archive/tar`, tar-prism, zrecipe, chunking, packstore, refstore and garbage collection are represented by what they may do on each call; `archive/tar` may make any reads and forward seeks.
- Extended attributes: how they are collected from PAX records and their spill to blobs; a header has them as a map, and an entry has a kind and its metadata as one value.
- LayerEntries.ConvertIsLegal: assumes names without NUL, which `archive/tar` guarantees for the fields of a header.
- Context checks inside Apply, parseLayer and the walk loops, which only end a call early.
- StoreAccounting.CommitPack: the pack's framing and its checksum are not modelled; a record is its key with its lengths.
- Stager.FewStagedFiles: `os.Remove` of a staged file is taken to succeed; the code ignores its error.
- KeyedMutex: fairness of the inner mutex; only safety and absence of deadlock are proved.
- SavePlan.Plan.AddAll: index.json descriptors and the RepoTags of manifest.json, which are easy accumulations beside it.
- SavePlan: when two repositories answer differently for one digest, the first answer stands, as in the code.
- ImportPlan.MakePlan: names (`assignNames`, `ParseName`), the platform counts and the presence query; `Publish` takes any non-empty names per entry.
- ArchiveOrder.OrderHoldsForArchives: what happens where a rewritten index has, by coincidence, the digest of another body or the very digest a stale body names; the "only if" half is stated without that.
- StoredTree.DirBuilder.AddEntry: the checks of the two forms of extended attributes and of key types; an entry has exactly one payload by its type.
- Splice: the index is taken to list its regions in archive order, as tar-prism writes it; a seek with another whence or a negative offset, which is refused at once, is not a call here.
- Publish: the report, the tracker and the blob pool's largest-first order.
- ImageRefs.Store.Put: storing blobs, children, meta.json and the root happens before it and may fail; it publishes nothing.
- UploadManager: timestamps and the idle deadline; a sweep may take any session. `Manager.Close` and `Spool.Remove` are not steps, since both drop what the invariant is about by design; ids are fresh.
- HTTP handlers, paging, the browser, the terminal interface, the command line and configuration.
- blob classification (`blob/analyze.go`) and the blob store.
- JSON: manifests are parsed values, and a body is rewritten or not as a whole.
