# A verified model of the ley-line substrate

This project models the storage substrate of ley-line-open in Dafny and proves what its parts
promise. `dafny verify dfyconfig.toml` checks all of it. There are four groups.

**The incremental BLAKE3 outboard** (`Blake3Tree`, `Outboard`, `InclusionProof`). A cache of every
perfect subtree of the hash tree of one buffer, kept current under in-place edits and resizes. The
reference is the byte-wise recursion of section 2.1 of the BLAKE3 paper. The hash is an ideal one: a
chaining value is a term, `Leaf`, `Parent` or some other 32 bytes, and a root is a different kind of
term, so that equal values mean equal inputs. Main results: over every run of edits the root read
after each is the reference hash of the buffer (`Replay`); an update of an outboard, current or stale,
makes it current exactly when the leaves it keeps are those of the new buffer (`Update`), so over every
run of in-place edits it is current at the end exactly when every chunk is what it was when last hashed
(`ReplayInPlace`); the exact numbers of chunks re-hashed and nodes merged by updates, roots and proofs;
soundness and completeness of the standalone chunk verifier; and that a root determines its buffer.

**The seqlock control block** (`Control*`). Publishers, readers and crashes as interleaved steps of one
byte or one counter access each, under sequential consistency. Main results: the lock and parity
invariant of every run, reads that return only whole publishes in publication order, progress of a
reader with no live publisher, and the torn root. In every run an accepted snapshot has the path and size
of the latest completed publish, and is whole exactly when that publish is; a handle that has accepted none
is told the path and size as they stand under the zero root, those of a dead publisher once it has stored
them; and a publisher that has the lock completes in a bounded number of its own steps. `set_arena` writes
no root, so it needs to begin over the last published one: that is proved to be exactly when a publish that begins
will be whole, a run that breaks it returns a torn root, and an even counter at the beginning is proved to
be enough.

**Node ids, interning, display paths and moves** (`Nids`, `Schema*`). The relational projection as
finite maps and sequences. The append-only tables are sequences, so a row's id is its place. Main
results: a path keeps its id over every run of operations and two paths share one exactly when
interning cannot tell them apart; the memoised renderer agrees with the walk exactly when no name on
the chain is empty below one that is not, for a directory exactly when no component of its path is empty
after one that is not; resolving undoes rendering on every row of every well-formed projection, and for any
path at all, rendered or not, what it answers is stated by what rows spell; a delete removes exactly the
file's rows from every table, and interning a path adds no row off the path; a move is
refused exactly when some ordinal is in both files in a table keyed by node id (`nodes`, `_ast`, `_lsp`,
`_lsp_hover`) or `_source` has rows under both paths, and then exactly the tables listed before the first
such one are rewritten; a move there and back restores each table exactly when the other range and path
were unused, and keeps every path below the file; over every run of operations no key is held twice.

**Canonical encodings and storage** (`Partition`, `HeadDigest`, `Arena*`, `Blob*`). Injective hash
preimages, the chain a head digest commits to, the double-buffered arena file and its growth beside
the old one, with the offset a validated header gives tied to the active buffer's bytes, and the
temp-and-rename blob store as steps of processes that may die anywhere, which refines a map that only grows;
a call of it fails exactly when one of three things happened to it, and is done after a bounded number of steps.

`Bytes`, `Collections`, `Text`, `IntSets` and `Options` hold shared definitions.

Where the hash is a parameter (`hash`, `sigma`), nothing is assumed of it; theorems that need it not to
collide say so for exactly the byte strings concerned.

Where code and documentation disagree, the code is modelled:

- `rs/ll-core/schema/src/lib.rs:894-899` says a move rewrites `file_id` columns. The code rewrites node
  ids and path columns only.
- `rs/ll-core/schema/src/lib.rs:912-913` says the new range is a fresh file's and empty. A path that was
  interned before binds to its old id, whose range need not be empty: see `SchemaRekey.MoveRefusedIff`
  for exactly when the rewrite collides and how far it gets, `SchemaRekey.MoveStopsAtSource` for a move
  that stops half way, and `SchemaRekey.MoveAndBack` for when it does no harm. The keys are those of
  `rs/ll-open/ts/src/schema.rs:22-53` and `rs/ll-open/lsp/src/project.rs:23-93`.
- `rs/ll-core/schema/src/lib.rs:587-588` says a child's name is never empty. A path with an empty component
  makes such a child: see `SchemaDirs.DoubleSlashDisagrees`, and `SchemaDirs.EnsureDirsAgreesIff` for
  exactly which paths do no harm.

## Model

| member | source | states |
|---|---|---|
| Blake3Tree.HashIsTree | rs/ll-core/core/src/outboard.rs:289-304 | the reference hash, split by bytes, is the root over the tree of chunk values, split by chunks, for every length above one chunk |
| Blake3Tree.SubtreeIsChunkTree | rs/ll-core/core/src/outboard.rs:196-215 | every run of chunks the byte-wise recursion reaches is split where the chunk-wise recursion splits it |
| Blake3Tree.SplitInChunks | rs/ll-core/core/src/outboard.rs:196-215 | the byte split point of a subtree is a whole number of chunks, the largest power of two below their count, and leaves the right count on both sides |
| Blake3Tree.LevelEntry | rs/ll-core/core/src/outboard.rs:78-95 | entry i of level k is the tree over leaves i shifted left by k, 2^k of them |
| Blake3Tree.LevelUntouched | rs/ll-core/core/src/outboard.rs:167-190 | a change of leaves in an interval changes no cached node whose leaves miss it |
| Blake3Tree.LevelPrefix | rs/ll-core/core/src/outboard.rs:137-163 | leaves below a point fix every cached node that lies below it |
| Outboards.Outboard.constructor | rs/ll-core/core/src/outboard.rs:107-121 | a built outboard is current for its buffer: every level, the length and the small root |
| Outboards.Outboard.Update | rs/ll-core/core/src/outboard.rs:227-272 | a bad range changes nothing; otherwise, from any sound outboard, current or stale, it is current for the new buffer if and only if the leaves not re-hashed are those of the new buffer, for a current one if and only if the chunks not re-hashed are unchanged; the count returned is the number of chunks meeting the edit (in place) or from it on (resize), and exactly the cached nodes meeting those chunks are merged |
| Outboards.Outboard.EditInPlace | rs/ll-core/core/src/outboard.rs:239-258 | the in-place branch: the leaves meeting the edit are new, the others as held, every level right over them, with the exact chunk and merge counts |
| Outboards.Outboard.Resize | rs/ll-core/core/src/outboard.rs:259-268 | the resize branch: current if and only if the leaves kept are those of the new buffer |
| Outboards.Outboard.RebuildParentsFrom | rs/ll-core/core/src/outboard.rs:137-163 | when the entries kept on each level are right, every level is right afterwards and there is one level per halving |
| Outboards.Outboard.Propagate | rs/ll-core/core/src/outboard.rs:167-190 | brings every level up to date with the new leaves, merging exactly the nodes whose leaves meet the interval |
| Outboards.Outboard.CachedCv | rs/ll-core/core/src/outboard.rs:196-215 | returns the tree over the chunks asked for; on an aligned subtree it merges only the right spine |
| Outboards.Outboard.RootHash | rs/ll-core/core/src/outboard.rs:289-304 | equals the reference hash, with 0 merges up to one chunk, 1 for a power of two and popcount minus 1 otherwise |
| Outboards.Outboard.Prove | rs/ll-core/core/src/outboard.rs:306-333 | gives a proof exactly for the chunk indices there are, the verifier accepts it against the reference hash, and the merges counted are the spine of the right sibling at the path's first left turn |
| Outboards.Outboard.CollectProof | rs/ll-core/core/src/outboard.rs:338-374 | collects the siblings on the path from the top of the subtree to the chunk, with that exact number of merges |
| Outboards.PerfectProofIsFree | rs/ll-core/core/src/outboard.rs:338-374 | a proof within a perfect tree merges nothing |
| Outboards.Replay | rs/ll-core/core/src/outboard.rs:107-304 | over any run of edits that touch only their dirty range, in place or resizing, refused ones included, the root after each is the hash of the buffer |
| Outboards.ReplayInPlace | rs/ll-core/core/src/outboard.rs:220-258 | over any run of in-place edits, whether or not they cover what they change, the outboard is current at the end exactly when every chunk is what it was when it was last hashed |
| Outboards.WholeUpdateRepairs | rs/ll-core/core/src/outboard.rs:220-272 | an update that declares the whole buffer dirty meets that condition, whatever was held |
| Outboards.CoveringEditKeepsChunks | rs/ll-core/core/src/outboard.rs:220-227 | an edit that changes only bytes it declares dirty leaves every chunk that is not re-hashed unchanged |
| Outboards.AppendIsCovered | rs/ll-core/core/src/outboard.rs:220-227 | an append whose new bytes are declared dirty is such an edit |
| Outboards.DirtyAtSize | rs/ll-core/core/src/outboard.rs:167-190 | the loop bounds of each level cover exactly the cached nodes whose leaves meet the dirty chunks |
| Outboards.PerfectIsCached | rs/ll-core/core/src/outboard.rs:196-204 | an aligned power-of-two subtree within the leaves is in the cache and is the tree over its chunks |
| Outboards.RootSplit | rs/ll-core/core/src/outboard.rs:289-304 | both halves of the root are aligned, and the root's merge count is one more than the right half's spine |
| InclusionProofs.VerifyChunk | rs/ll-core/core/src/outboard.rs:385-432 | accepts if and only if index and length fit the claimed total and the leaf folds to the root; which error it reports otherwise |
| InclusionProofs.VerifierSound | rs/ll-core/core/src/outboard.rs:385-432 | accepting against the root of some data, for any claimed length and any proof, means the bytes are that chunk of the data |
| InclusionProofs.PathIsAccepted | rs/ll-core/core/src/outboard.rs:317-374 | the path to every valid chunk, of every tree shape, reversed, is accepted by the leaf-up fold |
| InclusionProofs.FoldOfPath | rs/ll-core/core/src/outboard.rs:338-374 | folding a chunk's leaf up its reversed path gives the tree |
| InclusionProofs.RootDeterminesBuffer | rs/ll-core/core/src/outboard.rs:127-133 | two buffers with the same root, of one chunk or many, are the same buffer |
| ControlLock.StepKeepsLockInv | rs/ll-core/core/src/control.rs:332-391 | every step of every handle keeps the lock and parity invariant |
| ControlLock.RunKeepsLockInv | rs/ll-core/core/src/control.rs:519-545 | the lock and parity invariant holds after every run |
| ControlLock.StoresAreGuarded | rs/ll-core/core/src/control.rs:142-158 | in every run a payload byte is stored, and a publish ends, only by the one holder of the lock under an odd counter, with no other publisher or salvaging reader; the end leaves it even, whatever died before |
| ControlPayload.DecodeOfStores | rs/ll-core/core/src/control.rs:497-502 | after all stores of a publish the payload decodes to its path and size, and its root when it has one, whatever the bytes were before |
| ControlPayload.StepKeepsPayload | rs/ll-core/core/src/control.rs:358-391 | every step keeps: an even counter means the last publish whole, and every handle's answers are whole publishes in order; only a `set_arena` that begins over another root than the last published is left out |
| ControlPayload.RunKeepsPayload | rs/ll-core/core/src/control.rs:473-545 | the payload invariant over every such run, recovery from a publisher that died before its root included |
| ControlPayload.EvenRunIsDisciplined | rs/ll-core/core/src/control.rs:519-537 | a run in which `set_arena` begins only from an even counter is such a run |
| ControlReads.RunRecordsHistory | rs/ll-core/core/src/control.rs:586-614 | over every run the recorded payloads are those left by the prefixes of the completed publishes |
| ControlReads.ReadsReturnWholePublishes | rs/ll-core/core/src/control.rs:332-421 | in every run in which `set_arena` begins over the last published root, an accepted snapshot decodes to what one prefix of completed publishes left, answers of a handle follow publication order, it never falls back to nothing published, and the only other answer is the zero root with the path and size as they stood when the reader released its lock |
| ControlSalvage.NothingPublishedStood | rs/ll-core/core/src/control.rs:332-391 | in every run, disciplined or not, each "nothing published" answer has the path and size the block's bytes spelled when the handle released its lock |
| ControlSalvage.AbandonedPathAndSize | rs/ll-core/core/src/control.rs:325-342 | after a publisher dies and nobody stores, a handle that has accepted nothing is told the dead publisher's path once its NUL was stored, and its size once the size was |
| ControlReads.AcceptedIsLatest | rs/ll-core/core/src/control.rs:332-355 | a snapshot is accepted only while it is the latest completed publish |
| ControlReads.CompletionIsWholeIff | rs/ll-core/core/src/control.rs:473-491 | however others interleave, a publish that begins and completes is whole exactly when it writes a root or the root bytes it began over were the last published ones |
| ControlReads.AcceptedPathAndSize | rs/ll-core/core/src/control.rs:332-355 | in every run, disciplined or not, an accepted snapshot has the path and size of the latest completed publish |
| ControlReads.AcceptedIsWholeIff | rs/ll-core/core/src/control.rs:332-355 | until the next publish completes readers accept only what the last one left, and it is what that publish promised exactly when it wrote a root or began over the root last published |
| ControlReads.DisciplineIsExact | rs/ll-core/core/src/control.rs:473-491 | what is asked of a publish when it begins holds exactly when it will be whole |
| ControlTorn.UndisciplinedSetArenaPublishesTornRoot | rs/ll-core/core/src/control.rs:473-491 | a run in which a root write dies, `set_arena` completes over it, and a reader accepts a root no publish left |
| ControlProgress.QuietReadReturns | rs/ll-core/core/src/control.rs:332-391 | with no live publisher, a reader at the loop head never comes back to it, takes a bounded number of steps and returns one answer, however other readers interleave |
| ControlProgress.QuietReadIsNotStuck | rs/ll-core/core/src/control.rs:376-391 | until it has returned such a reader has a step to take |
| ControlProgress.PublishCompletes | rs/ll-core/core/src/control.rs:473-545 | a publisher that has the lock and neither dies nor fails takes at most four steps more than its stores, however others interleave, and then its payload is the next one published |
| ControlProgress.PublisherIsNotStuck | rs/ll-core/core/src/control.rs:519-545 | until then it has a step to take, and one that waits for the lock can take it whenever it is free |
| Partition.Address | rs/ll-core/core/src/partition.rs:164-211 | the field-by-field fold hashes exactly the preimage |
| Partition.SortEntriesSorts | rs/ll-core/core/src/partition.rs:201-202 | sorting gives a sorted permutation of the entries |
| Partition.SortedIsUnique | rs/ll-core/core/src/partition.rs:201-202 | two sorted lists of the same multiset are the same list |
| Partition.PreimageInjective | rs/ll-core/core/src/partition.rs:131-211 | equal preimages have equal domain, scheme, parameters and version and fold the same entries |
| Partition.PreimagesEqualIff | rs/ll-core/core/src/partition.rs:131-211 | preimages are equal exactly when the specs agree and the entries are the same list, for byte streams, or the same multiset, for the set domains |
| Partition.PreimageLayout | rs/ll-core/core/src/partition.rs:131-211 | the hashed bytes by offsets: the domain's own first byte, version, length-prefixed scheme and parameters, entry count, entries |
| Partition.EntriesLayout | rs/ll-core/core/src/partition.rs:164-211 | entry i takes the 48 bytes from 48 times i on |
| Partition.EntryLayout | rs/ll-core/core/src/partition.rs:164-211 | an entry is its address, then its two integers, little-endian |
| HeadDigest.PreimageLayout | rs/ll-core/core/src/head_digest.rs:109-135 | the hashed bytes by offsets, with a presence byte 0 or 1 at 136 and the parent digest after it exactly when it is 1 |
| HeadDigest.ChainGrowsIff | rs/ll-core/core/src/head_digest.rs:86-106 | a chain of claims the constructor built can be continued by another exactly when its last digest is not the zero sentinel |
| HeadDigest.Digest | rs/ll-core/core/src/head_digest.rs:109-135 | the field-by-field update hashes exactly the preimage |
| HeadDigest.PreimageInjective | rs/ll-core/core/src/head_digest.rs:109-135 | the preimage determines every field, the presence of a parent digest included |
| HeadDigest.ChainsAgree | rs/ll-core/core/src/head_digest.rs:109-135 | two linked chains with equal last digests agree claim by claim, back to the start of the shorter |
| HeadDigest.LastDigestCommitsToChain | rs/ll-core/core/src/head_digest.rs:86-135 | two linked chains from a first claim with no parent digest, with equal last digests, are equal, given no collision among their preimages |
| ArenaLayout.ValidateHeader | rs/ll-core/core/src/layout.rs:62-80 | which error is reported, with its values, exactly in which case; otherwise the active buffer's offset, which lies within the file |
| ArenaLayout.OffsetIsActiveBuffer | rs/ll-core/core/src/layout.rs:46-91 | the file's bytes from the offset validation gives are the active buffer; buffer 0 follows the header, buffer 1 ends the file up to one byte, and they do not meet |
| ArenaLayout.WrittenAtOffset | rs/ll-core/core/src/layout.rs:143-183 | the bytes of a written file begin with the image at the offset its own header gives |
| ArenaLayout.BufferSize | rs/ll-core/core/src/layout.rs:89-91 | two buffers fill the file after the header up to one byte; a file shorter than the header has none |
| ArenaLayout.HeaderLayout | rs/ll-core/core/src/layout.rs:143-183 | each header field at its offset, little-endian, with two zero bytes of padding |
| ArenaLayout.ParseOfBytes | rs/ll-core/core/src/layout.rs:143-183 | an arena's parts written as bytes are read back as those parts |
| ArenaLayout.WrittenSlots | rs/ll-core/core/src/layout.rs:143-183 | a write puts the image, zero-padded, in the inactive buffer and leaves the other alone |
| ArenaLayout.WriteRoundTrips | rs/ll-core/core/src/layout.rs:143-183 | a reader of the bytes a write left validates the header and reads exactly the image |
| ArenaLayout.RunOfWrites | rs/ll-core/core/src/layout.rs:143-183 | over any run of writes the header validates, the sequence counts them modulo 2^64, the active buffer holds the last image padded and the other the one before |
| ArenaFiles.WriteToArena | rs/ll-core/core/src/layout.rs:143-183 | refused exactly when the image does not fit, with no byte changed; otherwise the mapping holds exactly the written file |
| ArenaFiles.GrowthAllowedIff | rs/ll-core/core/src/layout.rs:246-265 | growth is allowed exactly for targets within four times the image plus 2 MiB and a header, that leave 1 GiB free where the free space is known, saturation accounted for |
| ArenaFiles.GrowthRefusedAs | rs/ll-core/core/src/layout.rs:246-265 | which refusal is given and with which sizes: the image bound exactly when the target is beyond it, otherwise the free space exactly when too little is known to be free |
| ArenaFiles.GrowingInPlaceOverlaps | rs/ll-core/core/src/layout.rs:292-300 | a longer file's buffer 0 meets the old buffer 1 exactly when the buffers are not empty and get longer |
| ArenaFiles.GrowingInPlaceKeepsImageIff | rs/ll-core/core/src/layout.rs:292-300 | extending in place and writing always keeps a published buffer 0, and keeps a published buffer 1 exactly when the new padded image spells the same bytes where they overlap |
| ArenaFiles.Disk.WriteGrownArena | rs/ll-core/core/src/layout.rs:301-363 | refused, nothing changes; too large, the arena is untouched; grown, the path names a new file with the image and continued sequence; no other file but the temporary one changes, open ones included |
| ArenaFiles.GrownSequence | rs/ll-core/core/src/layout.rs:312-343 | the grown arena's sequence is one past that of the well-formed arena it replaces, and one where there is none to read |
| ArenaFiles.GrownArenaServesImage | rs/ll-core/core/src/layout.rs:301-363 | the grown file validates, has buffer 1 active, the old sequence plus one and exactly the image |
| BlobNames.PathsDistinct | rs/ll-core/core/src/blob_store.rs:125-134 | no two blobs, no two temporary files, and no blob and temporary file share a path |
| BlobNames.SweepMatchesTemps | rs/ll-core/core/src/blob_store.rs:173-197 | the names a sweep considers are exactly the temporary ones |
| BlobInvariant.StepKeepsInv | rs/ll-core/core/src/blob_store.rs:269-365 | every step of puts, gets, sweeps, failures and crashes keeps: final files are never written, hold bytes hashing to their key, and finished calls answered rightly |
| BlobInvariant.RunKeepsInv | rs/ll-core/core/src/blob_store.rs:269-365 | the same after every run |
| BlobInvariant.InFlightCanAdvance | rs/ll-core/core/src/blob_store.rs:269-365 | after every run a call that has not finished has a next step, so no step's guard cuts a run short |
| BlobRefinement.MemBlobStore.Lookup | rs/ll-core/core/src/blob_store.rs:425-446 | the value under the key when it verifies, absence, or an error |
| BlobRefinement.MemBlobStore.Store | rs/ll-core/core/src/blob_store.rs:409-423 | adds a new key or leaves the map alone; succeeds unless the present value does not verify; keeps every value verifying |
| BlobRefinement.VisibleVerifies | rs/ll-core/core/src/blob_store.rs:333-365 | everything under a final name hashes to that name and was given to some put |
| BlobRefinement.QuietStep | rs/ll-core/core/src/blob_store.rs:164-241 | every step but a successful rename, a sweep or a crash included, leaves the visible blobs as they are |
| BlobRefinement.RenameIsPut | rs/ll-core/core/src/blob_store.rs:320-330 | a successful rename changes the visible blobs as an in-memory put does |
| BlobRefinement.RunRefinesMemory | rs/ll-core/core/src/blob_store.rs:269-365 | for every run the visible blobs at the end are the in-memory store after the same puts in rename order |
| BlobRefinement.PresentBlobsStay | rs/ll-core/core/src/blob_store.rs:269-331 | over every run a present blob neither changes nor disappears |
| BlobRefinement.AnswersAreVisible | rs/ll-core/core/src/blob_store.rs:269-365 | after any run from the empty store, a get answered nothing or the bytes visible under its hash, a put that did not fail is visible with its bytes, and nothing was corrupt |
| BlobFate.CallFailsIff | rs/ll-core/core/src/blob_store.rs:269-365 | in any run in which its process lives on, a finished call has failed if and only if a file operation of it was made to fail, its temporary name was taken when it came to create it, or its temporary file was swept before the rename; otherwise a put has stored its bytes under their hash and a get has found bytes or nothing |
| BlobFate.CallEnds | rs/ll-core/core/src/blob_store.rs:269-365 | such a call is done after at most seven steps of its own more than the longest bytes offered |
| BlobFate.PresentPutOnlyReads | rs/ll-core/core/src/blob_store.rs:269-297 | a put of bytes whose blob is there never creates a file |
| BlobFate.CrashEndsCalls | rs/ll-core/core/src/blob_store.rs:296-330 | a process that dies takes exactly its own calls with it and changes no file and no name |
| BlobFate.LeftoverFailsPut | rs/ll-core/core/src/blob_store.rs:296-310 | a file a dead process left makes the first put of those bytes by a new process of its id fail |
| BlobNames.FinalPathSpells | rs/ll-core/core/src/blob_store.rs:125-136 | a blob's bucket and name together spell its hash, the bucket the first two digits |
| BlobRefinement.VisibleIsNeverAbsent | rs/ll-core/core/src/blob_store.rs:333-342 | over every run, once a blob is visible no get of it answers absent |
| Nids.NidIsFileIff | rs/ll-core/schema/src/lib.rs:71-75 | a file's node ids are non-negative exactly when the low 40 bits of the file id are below 2^39, and decode to the file id exactly below 2^39 |
| Nids.FileNidRoundTrip | rs/ll-core/schema/src/lib.rs:71-100 | file id and ordinal are decoded from the node id |
| Nids.RangesDisjoint | rs/ll-core/schema/src/lib.rs:79-112 | an id lies in a file's range exactly when it decodes to that file; no directory's id does |
| SchemaTables.InternDirOk | rs/ll-core/schema/src/lib.rs:332-378 | interning a directory keeps the tables well-formed, only adds rows, and the directory is then found under the id returned |
| SchemaTables.InternFileOk | rs/ll-core/schema/src/lib.rs:383-400 | the same for a file row |
| SchemaTables.FoundStays | rs/ll-core/schema/src/lib.rs:172-192 | what is found stays found under its id as tables grow |
| SchemaIntern.DirChainOk | rs/ll-core/schema/src/lib.rs:358-378 | an interned chain is found from the root by its components |
| SchemaIntern.EnsureFileIdOk | rs/ll-core/schema/src/lib.rs:383-472 | the id given to a path is the one it is then looked up by |
| SchemaIntern.EnsureKnown | rs/ll-core/schema/src/lib.rs:383-400 | a path with an id is given it again and nothing is added |
| SchemaIntern.SameKeyIff | rs/ll-core/schema/src/lib.rs:383-389 | interning takes two paths for one exactly when they are equal or differ in one leading slash before a bare name |
| SchemaIntern.FileIdSharedIff | rs/ll-core/schema/src/lib.rs:442-472 | two looked-up paths have the same id exactly in that case |
| SchemaIntern.LookupSpells | rs/ll-core/schema/src/lib.rs:442-472 | a looked-up directory spells the components it was looked up by |
| SchemaDisplay.NodePath | rs/ll-core/schema/src/lib.rs:604-623 | the upward walk gives the non-empty names of the chain joined by slashes, nothing for a dangling chain, an error where a name fails |
| SchemaDisplay.PathRenderer.Path | rs/ll-core/schema/src/lib.rs:563-600 | the memoised path is the folded chain; the memo stays right and only grows |
| SchemaDisplay.RenderAll | rs/ll-core/schema/src/lib.rs:563-600 | any sequence of queries of one renderer is answered as if each were the first |
| SchemaDisplay.FoldedIs | rs/ll-core/schema/src/lib.rs:583-597 | folding gives the joined non-empty names when no name is empty below another, and a longer text otherwise |
| SchemaDisplay.RendererAgreesIff | rs/ll-core/schema/src/lib.rs:563-623 | renderer and walk agree on a node exactly when its chain dangles, fails, or has no empty name below a non-empty one |
| SchemaDisplay.RendererAgrees | rs/ll-core/schema/src/lib.rs:563-623 | they agree everywhere when only rows without a parent have empty names |
| SchemaDisplay.SuffixedIff | rs/ll-core/schema/src/lib.rs:507-550 | a syntax node's name is suffixed exactly when its parent has another child of the kind, by how many of those come before by `ord` |
| SchemaResolve.ResolvePath | rs/ll-core/schema/src/lib.rs:632-687 | the cursor loop computes the answer that `SchemaSpelling.ResolvedIs`, `WalkEndsIff` and `WalkAstIff` state for every path |
| SchemaSpelling.WalkEndsIff | rs/ll-core/schema/src/lib.rs:636-677 | for any components, the walk ends at a file exactly when that file spells a prefix and no file a shorter one, in a directory exactly when no file spells a prefix and the directory spells them all, nowhere exactly when neither |
| SchemaSpelling.ResolvedIs | rs/ll-core/schema/src/lib.rs:632-687 | so any path resolves to the directory it spells, to where its segments lead below the first file on it, or to nothing |
| SchemaSpelling.SegmentNamesIff | rs/ll-core/schema/src/lib.rs:690-728 | a segment resolves to a child exactly when it is the only one of that raw kind, or there is not exactly one and the child has that rank among those of the kind before the last underscore; a bare kind with several children gives nothing |
| SchemaSpelling.WalkAstIff | rs/ll-core/schema/src/lib.rs:679-687 | segments lead to a node exactly when there is a chain of children so named down to it |
| SchemaSpelling.InternedPathResolves | rs/ll-core/schema/src/lib.rs:442-472 | a path with an id, but for a bare name behind one slash, spells its file, and resolves to its node when no file lies on the way |
| SchemaResolve.ResolveSegments | rs/ll-core/schema/src/lib.rs:675-687 | the segment loop follows one child after another and stops at the first that is missing |
| SchemaResolve.Nth | rs/ll-core/schema/src/lib.rs:718-728 | the row with exactly that many rows ordered before it, or nothing when there is none |
| SchemaRoundTrip.SegmentResolves | rs/ll-core/schema/src/lib.rs:690-728 | a syntax node's display name, with or without rank, resolves to that node among its parent's children |
| SchemaRoundTrip.SiblingNamesDiffer | rs/ll-core/schema/src/lib.rs:512-550 | no two children of one node have the same display name |
| SchemaRoundTrip.WalkReachesFile | rs/ll-core/schema/src/lib.rs:640-668 | the walk down a file's path reaches the file, since no file on the way has a directory's name |
| SchemaRoundTrip.ResolveUndoesRender | rs/ll-core/schema/src/lib.rs:604-728 | for every row of every well-formed projection rendering meets no error and its path resolves to that row |
| SchemaMoves.ShiftBackIff | rs/ll-core/schema/src/lib.rs:900-934 | shifting an id there and back restores it exactly when it was not in the new range |
| SchemaMoves.MovedRowIs | rs/ll-core/schema/src/lib.rs:900-934 | a row of the file gets the same ordinal in the new range, any other keeps its id; the row found there is the old one with its parent moved likewise, and the very same when its parent is not in the moved range |
| SchemaMoves.ShiftInjective | rs/ll-core/schema/src/lib.rs:912-925 | without a collision no two rows land on one id |
| SchemaMoves.MoveBackIff | rs/ll-core/schema/src/lib.rs:900-934 | moving there and back restores the nodes exactly when none lay in or pointed into the new range |
| SchemaMoves.DisplayKept | rs/ll-core/schema/src/lib.rs:512-550 | a move into an unused range keeps every display name, ranks included |
| SchemaMoves.SuffixKept | rs/ll-core/schema/src/lib.rs:900-934 | and every node's names below its file |
| SchemaArena.EachTable | rs/ll-core/schema/src/lib.rs:872-892 | applies a statement once to every listed table that exists and to no other |
| SchemaArena.EachSideTable | rs/ll-core/schema/src/lib.rs:780-807 | no id-keyed table is left out of the list |
| SchemaArena.Arena.InternDirChain | rs/ll-core/schema/src/lib.rs:358-378 | the loop interns the chain of the specification and returns its last id |
| SchemaArena.Arena.EnsureId | rs/ll-core/schema/src/lib.rs:383-400 | tables and id of the specification |
| SchemaArena.Arena.LookupId | rs/ll-core/schema/src/lib.rs:442-472 | the lookup of the specification |
| SchemaArena.Arena.EnsureDirs | rs/ll-core/schema/src/lib.rs:406-439 | interns the chain and adds a node for the root and every link that has none |
| SchemaArena.Arena.MoveFileRows | rs/ll-core/schema/src/lib.rs:900-934 | no id for the old path, one id for both, every table rewritten, or stopped at the first table whose key is taken with the tables before it rewritten |
| SchemaArena.Rekey | rs/ll-core/schema/src/lib.rs:909-932 | the loop over the tables rewrites them in the listed order up to the first whose rewritten keys clash, which it names; the clash is met in rewritten tables and decided by the tables as they were |
| SchemaArena.Arena.DeleteFileRows | rs/ll-core/schema/src/lib.rs:839-892 | the loop over the tables leaves what `SchemaRuns.DeleteRemovesTheFile` and `SchemaRuns.DeleteRemovesRows` state |
| SchemaRekey.MoveAndBack | rs/ll-core/schema/src/lib.rs:900-934 | a move and its reverse give the old id again and restore nodes, side tables and path tables, each exactly when the other range or path was unused in it |
| SchemaRekey.MoveKeepsPathBelowFile | rs/ll-core/schema/src/lib.rs:900-934 | after a move into an unused range every node is below the new file's node by the same names |
| SchemaRekey.MoveRewritesRows | rs/ll-core/schema/src/lib.rs:900-934 | a move that is made takes every id that decodes to the old file, in every column of every table, to the same ordinal of the new one, the old path to the new, and changes nothing else |
| SchemaRekey.MoveChangesNothing | rs/ll-core/schema/src/lib.rs:900-907 | a move of a path without an id changes nothing; one of a path with an id changes nothing and keeps that id exactly when both paths are the same to interning |
| SchemaRekey.MoveRefusedIff | rs/ll-core/schema/src/lib.rs:900-934 | a move is refused exactly when some ordinal is in both files in a table keyed by node id, or the source table has rows under both paths; refused, exactly the tables listed before the first such one are rewritten, otherwise it is made |
| SchemaRekey.MoveCollidesIff | rs/ll-core/schema/src/lib.rs:900-925 | it is refused at the nodes exactly when some ordinal has a node in both files, and then no row changes |
| SchemaRekey.MoveStopsAtSource | rs/ll-core/schema/src/lib.rs:925-932 | when only the source table's key is taken, nodes and side tables have the new ids and path tables the old path |
| SchemaRekey.AliasDeleteKeepsPathRows | rs/ll-core/schema/src/lib.rs:839-892 | such rows are there after a delete under "/x" of the file "x": its nodes go, its path rows stay |
| SchemaRekey.MoveKeepsKeys | rs/ll-core/schema/src/lib.rs:900-934 | no move, made or refused, leaves two rows on one key |
| SchemaRekey.DeleteKeepsKeys | rs/ll-core/schema/src/lib.rs:872-892 | nor does a delete |
| SchemaRekey.MoveOntoLiveFileCollides | rs/ll-core/schema/src/lib.rs:912-925 | in particular onto a path whose file still has its own node |
| SchemaRuns.DeleteRemovesTheFile | rs/ll-core/schema/src/lib.rs:839-892 | exactly the nodes that decode to the file go, and the path binds to its id again |
| SchemaRuns.DeleteRemovesRows | rs/ll-core/schema/src/lib.rs:839-892 | deleting any path keeps the set of tables, removes from each id-keyed one exactly the rows whose id decodes to the path's file and from each path-keyed one exactly those under the path, and keeps every other row as often as it was there |
| SchemaRuns.KeptRowsAre | rs/ll-core/schema/src/lib.rs:872-892 | a delete drops exactly the rows meant and keeps every other as often as it was there |
| SchemaRuns.DirNodesChain | rs/ll-core/schema/src/lib.rs:406-439 | making the nodes of a chain interns the same chain as interning it alone |
| SchemaRuns.DirNodesAdd | rs/ll-core/schema/src/lib.rs:406-439 | the last directory has a node afterwards and no node that was there changes |
| SchemaRuns.RunExtends | rs/ll-core/schema/src/lib.rs:172-192 | over every run of operations the interning tables stay well-formed and only gain rows |
| SchemaRuns.RunKeepsKeys | rs/ll-core/schema/src/lib.rs:839-934 | over every run of operations, moves that stop half way included, no two rows share a primary key |
| SchemaRuns.PathKeepsItsId | rs/ll-core/schema/src/lib.rs:383-472 | over every run a path keeps the id it was first given |
| SchemaRuns.RelativePathsNeverShare | rs/ll-core/schema/src/lib.rs:109-112 | after every run different relative paths have different ids and disjoint id ranges |
| SchemaAdds.EnsureAddsOnly | rs/ll-core/schema/src/lib.rs:383-400 | giving a path an id adds only names of its components, directories on its way and at most the file |
| SchemaAdds.EnsureDirsAddsOnly | rs/ll-core/schema/src/lib.rs:406-439 | making a path's directory nodes gives one to the root and every directory on its way that has none, with the row the source writes, and changes or adds no other |
| SchemaDirs.EnsureDirNodesOk | rs/ll-core/schema/src/lib.rs:406-439 | the last directory of the path has a node, every directory node repeats its row below its parent's node, and the directory spells the path's components |
| SchemaDirs.RunKeepsDirs | rs/ll-core/schema/src/lib.rs:406-439 | over every run directory nodes repeat their rows and none dangles |
| SchemaDirs.DirectoryAgreesIff | rs/ll-core/schema/src/lib.rs:563-623 | renderer and walk agree on a directory exactly when no component of its path is empty after one that is not |
| SchemaDirs.EnsureDirsAgreesIff | rs/ll-core/schema/src/lib.rs:406-439 | the same condition on the path a caller passes, in any arena |
| SchemaDirs.DoubleSlashDisagrees | rs/ll-core/schema/src/lib.rs:587-597 | for a path with a double slash the last directory is rendered with a trailing slash by one and without by the other |
| SchemaDirs.RunDirectoriesAgree | rs/ll-core/schema/src/lib.rs:563-623 | over every run whose directory paths have no empty component the two agree on every directory |
| SchemaDirs.FreshArenaDisagrees | rs/ll-core/schema/src/lib.rs:587-597 | in a new arena one call with a double slash gives an acyclic tree in which they disagree |
| SchemaDirs.FreshRunDirectoriesAgree | rs/ll-core/schema/src/lib.rs:563-623 | from a new arena they agree on every directory after every run without empty components |

## Left out

- Real BLAKE3 compression, SHA-256 and signatures; hashes are ideal terms or parameters.
- mmap, fsync, free-space queries, memory orderings and power loss; a crash is the death of a process.
- Wrap-around of the seqlock counter and of the temporary-name counter; both are unbounded here.
- Paths containing NUL in the control block, a path too long for its field, which is refused before the lock is taken, and two threads sharing one control handle.
- The control block's magic and version checks, interrupt flags and payload location.
- `create_arena` on an existing file, which keeps a header that is already there.
- SQLite itself: statements, indexes, row ids beyond 2^63, and a caller's transaction, which could undo a move that stops half way; the append-only triggers are the absence of steps that delete or renumber.
- Uniqueness of `_source.file_id`, a column no operation here writes.
- `_source.file_id` after a move, which the code does not rewrite, and `_lsp_refs` rows whose referrer lies in a deleted file.
- `refresh_source_paths_under_dir` and directory renames.
- SchemaDirs.RunKeepsDirs: speaks of runs that insert a directory's node only as its `dirs` row has it, and of fewer than 2^39 files, beyond which file ids run into directory ids.
- The age test and the report of a sweep; here a sweep may remove any temporary file at any time.
- ControlReads.ReadsReturnWholePublishes: asks that `set_arena` does not begin over a torn root, because without that it is false, as `ControlTorn` shows.
- SchemaRoundTrip.ResolveUndoesRender: gives conditions under which the round trip holds and does not prove each of them necessary.
- ArenaFiles.Disk.WriteGrownArena: does not model a directory sync or a rename that fails.
- The cache, the file system mount, the parsers, the daemon, the language bindings and the generated code.
