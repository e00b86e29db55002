# Verified model of heurema

heurema keeps named search indexes. An index is either an HNSW vector graph or a
BM25 full-text index; a durable lifecycle publishes its versions through a
backend; rank fusion combines result lists. This project models four parts and
proves what they keep.

- **The graph engine** (`HnswIndex`, on `Adjacency`, `Backbone`, `BestFirst`,
  `HnswGraph`, `HnswChange`, `HnswQuery`, `HnswSnapshot`). A class over the nodes,
  the entry point and the level generator runs insertion, removal, pruning,
  splicing, search and queries in place. Each level is a degree-bounded reciprocal
  link graph; the backbone is one cycle through all nodes. `Sound` is the
  invariant; queries are compared with scoring every node. `HnswSearch`, `HnswLinks`,
  `HnswInsertion`, `HnswRemoval` and `HnswLevels` say what each operation does of the
  stored links, the configuration's fields and the generator's bits alone.
- **The lifecycle** (`Records`, `Versions`, `Audit`, `Validate`, `History`,
  `Slots`, `Protocol`, `Interleavings`, `WriterLock`, `LockedRuns`, `Stores`,
  `Atmis`, `Quarantines`, `Thesauros`, `Driver`). Versions and audit records are
  built as the driver builds them. `Protocol` is a transition system in which any
  number of clients, recovery and readers interleave one backend call at a time;
  `Interleavings` proves its invariant for every action sequence. `WriterLock` is
  the shared writer one critical section at a time, and `LockedRuns` composes the
  two. `Stores` puts the writes under storage keys; `Atmis` and `Thesauros` are the
  two backends; `Driver` runs a whole mutation against one. `Acceptance` writes out
  which requests pass, `Progress` how each ends, `Contents` and `Changes` what
  versions hold and records list, `SlotLaws` what the writes promise any caller.
- **Encodings** (`Identifiers`, `Texts`, `StorageKeys`, `Digests`, `Encoding`,
  `Items`, `Canonical`, `Operations`, `JsonDepth`). `Encoding` is the tagged
  encoder; `Meaning` in `Items` is what a value stands for, with maps as maps.
  `Grammar` reads items by the documented table, `OperationItems` an operation by its
  documented schema.
- **Derived indexes** (`Bm25`, `Bm25Answers`, `Rrf`).

Conventions. Distances and scores are integers placed by their total order: the
pair (distance, identity) is what the engine compares, and `narrow` turns an
internal distance into a public score or refuses it. `u64` and `usize` limits are
written out where the code checks them. Stored bytes are the values they encode.
A lemma named `XIs` unfolds a definition for other proofs.

The documentation of rank fusion promises one order for every arrangement of the
rankings. That holds of exact sums (`Rrf.Arrangement`); the code adds `f64` values
in ranking order.

## Definitions

The functions the statements below are about, with the code they model:

- `Versions.SuccessorOf`, `Published`, `DestroyedFrom`: crates/heurema/src/lifecycle/apply.rs:132-189, 297-399.
- `Validate.CheckChange`, `CheckAgainst`, `Permit`: crates/heurema/src/lifecycle/validate.rs:219-345.
- `Records.DecoderAccepts`: crates/heurema/src/lifecycle/encoding.rs:99-120, 244-288.
- `Slots.WriteStage`, `WritePublish`, `WriteDestroy`, `WriteQuarantine`: one index's share of crates/atmis/src/lib.rs:363-423, 475-496; `Stores.StageIn` and its siblings are the same writes under storage keys.
- `Protocol.AdvanceClient`: one backend call of crates/heurema/src/lifecycle/driver.rs:300-346, 487-605; `AdvanceReader`: 374-386, 445-466; `Recover`: a quarantine of any marker.
- `Encoding.Encode`: crates/heurema/src/lifecycle/digest.rs:352-566 over what a serializer emits; `Operations.OperationValue`: digest.rs:177-275.
- `HnswChange.Placed`, `ConnectedDown`, `Descend` and `HnswQuery.Pool`: crates/heurema/src/hnsw/engine.rs:568-661 as values.
- `Bm25.DirectScore`: the scoring formula of crates/heurema/src/fts/bm25.rs:41-70 with its weights as parameters.

## Model

| member | source | states |
|---|---|---|
| Adjacency.LinkedKeepsLayer | crates/heurema/src/hnsw/engine.rs:404-441 | Linking two nodes and pruning both leaves links reciprocal, without self-links or dangling identities, and within the degree limit at that level |
| Adjacency.LinkedEachKeepsLayer | crates/heurema/src/hnsw/engine.rs:601-610 | Linking a new node to each of its candidates in turn keeps the same |
| Adjacency.RelinkedKeepsLayer | crates/heurema/src/hnsw/engine.rs:523-538 | The pairwise re-linking of a removed node's former neighbours keeps the same |
| Adjacency.RemovedKeepsLayer | crates/heurema/src/hnsw/engine.rs:516-539 | Detaching a node and re-linking its neighbours leaves no mention of it and keeps links reciprocal and bounded |
| Backbone.SpliceKeepsCycle | crates/heurema/src/hnsw/engine.rs:491-510 | Splicing a new node beside an anchor turns a single cycle through all old nodes into a single cycle through all nodes, also from one and from two nodes |
| Backbone.BypassKeepsCycle | crates/heurema/src/hnsw/engine.rs:540-550 | Taking a node out and joining its two neighbours leaves a single cycle through the survivors |
| Backbone.CycleSpans | crates/heurema/src/hnsw/engine.rs:160-172 | From any node of such a cycle the backbone alone reaches every node |
| Backbone.CycleHasDegrees | crates/heurema/src/hnsw/engine.rs:133-159 | A single cycle has the degrees and the edge count the snapshot check asks for |
| Backbone.DegreesMakeCycle | crates/heurema/src/hnsw/engine.rs:133-172 | Local degrees, reciprocity, the edge count and a reachability walk together force one single cycle: the converse |
| BestFirst.VisitsExtend | crates/heurema/src/hnsw/engine.rs:349-398 | A best-first search with a larger budget only extends the visits of a smaller one |
| BestFirst.VisitsCount | crates/heurema/src/hnsw/engine.rs:349-398 | On a graph reachable from its entries the search visits as many nodes as its budget, or all of them |
| BestFirst.KeepPush | crates/heurema/src/hnsw/engine.rs:377-381 | Pushing a candidate, sorting and dropping the overflow keeps the nearest of everything pushed so far |
| BestFirst.WalkDescends | crates/heurema/src/hnsw/engine.rs:308-347 | The greedy walk never ends farther than it began, and with steps enough for the graph it ends where no link is nearer, so it needs no visited set |
| HnswGraph.BaseSpans | crates/heurema/src/hnsw/engine.rs:822-834 | On a sound graph every node is reachable from every node at the base layer |
| HnswChange.RemovalKeepsSound | crates/heurema/src/hnsw/engine.rs:512-560 | A removal leaves every layer bounded and reciprocal and the backbone one cycle through the survivors |
| HnswChange.InsertedKeepsSound | crates/heurema/src/hnsw/engine.rs:568-617 | An insertion does too, on every graph, vector and level |
| HnswChange.EntrySurvives | crates/heurema/src/hnsw/engine.rs:551-559 | Removing a node that is not the entry leaves the entry the smallest identity at the highest level |
| HnswChange.EntryWithIsEntry | crates/heurema/src/hnsw/engine.rs:459-468 | The incremental entry update on insertion gives the same entry as selecting it over all nodes |
| HnswIndex.Index.constructor | crates/heurema/src/hnsw/engine.rs:195-211 | A new index holds nothing and is valid, level seed included |
| HnswIndex.Index.GreedyAtLevel | crates/heurema/src/hnsw/engine.rs:308-347 | The greedy loop is the steepest descent with the given number of steps |
| HnswIndex.Index.SearchLayer | crates/heurema/src/hnsw/engine.rs:349-398 | The frontier loop, duplicates included, returns the nearest of the first visits of a best-first search; with `retained` at least the budget, as both callers pass it, the early break never cuts it short |
| HnswIndex.Index.Prune | crates/heurema/src/hnsw/engine.rs:404-425 | Keeps a node's nearest links up to the limit and drops the reverse links of the rest |
| HnswIndex.Index.Link | crates/heurema/src/hnsw/engine.rs:427-441 | Adds the link both ways and prunes both ends; no other level and no backbone edge changes |
| HnswIndex.Index.ConnectBackbone | crates/heurema/src/hnsw/engine.rs:470-480 | Adds one backbone edge both ways, and nothing for equal ends |
| HnswIndex.Index.DisconnectBackbone | crates/heurema/src/hnsw/engine.rs:482-489 | Removes one backbone edge both ways |
| HnswIndex.Index.SpliceBackbone | crates/heurema/src/hnsw/engine.rs:491-510 | Puts the node on the edge from the anchor to its first neighbour |
| HnswIndex.Index.RelinkLevel | crates/heurema/src/hnsw/engine.rs:523-538 | The double loop over former neighbours links every pair once, in order |
| HnswIndex.Index.RemoveFromBackbone | crates/heurema/src/hnsw/engine.rs:540-550 | Opens the cycle at the removed node and joins its two neighbours |
| HnswIndex.Index.RemoveNode | crates/heurema/src/hnsw/engine.rs:512-560 | Keeps the whole index valid; the result is exactly one removal; an absent identity changes nothing |
| HnswIndex.Index.ReselectEntry | crates/heurema/src/hnsw/engine.rs:443-457 | The entry becomes the smallest identity at the highest level |
| HnswIndex.Index.NextLevel | crates/heurema/src/hnsw/engine.rs:295-306 | The generator state never becomes zero and the level is the number of trailing zero pairs, at most 16 |
| HnswIndex.Index.ConsiderNewEntry | crates/heurema/src/hnsw/engine.rs:459-468 | Moves the entry exactly when the new node is higher, or as high with a smaller identity |
| HnswIndex.Index.Insert | crates/heurema/src/hnsw/engine.rs:568-617 | Refuses a bad configuration or vector changing nothing; otherwise the index stays valid and equals the insertion, or a replacement by removal and insertion |
| HnswIndex.Index.Query | crates/heurema/src/hnsw/engine.rs:619-661 | Answers what searching the descent's pool and ranking by public score answers, with the same refusals |
| HnswIndex.Index.Remove | crates/heurema/src/hnsw/engine.rs:663-666 | Removes one identity or changes nothing, and keeps the index valid |
| HnswIndex.Index.Len | crates/heurema/src/hnsw/engine.rs:668-670 | Counts the stored nodes |
| HnswIndex.XorShiftKeepsNonZero | crates/heurema/src/hnsw/engine.rs:295-300 | The xorshift step maps no non-zero state to zero |
| HnswQuery.PoolIs | crates/heurema/src/hnsw/engine.rs:628-640 | A query's pool holds distinct stored nodes: as many as the beam, or all of them |
| HnswQuery.QueryRanks | crates/heurema/src/hnsw/engine.rs:619-661 | Every accepted answer lists min(k, n) distinct stored identities with their own scores, sorted by (score, identity) |
| HnswQuery.QueryIsExact | crates/heurema/src/hnsw/engine.rs:619-661 | Once the beam covers the graph the answer is the brute-force top k, refusals included |
| HnswQuery.QueryPrefix | crates/heurema/src/hnsw/engine.rs:680-687 | For k1 <= k2 <= 8m the smaller answer is a prefix of the larger |
| HnswSnapshot.Load | crates/heurema/src/hnsw/engine.rs:84-183 | A stored graph is accepted exactly when it is well-formed; it may abort only on a link that names a level the other node lacks |
| HnswSnapshot.Reach | crates/heurema/src/hnsw/engine.rs:160-172 | The reachability walk sees exactly the nodes the backbone reaches |
| HnswSnapshot.CheckDegrees | crates/heurema/src/hnsw/engine.rs:133-159 | The degree pass accepts exactly rings whose degrees are those of one cycle |
| HnswSnapshot.SaveAndLoad | crates/heurema/src/hnsw/engine.rs:84-183 | A graph the mutations reach is accepted again exactly when its configuration is valid |
| Versions.ApplyInsert | crates/heurema/src/lifecycle/apply.rs:191-221 | The loop over the sorted members ends with the engine, table and changes of applying them one after another, or with the first refusal |
| Versions.ApplyRemove | crates/heurema/src/lifecycle/apply.rs:223-257 | Likewise for removals; an absent member leaves only its audit entry |
| Versions.ApplyRebuild | crates/heurema/src/lifecycle/apply.rs:259-292 | Likewise for a rebuild, which starts empty and drains the previous table |
| Audit.InsertWrites | crates/heurema/src/lifecycle/apply.rs:191-221 | An insert writes exactly the batch: each entry at the new version, linked to the one it replaces, and one change each |
| Audit.RemoveTakes | crates/heurema/src/lifecycle/apply.rs:223-257 | A removal takes exactly the batch out and records what it took |
| Audit.RebuildWrites | crates/heurema/src/lifecycle/apply.rs:259-292 | A rebuild holds exactly its batch, each entry linked to the previous table |
| Audit.InsertExplains | crates/heurema/src/lifecycle/apply.rs:191-221 | The changes of an insert tell, member by member, what the table held before |
| Audit.RemoveExplains | crates/heurema/src/lifecycle/apply.rs:223-257 | So do those of a removal |
| Audit.RebuildExplains | crates/heurema/src/lifecycle/apply.rs:259-292 | So do those of a rebuild, dropped members included |
| Audit.DestroyExplains | crates/heurema/src/lifecycle/apply.rs:297-332 | So do those of a destroy, which retires every member |
| Audit.UndoRestores | crates/heurema/src/lifecycle/apply.rs:34-81 | Undoing the changes on the new table gives the old table exactly |
| Validate.AcceptedApplies | crates/heurema/src/lifecycle/validate.rs:170-249 | An operation that passed both checks builds on every state it was checked against: only the version counter can run out; what it builds passes the decoder |
| Validate.InsertRuns | crates/heurema/src/lifecycle/encoding.rs:122-137 | The engine refuses no member its own content check accepts, and holds exactly the members the table names |
| Validate.RemoveRuns | crates/heurema/src/lifecycle/encoding.rs:139-150 | So for removals |
| Validate.RebuildRuns | crates/heurema/src/lifecycle/apply.rs:259-292 | So for rebuilds |
| Validate.InsertFits | crates/heurema/src/lifecycle/encoding.rs:244-288 | Entries never name a later version and supersede only earlier ones, as decoding checks |
| Validate.RemoveFits | crates/heurema/src/lifecycle/encoding.rs:244-288 | So after a removal |
| Validate.RebuildFits | crates/heurema/src/lifecycle/encoding.rs:244-288 | So after a rebuild |
| Validate.CheckIds | crates/heurema/src/lifecycle/validate.rs:360-385 | Finds a repeat exactly when an identity is listed twice |
| Validate.BatchIsChecked | crates/heurema/src/lifecycle/validate.rs:360-385 | The identity check passes exactly when the sorted batch is strictly ascending |
| Validate.ListingOrder | crates/heurema/src/lifecycle/validate.rs:273-385 | Every listing of a batch meets the same stateless and stateful refusal, has the same canonical content and builds the same successor |
| Validate.RepeatsRefused | crates/heurema/src/lifecycle/validate.rs:360-385 | A batch that names a member twice is refused as a duplicate, in every listing, for inserts, rebuilds and removals |
| History.HistoryStands | crates/heurema/src/lifecycle/apply.rs:132-175 | In every history versions count the published operations, and a destroy is the last one |
| History.EventExplains | crates/heurema/src/lifecycle/apply.rs:191-354 | Each record's changes explain the step between the tables around it |
| History.RecordsRebuild | crates/heurema/src/lifecycle/apply.rs:191-354 | Undoing the records after event i on the last table gives the table after event i, for every history and i |
| History.DestroyedRebuilds | crates/heurema/src/lifecycle/apply.rs:297-332 | After a destroy the records alone rebuild every past table |
| History.EntriesTraced | crates/heurema/src/lifecycle/apply.rs:334-352 | Each entry was written by the version it names, and `supersedes` is what its member had in the version just before |
| Interleavings.EveryInterleaving | crates/heurema/src/lifecycle/driver.rs:300-346 | Every interleaving of driver steps, drops, quarantines and readers, with or without the writer lock, keeps the protocol's invariant |
| Interleavings.StorageExact | crates/atmis/src/lib.rs:363-423 | Active v: payloads exactly 1..v plus at most a staged v+1, and v records; destroyed: no payload, no marker, last_version+1 records; stages = published versions + staged + quarantined |
| Interleavings.HeadsNeverRecur | crates/heurema/src/lifecycle/driver.rs:307-313 | A head that changed never comes back |
| Interleavings.HeadsDiffer | crates/heurema/src/lifecycle/driver.rs:307-313 | No two states of a history share a head |
| Interleavings.AnswersAgree | crates/heurema/src/lifecycle/driver.rs:402-433 | Requests answered under one key were the same operation and got its one outcome: a key takes effect at most once |
| Interleavings.LateKeyRefused | crates/heurema/src/lifecycle/driver.rs:307-313 | A key recorded after a client read the head makes its write meet a moved head and change nothing |
| Interleavings.NeverReported | crates/heurema/src/lifecycle/driver.rs:300-346 | Driver clients never see OperationRecorded, VersionStored or corruption, and a build fails only when versions run out |
| Interleavings.ReadsWhole | crates/heurema/src/lifecycle/driver.rs:374-386 | A lock-free reader gets the whole version active at its first head read, or not-found after a destroy, never damage |
| Interleavings.StageKeeps | crates/atmis/src/lib.rs:363-380 | A stage by a driver client keeps the slot right and is refused only for a moved head or staged state |
| Interleavings.PublishKeeps | crates/atmis/src/lib.rs:382-423 | A publish or destroy extends the history by one event, or changes nothing |
| Interleavings.QuarantineKeeps | crates/atmis/src/lib.rs:475-496 | Moving a marker and its payload aside keeps the slot right and the count of stages exact |
| Interleavings.LoadKeeps | crates/heurema/src/lifecycle/driver.rs:445-466 | The payload read finds the version the head named, or the index was destroyed since |
| Interleavings.HeadReadKeeps | crates/heurema/src/lifecycle/driver.rs:402-433 | The lookup replays the recorded outcome, reports a conflict, or proves the key new at the head read |
| Interleavings.PrepareKeeps | crates/heurema/src/lifecycle/driver.rs:331-346 | Permission, staged-state check and build end in a plan for the state read, or in the refusals they should |
| Interleavings.SameIdentity | crates/heurema/src/lifecycle/digest.rs:145-175 | Equal key and digest build the same successor on every state |
| Driver.Apply | crates/heurema/src/lifecycle/driver.rs:262-346 | One mutation against a backend changes its index as the ten steps in order do, reports their ending, and touches no other index |
| Driver.StageAndPublish | crates/heurema/src/lifecycle/driver.rs:487-605 | Stage then publish, or destroy alone, with the first refusal reported |
| Driver.AloneIsSixCalls | crates/heurema/src/lifecycle/driver.rs:262-271 | That is what six uninterrupted calls of a protocol client do |
| WriterLock.EveryRun | crates/heurema/src/lifecycle/writer.rs:100-117 | In every run at most one thread holds the writer, the waiting count is the number of blocked threads, and no wake-up is lost |
| WriterLock.EnterAnswers | crates/heurema/src/lifecycle/writer.rs:100-106 | A thread that holds the writer is refused at once; any other takes it or waits |
| WriterLock.Writer.constructor | crates/heurema/src/lifecycle/writer.rs:83-92 | A new writer is free |
| WriterLock.Writer.Acquire | crates/heurema/src/lifecycle/writer.rs:100-117 | The first critical section of acquiring is that step of the lock, on its fields |
| WriterLock.Writer.LookAgain | crates/heurema/src/lifecycle/writer.rs:108-113 | A woken thread looks again; the count it gives back includes itself |
| WriterLock.Writer.Drop | crates/heurema/src/lifecycle/writer.rs:174-179 | Dropping the guard clears the owner and leaves a notification to come |
| LockedRuns.EveryLockedRun | crates/heurema/src/lifecycle/writer.rs:100-117 | Composed with the driver: while mutations hold the writer, the holder has seen the latest head and owns whatever is staged |
| LockedRuns.LockedNeverRefused | crates/heurema/src/lifecycle/driver.rs:304-346 | Runs that all hold the writer and are dropped only before staging never meet HeadChanged, StagedStateExists or StagedStateMissing |
| Stores.StageActs | crates/atmis/src/lib.rs:363-380 | A stage under storage keys is the slot write of its index; other indexes do not see it; a refusal changes nothing |
| Stores.PublishActs | crates/atmis/src/lib.rs:382-399 | So is a publish |
| Stores.DestroyActs | crates/atmis/src/lib.rs:401-423 | So is a destroy |
| Stores.QuarantineActs | crates/atmis/src/lib.rs:475-496 | So is a quarantine |
| Stores.ScanFindsFirst | crates/thesauros/src/lib.rs:319-330 | The prefix scan finds exactly the lowest staged version of its index |
| Stores.OperationListIs | crates/atmis/src/lib.rs:454-473 | The operation listing holds exactly the index's records |
| Atmis.RangeIsScan | crates/atmis/src/lib.rs:173-178 | The first key from the prefix on, if it has the prefix, is the first of a full prefix scan |
| Atmis.Backend.ReadStaging | crates/atmis/src/lib.rs:347-361 | Reads the lowest staged version of the index with its marker |
| Atmis.Backend.Stage | crates/atmis/src/lib.rs:363-380 | The four checks in order, then both maps in place: the whole new state is the one `Stores.StageActs` is about |
| Atmis.Backend.Publish | crates/atmis/src/lib.rs:382-399 | The four checks in order, then three maps in place: the whole new state is the one `Stores.PublishActs` is about |
| Atmis.Backend.Destroy | crates/atmis/src/lib.rs:401-423 | Checks in order, then removes the listed payloads one by one |
| Atmis.Backend.Quarantine | crates/atmis/src/lib.rs:475-496 | Moves the marker and its payload to the end of quarantine, numbered one past the last |
| Atmis.Backend.NextSequence | crates/atmis/src/lib.rs:268-276 | One past the last entry, or exhausted |
| Atmis.Backend.ListOperations | crates/atmis/src/lib.rs:454-473 | The range cut at its first foreign key lists the same records as the prefix scan |
| Thesauros.Backend.Commit | crates/thesauros/src/lib.rs:283-292 | A batch takes effect item by item in order |
| Thesauros.Backend.ReadStaging | crates/thesauros/src/lib.rs:319-330 | Reads the lowest staged version of the index with its marker |
| Thesauros.Backend.Stage | crates/thesauros/src/lib.rs:530-554 | The same change and the same refusals as the in-memory backend |
| Thesauros.Backend.Publish | crates/thesauros/src/lib.rs:556-582 | The same |
| Thesauros.Backend.Destroy | crates/thesauros/src/lib.rs:584-607 | The same; the batch removes every listed payload |
| Thesauros.Backend.Quarantine | crates/thesauros/src/lib.rs:645-689 | The same, with the entry spread over two keys |
| Thesauros.Backend.NextSequence | crates/thesauros/src/lib.rs:431-441 | The last quarantine key carries the highest sequence |
| Thesauros.Backend.ListOperations | crates/thesauros/src/lib.rs:630-643 | The same list as the in-memory backend |
| Thesauros.Backend.ListQuarantined | crates/thesauros/src/lib.rs:691-734 | Rebuilds exactly the sequence of moved entries, never meeting an unpaired payload |
| Quarantines.IterationOrder | crates/thesauros/src/lib.rs:694-697 | Byte order of the quarantine keys is entry order, each marker before its payload |
| Quarantines.ReadsAllBack | crates/thesauros/src/lib.rs:691-734 | Reading back all halves in key order gives the entries |
| Quarantines.LastKey | crates/thesauros/src/lib.rs:431-441 | The last key names the last entry |
| Identifiers.Check | crates/heurema/src/lifecycle/identity.rs:103-136 | Accepts exactly the grammar and reports the first character outside it |
| Identifiers.NoSeparator | crates/heurema/src/lifecycle/identity.rs:139-158 | No identifier holds the separator of storage keys |
| StorageKeys.DecimalRoundTrip | crates/heurema/src/lifecycle/backend.rs:972-984 | A number is accepted exactly as it prints, and only if it fits a u64 |
| StorageKeys.HeadRoundTrip | crates/heurema/src/lifecycle/backend.rs:832-838 | The head parser accepts exactly what the printer writes and reads it back |
| StorageKeys.VersionRoundTrip | crates/heurema/src/lifecycle/backend.rs:846-857 | So for version and staging keys |
| StorageKeys.OperationRoundTrip | crates/heurema/src/lifecycle/backend.rs:874-884 | So for operation keys |
| StorageKeys.QuarantineRoundTrip | crates/heurema/src/lifecycle/backend.rs:891-920 | So for quarantine keys |
| StorageKeys.PrefixOwns | crates/heurema/src/lifecycle/backend.rs:779-783 | An index prefix starts the keys of that index and of no other |
| StorageKeys.VersionOrder | crates/heurema/src/lifecycle/backend.rs:743-745 | Within one index byte order of version keys is version order |
| StorageKeys.QuarantineOrder | crates/heurema/src/lifecycle/backend.rs:810-827 | Quarantine keys sort by sequence, a marker before its payload |
| Digests.Parse | crates/heurema/src/lifecycle/identity.rs:533-572 | Accepts exactly the texts digests print as, and reads them back |
| Digests.HexOnce | crates/heurema/src/lifecycle/identity.rs:586-593 | Different digests print differently |
| Encoding.Serialize | crates/heurema/src/lifecycle/digest.rs:352-566 | The encoder appends exactly one item for a value, or fails with the value's first error |
| Encoding.SerializeSeq | crates/heurema/src/lifecycle/digest.rs:580-609 | Elements go to a body of their own behind a tag and a count |
| Encoding.SerializeMap | crates/heurema/src/lifecycle/digest.rs:669-725 | Entries are encoded as they arrive, sorted by key bytes, and refused on a repeat |
| Encoding.FinishMap | crates/heurema/src/lifecycle/digest.rs:706-725 | Sorting makes every repeated key adjacent, so comparing neighbours finds it |
| Items.WrittenOnce | crates/heurema/src/lifecycle/identity.rs:448-470 | An item's encoding is a prefix of no other item's, and determines the item |
| Canonical.EncodeMeans | crates/heurema/src/lifecycle/digest.rs:352-566 | A value is refused exactly when it holds a float, raw JSON, a bad key or a repeated key (or some length overflows); otherwise its bytes are those of the item it stands for |
| Canonical.BytesMeanValues | crates/heurema/src/lifecycle/digest.rs:352-566 | Two values have equal bytes exactly when they are equal up to the order their maps are emitted in |
| Canonical.PrefixFree | crates/heurema/src/lifecycle/identity.rs:448-470 | No encoding is a proper prefix of another |
| Canonical.EmissionOrder | crates/heurema/src/lifecycle/digest.rs:706-725 | Emitting a map's entries in another order changes nothing |
| Canonical.RepeatedKeyRefused | crates/heurema/src/lifecycle/digest.rs:713-716 | A map that emits one key twice is refused, wherever the two are |
| Canonical.TwinsRepeat | crates/heurema/src/lifecycle/digest.rs:711-716 | After sorting, a repeated key is always found |
| Operations.BytesAreContent | crates/heurema/src/lifecycle/digest.rs:145-275 | Two operations have equal canonical bytes exactly when they have the same index and change, members in any order: what the digest stands for |
| Operations.SameOperation | crates/heurema/src/lifecycle/digest.rs:236-275 | Equal items come from the same index, transition and content |
| Operations.EmittedAlike | crates/heurema/src/lifecycle/digest.rs:236-275 | Listing order never reaches the encoding |
| Operations.Utf8Once | crates/heurema/src/lifecycle/digest.rs:456-458 | Different texts have different UTF-8 |
| Operations.NumberText | crates/heurema/src/lifecycle/digest.rs:325-341 | An arbitrary-precision number is the u64 or negative i64 it is exactly the decimal text of; any other text is refused |
| JsonDepth.Measure | crates/heurema/src/lifecycle/validate.rs:512-536 | The pass over the characters computes the deepest bracket level outside strings |
| JsonDepth.MeasuresDepth | crates/heurema/src/lifecycle/validate.rs:507-536 | On text a serializer wrote, that is how deeply the value nests |
| Bm25.Index.constructor | crates/heurema/src/fts/bm25.rs:178-185 | A new index is empty and consistent |
| Bm25.Index.RemoveDocument | crates/heurema/src/fts/bm25.rs:230-244 | Takes one document out of documents, postings and total; the saturating subtraction is exact |
| Bm25.Index.InsertDocument | crates/heurema/src/fts/bm25.rs:246-255 | Adds one document to all three |
| Bm25.Index.Insert | crates/heurema/src/fts/bm25.rs:264-270 | Replaces or adds the document; a refused pipeline changes nothing |
| Bm25.Index.Remove | crates/heurema/src/fts/bm25.rs:313-317 | Removes the document; a refused pipeline changes nothing |
| Bm25.Index.AddTerm | crates/heurema/src/fts/bm25.rs:285-303 | Adds one term's contribution to every document of its posting |
| Bm25.Index.Query | crates/heurema/src/fts/bm25.rs:272-311 | The posting-driven answer is the one from scoring every document directly |
| Bm25.AnswerRanks | crates/heurema/src/fts/bm25.rs:304-311 | The k best documents holding a query term, each once, best first; whoever is left out is behind |
| Bm25.DocumentTermsOf | crates/heurema/src/fts/bm25.rs:324-332 | Counts each token and the length |
| Bm25.TermsCounted | crates/heurema/src/fts/bm25.rs:324-332 | The counts are positive and add up to the length |
| Bm25.StateFromDocuments | crates/heurema/src/fts/bm25.rs:72-74 | Postings and total are functions of the documents: after any history they equal a fresh build |
| Bm25.Load | crates/heurema/src/fts/bm25.rs:123-173 | A snapshot is accepted exactly when its postings are the transpose of its documents, lengths and total add up, and a populated one has the supported pipeline |
| Bm25.CheckDocument | crates/heurema/src/fts/bm25.rs:130-147 | Accepts exactly documents with non-empty terms and positive counts adding up to the length |
| Bm25.ReachedLoads | crates/heurema/src/fts/bm25.rs:123-173 | Every state the mutations reach loads again while its total fits |
| Rrf.Fuse | crates/heurema/src/rrf.rs:56-96 | Every id once, with the sum over rankings of 1/(k + its first one-based rank), by score descending then id ascending |
| Rrf.Rrf | crates/heurema/src/rrf.rs:32-41 | Refuses exactly a constant that is not finite and positive |
| Rrf.Arrangement | crates/heurema/src/rrf.rs:15-19 | Over exact reals every arrangement of the rankings gives the same hits |
| Rrf.OneOutput | crates/heurema/src/rrf.rs:75-84 | The ordering leaves one output for a set of hits |
| HnswIndex.Index.DetachLevel | crates/heurema/src/hnsw/engine.rs:516-522 | Removes the node from each former neighbour's links and changes nothing else |
| HnswIndex.Index.RemoveAtLevel | crates/heurema/src/hnsw/engine.rs:516-539 | One level of a removal: detach, then re-link, leaving the other levels as they were |
| HnswIndex.Index.DescendLevels | crates/heurema/src/hnsw/engine.rs:598-600 | Walks greedily through the levels above the node's own, never leaving nodes high enough to go on |
| HnswIndex.Index.LinkAll | crates/heurema/src/hnsw/engine.rs:608-613 | Links the new node to each candidate in turn, nearest first |
| HnswIndex.Index.ConnectLevels | crates/heurema/src/hnsw/engine.rs:601-614 | Connects the new node level by level from the top down, each search starting where the last walk ended |
| HnswIndex.Index.StoreNode | crates/heurema/src/hnsw/engine.rs:574-616 | Stores an absent node, splices it beside the entry, connects it level by level, and moves the entry when it should |
| HnswIndex.Index.HighestLevel | crates/heurema/src/hnsw/engine.rs:443-457 | The highest level of the listed nodes, reached by one of them |
| HnswIndex.Index.SelectEntry | crates/heurema/src/hnsw/engine.rs:721-730 | The smallest identity at the highest level |
| HnswIndex.Index.Publish | crates/heurema/src/hnsw/engine.rs:640-660 | Refuses if any candidate has no score; otherwise ranks the pool and keeps k |
| HnswSnapshot.CheckNodes | crates/heurema/src/hnsw/engine.rs:97-132 | Accepts exactly graphs whose every node has its shape, limits and reciprocal links |
| HnswSnapshot.CheckBackbone | crates/heurema/src/hnsw/engine.rs:133-172 | Accepts exactly backbones that are one cycle |
| Validate.CheckFinite | crates/heurema/src/lifecycle/validate.rs:539-544 | Finds a component that is not finite exactly when there is one |
| Validate.CheckFamily | crates/heurema/src/lifecycle/validate.rs:556-590 | Finds a member of another family exactly when there is one |
| Validate.CheckContents | crates/heurema/src/lifecycle/validate.rs:576-608 | Finds a content the engine refuses exactly when there is one |
| Atmis.Backend.ReadHead | crates/atmis/src/lib.rs:324-327 | Reads the head of the index's slot |
| Atmis.Backend.ReadVersion | crates/atmis/src/lib.rs:329-336 | Reads a payload of the index's slot |
| Atmis.Backend.ReadOperation | crates/atmis/src/lib.rs:338-345 | Reads a record of the index's slot |
| Encoding.SerializeField | crates/heurema/src/lifecycle/digest.rs:684-702 | Encodes and checks a key before its value |
| Canonical.FieldsHold | crates/heurema/src/lifecycle/digest.rs:696-702 | Each field of a meaningful map was new when emitted and keeps its value |
| Texts.DigitsOrder | crates/heurema/src/lifecycle/backend.rs:743-745 | Numbers padded to one width sort as they count |
| Texts.PrefixesContiguous | crates/atmis/src/lib.rs:459-463 | Between a prefix and a key that has it, every key has it: a range scan may stop at the first that does not |
| Operations.SameChar | crates/heurema/src/lifecycle/digest.rs:451-454 | Different characters have different UTF-8 |
| Interleavings.GoneHead | crates/heurema/src/lifecycle/driver.rs:436-458 | A destroyed index shows a destroyed head, which is how a missing payload is told from damage |
| Interleavings.KeyUnrecorded | crates/heurema/src/lifecycle/driver.rs:307-313 | A key new when the head was read is still unrecorded while that head stands |
| LockedRuns.CallWorks | crates/heurema/src/lifecycle/driver.rs:304-346 | Each call of the writer's holder goes on or ends without a refusal |
| HnswSearch.WalkIsDownhill | crates/heurema/src/hnsw/engine.rs:308-347 | A greedy walk is steepest descent over the stored links: each step to the nearest link, stopped where none is nearer or out of steps |
| HnswSearch.VisitsInOrder | crates/heurema/src/hnsw/engine.rs:349-398 | A search visits, from its start, always the nearest node one stored link away from those visited |
| HnswSearch.PoolFinds | crates/heurema/src/hnsw/engine.rs:627-633 | A query scores what the descent through every upper level and the base-layer search from its end find, with the beam read off the configuration |
| HnswSearch.QueryFinds | crates/heurema/src/hnsw/engine.rs:619-661 | A query answers the k best of those candidates by (score, identity), each with its own score, everyone left out behind; refused exactly when a candidate has no score; all nodes once the beam covers them |
| HnswSearch.CandidatesDescend | crates/heurema/src/hnsw/engine.rs:628-630 | When the beam covers level 1, some candidate of level 1 or higher is no farther than the entry and no level-1 link of it leads nearer |
| HnswSearch.DescentBottoms | crates/heurema/src/hnsw/engine.rs:308-347 | With steps enough for a level, a descent ends where no link of that level leads nearer |
| HnswLinks.LinksMade | crates/heurema/src/hnsw/engine.rs:601-613 | Offering a bare node its candidates links only them, all that have fewer nearer links than the limit, and the first other one only then |
| HnswInsertion.InsertionFollows | crates/heurema/src/hnsw/engine.rs:593-614 | An insertion descends level by level from the entry over the links it leaves, visits max(ef_construction, m, 1) nodes at each of its levels, and links the nearest m of them (2m at the base); no other node gains a link but to the new one |
| HnswInsertion.InsertionIsNearest | crates/heurema/src/hnsw/engine.rs:593-613 | When max(ef_construction, m, 1) covers the graph, the new node is linked at the base to nodes among the min(2m, n) nearest of all; to each of those with fewer than 2m nearer links; and to the nearest other node exactly when that has fewer than 2m |
| HnswInsertion.InsertionSplices | crates/heurema/src/hnsw/engine.rs:491-510 | The new node stands between the entry and the smallest of its backbone neighbours; the rest of the backbone stays |
| HnswRemoval.RemovalRejoins | crates/heurema/src/hnsw/engine.rs:516-539 | Only former neighbours gain links, each to others; with room for all of them every pair is linked and nothing is lost |
| HnswRemoval.RemovalSpares | crates/heurema/src/hnsw/engine.rs:516-539 | Levels the removed node did not reach stay as they were |
| HnswRemoval.RemovalBypasses | crates/heurema/src/hnsw/engine.rs:540-550 | The removed node's two backbone neighbours become each other's, and the rest of the backbone stays |
| HnswLevels.LevelFromBits | crates/heurema/src/hnsw/engine.rs:301-305 | A node stands at level l or higher, up to 16, exactly when the low l pairs of bits of the state are clear |
| HnswLevels.FirstStates | crates/heurema/src/hnsw/engine.rs:204-205 | The first states after the fixed seed, worked out from the three shifts |
| HnswGraph.VectorRefusal | crates/heurema/src/hnsw/engine.rs:739-785 | A zero in the configuration, then the wrong dimension, then a component at or past infinity |
| Contents.ContentsAfter | crates/heurema/src/lifecycle/apply.rs:191-292 | After an insert every batch member holds its own content and every other what it held; after a removal the survivors do; after a rebuild exactly the batch is held |
| Contents.ContentsTraced | crates/heurema/src/lifecycle/apply.rs:191-292 | In every history a member holds the content and provenance that the operation its entry names listed it with |
| Contents.EventRecorded | crates/heurema/src/lifecycle/apply.rs:297-399 | Every event writes the next version on top of the last, or retires it, and its record names the operation, both versions and the configuration a rebuild replaced |
| Changes.EventChanges | crates/heurema/src/lifecycle/apply.rs:191-352 | Every record lists exactly the identities its operation touched, ascending, each as inserted, replaced, removed, absent, dropped or retired |
| Acceptance.CheckAnswers | crates/heurema/src/lifecycle/validate.rs:273-313 | The stateless check answers every request as documented, in the order of its steps, whatever order its members are listed in |
| Acceptance.CheckedIff | crates/heurema/src/lifecycle/validate.rs:273-313 | Exactly the non-empty, repeat-free, finite, fitting requests pass |
| Acceptance.PermitAnswers | crates/heurema/src/lifecycle/validate.rs:219-345 | Against a state: Create only on an absent index, the others on an active one; an insert must fit, families before dimensions; a rebuild keeps the family |
| Progress.MutationEnds | crates/heurema/src/lifecycle/driver.rs:300-346 | An acceptable mutation under a new key, nothing staged, goes through: create, fitting insert, remove, same-family rebuild publish the next version with what it holds, destroy retires all, and the rest end refused and change nothing |
| Progress.RecordedOrStaged | crates/heurema/src/lifecycle/driver.rs:307-330 | A recorded key is answered from its record, a staged version stops a permitted mutation, and neither writes |
| Progress.ReachedUndamaged | crates/heurema/src/lifecycle/driver.rs:374-386 | Every slot driver clients reach with nothing staged is one the progress result applies to |
| Progress.StagedTells | crates/heurema/src/lifecycle/driver.rs:642-694 | A staged version is the next one, and its marker names the index, the version, the operation of the payload beside it and that operation's kind |
| SlotLaws.WriteMeets | crates/atmis/src/lib.rs:363-423 | Each write meets the first refusal that applies and then changes nothing, or changes exactly what it names |
| SlotLaws.RecordsStay | crates/atmis/src/lib.rs:372-376 | Whatever is called afterwards, a stored record is never replaced or lost |
| SlotLaws.AnyRun | crates/atmis/src/lib.rs:363-496 | After any calls by anyone at most one version is staged, its payload is stored, what was moved aside kept its payload, and there is a head exactly when an operation is recorded |
| Grammar.BigOrder | crates/heurema/src/lifecycle/digest.rs:286-290 | Among numbers that fit w bytes, byte order is numeric order |
| Grammar.BigLeads | crates/heurema/src/lifecycle/digest.rs:286-290 | The first byte is the most significant: n / 256^(w-1) |
| Grammar.TextKeysSort | crates/heurema/src/lifecycle/identity.rs:474-476 | String keys order by byte length first and then bytewise |
| Grammar.UnsignedKeysSort | crates/heurema/src/lifecycle/digest.rs:706-712 | Unsigned keys of one width order as numbers |
| Grammar.ReadsBack | crates/heurema/src/lifecycle/identity.rs:448-469 | Reading by the documented grammar, tags and widths as its table states them, undoes the encoding whatever bytes follow |
| OperationItems.OperationRead | crates/heurema/src/lifecycle/identity.rs:415-440 | What an operation stands for has exactly the documented fields, under their names, members by ascending identity |
| OperationItems.BytesRead | crates/heurema/src/lifecycle/identity.rs:415-469 | An operation's canonical bytes read, by the grammar, as an item of the documented schema with nothing left over |
| Operations.CharSpells | crates/heurema/src/lifecycle/digest.rs:451-454 | UTF-8: the lead byte tells the length, later bytes start with bits 10, the remaining bits spell the code point |
| Identifiers.GrammarsAre | crates/heurema/src/lifecycle/identity.rs:139-158 | The three identifier grammars, written out |
| StorageKeys.KeyLayout | crates/heurema/src/lifecycle/backend.rs:774-827 | Each key is spelled as documented: separators, twenty digits, marker or payload |
| Digests.TwoDigits | crates/heurema/src/lifecycle/identity.rs:586-593 | Each byte prints as two digits, the more significant first |
| Bm25Answers.AnswerIsRanked | crates/heurema/src/fts/bm25.rs:272-311 | A query answers the k best documents that hold a token: each score adds, term by term in order, the weight of N, corpus length, document frequency, count and length |
| Rrf.FusedMeans | crates/heurema/src/rrf.rs:56-96 | What fusion returns, read off the rankings: every id that appears, the sum of 1/(k + first one-based rank), highest first |

## Left out

- Floating-point arithmetic: distances, cosine norms, BM25 weights and the narrowing to `f32` are parameters (`measure`, `narrow`, `Scoring`); sums of `f64` are reals in `Rrf`.
- SHA-256 (section 6.2 of FIPS 180-4): the digest is the canonical content it is computed from; `Operations.BytesAreContent` shows that content is what the bytes determine.
- JSON text and consumers' `Serialize` impls: records round-trip exactly, and the encoder starts from what a value emits. Emitting a map value without its key is not modelled.
- The consumer-value checks of validation (identities that encode as no key, values that do not round-trip, values nested too deeply); only the depth measure is modelled.
- Engines inside a version payload are their configuration and the calls made on them, not the graph or the postings.
- Members, provenance, retention and result identities are integers; only their order and equality matter.
- `IndexVersion` and `IndexIdentity` values arrive valid, as their types guarantee; parsing them is modelled.
- fjall, its journal, fsync, crashes inside a batch, value-size limits and poisoned locks: a batch commits as a whole.
- Saving and loading indexes by name (`PersistenceBackend`), the pointer-forwarding macro, `list_heads` and `list_staged`.
- Tokenizing and lowercasing: a document is the sequence of its non-empty tokens.
- The total BM25 length is unbounded while documents are inserted; the code adds `usize` values unchecked, and only loading checks for overflow.
- Upper-layer reachability and recall: links above the base layer can be pruned away, so only the base layer is claimed connected.
- Storage keys that are not UTF-8 are outside the parsers' text.
- Damaged stores and callers that bypass the driver's steps, beyond each write's own contract.
- HnswSnapshot.Load: a raw link to a level the other node does not have makes the source index out of range; that outcome is `Aborted`, and accepted is still equivalent to well-formed.
- LockedRuns.LockedNeverRefused: each mutation runs on its own thread, and quarantine is left to runs without the lock guarantee.
- Rrf.Arrangement: stated over exact reals, because `f64` addition is not associative once three rankings are summed.
