# ta_node: a model of the event queue, the session tracker and the matching core

ta_node is a network sensor. This project models the parts of it whose correctness is hard to see from
any one function, and proves what they promise:

- **The lossless event queue** (`internal/queue`). An event is encoded into a content-addressed graph of
  JSON fragments and 4096-byte chunks, restored, read by range, copied between databases, garbage
  collected, archived into segment files under a crash-recovery protocol, migrated with resumable
  cursors and spread over shards.
- **TCP reassembly and the session tracker** (`internal/correlation`). A bounded window of sequence
  numbers modulo 2^32 (section 3.4 of RFC 9293) exposes the contiguous prefix of each direction; on it
  sits a machine of sessions and transactions that emits numbered revisions of events.
- **The matching core**: the indicator store and the index that racing workers rebuild
  (`internal/intel`), the server name of a TLS ClientHello (`internal/parser`) and the sliding-window
  hit counter (`internal/counter`).

## How the model is built

SHA-256, zlib and encoding/json are values of the datatype `Lib`. The hash function is arbitrary: storing,
restoring and archiving are proved without assuming that it has no collisions, and so is that a completed
migration is right. Where copying depends on two objects not having one hash the statement says which
(`Copy.AllStable`, `Copyable.NoClash`, `Migrate.Clearable`). What is used of the others is written down as laws (`Lawful`, `ParseLaw`,
`JsonLawful`); `Laws.LawsMet` and `Laws.JsonLawsMet` exhibit a library that meets them all and can print every
node, and `Witnesses` shows with it what the encoder accepts. Reflection over Go values becomes the datatype
`Value`. Each SQL transaction is one step on maps and sets; time, random ids, file names, map iteration order
and the outcome of file operations are parameters or nondeterministic choices.

Where the source updates things in place the model does too: `Writers.ObjectWriter`, `Writers.Renderer`,
`Writers.Copier`, `Collect.Tables`, `Readers.Disk`, `Migrate.Migration`, `Reassembly.SideState`,
`Tracking.Tracker`, `Shards.ShardedQueue`, `Intel.Store`, `Matching.Matcher` and `Counter.Window` are classes
whose methods are proved against functions on values; the theorems are about those functions. Concurrent
protocols (archiving with crashes, migration with interruptions, index rebuilds) are state machines, and their
theorems hold after every sequence of steps.

## What was found

- Restoring a payload gives the event's JSON byte for byte exactly when at most 257 levels of nodes are stored and
  no stored object has a key that is not valid UTF-8 (`RoundTrip.PayloadRoundTrip`). Encoding accepts both
  (`Witnesses.TooDeepIsAccepted`, `Witnesses.BadKeyIsAccepted`).
- Copying, which archiving and migration do, refuses more than restoring. It counts the chunks of a string as a level,
  so that an event with a long string in its 257th level of nodes is restored and can be refused by the copy
  (`Witnesses.RestoredNotCopied`); and an event with such a key can be refused by every copy
  (`Witnesses.BadKeyNotCopied`). On the other hand it visits a node once, so that only the first path to it counts: a
  graph is copied if and only if its nodes are readable and print to their ids, none is on a cycle, and the first path
  to each has at most 257 nodes (`Copyable.CopyExactly`). Events with valid keys and few enough levels always are
  (`Copyable.StoredIsCopyable`).
- Two events get one queue row exactly when the id of one is spelled like a revision key of the other
  (`RecordKeys.SharedKeys`, `RecordKeys.SeparatorCollides`).
- A row of a database from before sharding is in shard 0. If its event routes elsewhere it is returned and sent for
  ever, because it is marked in the other shard (`Shards.DrainedAtHome`, `Shards.NeverDrained`): the comment that such
  databases are drainable without migration holds only for events that route to shard 0.
- The merge of pending rows passes over no earlier event if and only if row ids follow creation times
  (`Shards.OrderNeeded`): a clock that is set back between two rows is enough (`Shards.ClockSetBack`).
- Migration starts its cursor at 0, so rows with ids of 0 or less are not copied (`Migrate.CompletedMigration`). A run
  succeeds if it may begin, is not cancelled, the source is still frozen, every row could be migrated by itself, no two
  rows share a key or an id, and no id stands for two objects; and, for sources free of collisions, only if
  (`Migrate.Migration.MigrateFrozen`, with `Portability.PortableExactly` and `Portability.AdmittedExactly`).
- A final event can be followed by a revision that is not final. It is exactly when the event was registered under
  an identity that a newer transaction had taken over, and that one was still open at its next revision
  (`Revisions.EmittedRevisions`); `TrackerRuns.RevertingRun` is such a run.
- Updates of an event are an interval apart for as long as their times are positive and do not go back
  (`Revisions.UpdatesApart`). A packet with time zero defeats the pause (`TrackerRuns.ZeroTimeRun`).
- Of a feed that is merged into the store every indicator is there afterwards exactly when they all go to different
  ids (`Intel.FeedDelivered`); of two that come with one id, one is lost (`Intel.OneIdLoses`). And an indicator that
  the feed does not have is replaced exactly when an entry of the feed goes to its id (`Intel.OldKept`).
- A worker can match one packet on an outdated index after its own check, if a slower worker installs what it listed
  earlier (`Racing.StaleAfterEnsure`). At the end of the check itself the index is never older than the version the
  worker read (`Racing.EnsuredSince`); it stays so until such a slower worker installs (`Racing.MatchedSince`), and the
  next undisturbed check puts the index right (`Racing.Recovers`).
- The range read takes the first member of a name and parsing the text the last (`Ranges.RepeatedMisread`); they agree
  exactly when that makes no difference (`Ranges.ChildPicks`).
- A ClientHello that continues in the next segment is documented as not recognised. It is recognised exactly
  when its server_name extension is complete in this one (`Sni.HelloCut`).

## Model

| member | source | states |
|---|---|---|
| `Laws.LawsMet` | internal/queue/content.go:346-360 | The laws assumed of hash, zlib and encoding/json in storing can be met together, by a library that prints every node, reads it back and has keys that are not valid UTF-8 |
| `Laws.JsonLawsMet` | internal/queue/range.go:20-52 | The laws assumed of reading JSON objects and strings are met by the same library |
| `Laws.DecodesListed` | internal/queue/range.go:20-52 | In that library parsing an object undoes printing it, the last of repeated members winning |
| `Graph.PackUnpack` | internal/queue/content.go:55-128 | Compression choice, size column and checksum undo each other for every object within the bound |
| `Graph.SaveKeeps` | internal/queue/content.go:157-202 | Saving keeps the tables consistent (rows sound, edges exact, references resolved, no cycle), changes no row and leaves the node readable; no assumption on collisions |
| `Graph.InsertKeeps` | internal/queue/content.go:186-197 | A row and its edges, added after its children, keep the graph consistent and rankable |
| `Graph.RenderAgrees` | internal/queue/content.go:389-467 | Rendering depends only on the nodes the fragment reaches |
| `Graph.RenderExtends` | internal/queue/content.go:389-467 | What can be rendered renders alike in every table that holds the same nodes and more; no soundness of the tables is needed |
| `Graph.VisitingIrrelevant` | internal/queue/content.go:397-401 | In a ranked graph the cycle guard never refuses a rendering |
| `RoundTrip.SaveChunksOk` | internal/queue/content.go:216-228 | The saved chunks read back and concatenate to the data |
| `RoundTrip.StringOk` | internal/queue/content.go:203-230 | The fragment of a string, inline, chunked or hex, renders to the string's JSON at every depth allowed |
| `RoundTrip.EncodeOk` | internal/queue/content.go:240-345 | Encoding keeps the store, changes no row, and gives a fragment that renders to the restored text of the value, at every depth, or is refused exactly below the depth limit |
| `RoundTrip.RestoredExact` | internal/queue/content.go:416-429 | The restored text is never longer than the JSON and equals it exactly when stored keys are valid UTF-8 |
| `RoundTrip.EncodePayloadOk` | internal/queue/content.go:346-388 | A payload written is a version-2 manifest of a stored root that decodes to the restored text, or to an error exactly when too deep |
| `RoundTrip.PayloadRoundTrip` | internal/queue/content.go:346-467 | Decoding an encoded payload gives exactly the direct JSON if and only if depth and keys allow it, also in every later table that agrees on what the root reaches |
| `RoundTrip.NestingBoundsDepth` | internal/queue/content.go:397-399 | Nesting of the value bounds the levels of nodes, so values nested at most 256 levels are never refused |
| `Encodable.EncodeSaves` | internal/queue/content.go:240-345 | Encoding a value is saving its nodes in order and nothing else; the nodes and the fragment that stands for the value are told by recursion on the value alone |
| `Encodable.HexFieldExactly` | internal/queue/content.go:203-215 | Stored in binary are exactly the strings that are the lower-case hex of some bytes, under keys that end in _hex |
| `Encodable.SaveAllExactly` | internal/queue/content.go:157-202 | A sequence of nodes can be saved if and only if each prints in at most 16 MB and no id stands for two objects, stored or among them; the table then holds what it held and exactly these |
| `Encodable.EncodeExactly` | internal/queue/content.go:346-373 | An event can be stored, in every store whose rows can be read, if and only if each of its nodes prints in at most 16 MB and no id stands for two objects; the payload names the root told by the value |
| `Witnesses.TooDeepIsAccepted` | internal/queue/content.go:346-401 | For each n below 1000 a long string inside n arrays is encoded, and restored if and only if n is at most 256 |
| `Witnesses.BadKeyIsAccepted` | internal/queue/content.go:346-429 | An event with a key that is not valid UTF-8 is encoded, and a different, shorter text is restored |
| `Writers.ObjectWriter.SaveNode` | internal/queue/content.go:157-202 | The writer's tables and cache end as Save says, edge by edge, with the same error cases |
| `Writers.ObjectWriter.WriteString` | internal/queue/content.go:203-230 | The chunk loop refines StringValue |
| `Writers.ObjectWriter.EncodeValue` | internal/queue/content.go:240-345 | Depth-first encoding with loops over members refines Encode, which saves exactly the nodes of the value and fails exactly if one cannot be saved (`Encodable.EncodeSaves`, `Encodable.SaveAllExactly`) |
| `Writers.WritePayload` | internal/queue/content.go:346-360 | Refines EncodePayload |
| `Writers.Renderer.RenderFragment` | internal/queue/content.go:389-467 | Appends exactly the rendered text to the buffer, succeeds exactly when Render does, and leaves the guard set as it was, also on failure |
| `Writers.Renderer.JoinChunks` | internal/queue/content.go:441-462 | The chunk loop gives the concatenated data or fails as ReadChunks does |
| `Writers.RestorePayload` | internal/queue/content.go:374-388 | Refines DecodePayload |
| `Writers.Copier.VisitNode` | internal/queue/maintenance.go:117-149 | The recursive visit with its two maps refines Visit and restores the path it guards |
| `Writers.CopyInto` | internal/queue/maintenance.go:100-154 | Refines CopyPayload |
| `Copy.VisitOk` | internal/queue/maintenance.go:118-149 | A visit of nodes that read back as printed has copied a closed set of nodes, children before parents, and kept the destination consistent |
| `Copy.VisitPrints` | internal/queue/maintenance.go:118-149 | Whatever the source holds, a visit that succeeds has printed the nodes below it into the destination, each with a first path within the depth left, and without a cycle |
| `Copy.CopyPrints` | internal/queue/maintenance.go:100-154 | Whatever the source holds, a copy has printed exactly the nodes that the root reaches, each under its own id and with a first path of at most 257 nodes; a node reads back as it was if and only if it is stable |
| `Copy.CollisionFreeIsChecked` | internal/queue/content.go:157-180 | The nodes that can be copied are stable unless a row and the printed form of its node are different objects with one hash |
| `Copy.CopyPreserves` | internal/queue/maintenance.go:100-154 | A copied graph reads back node by node as it was if and only if its nodes are stable, and then the destination stays consistent and every fragment renders to the same bytes at every depth; what was there is unchanged in any case |
| `Copy.CycleRefused` | internal/queue/maintenance.go:122-126 | A graph with a reachable cycle is refused, whatever else it holds |
| `Copy.CopyPlain` | internal/queue/maintenance.go:105-113 | A plain payload is stored as a graph with equal JSON, readable exactly when not too deep |
| `Copyable.ChildShallower` | internal/queue/maintenance.go:122-124 | A graph with bounded paths has no cycle: less is below a child than below its parent |
| `Copyable.CopyExactly` | internal/queue/maintenance.go:100-154 | A manifest is copied, into any database where no id stands for two objects, if and only if the nodes its root reaches are readable, print to their ids, are on no cycle and have first paths of at most 257 nodes |
| `Copyable.CopySucceeds` | internal/queue/maintenance.go:100-154 | A graph whose nodes are readable and whose paths have all at most 257 nodes is copied into every database that holds no other object under an id of it |
| `Copyable.EncodeSized` | internal/queue/content.go:240-345 | The graph written for a value has only paths that fit, from a depth on, if and only if its levels, chunks counted, leave room |
| `Copyable.StoredIsCopyable` | internal/queue/maintenance.go:100-154 | What was encoded with valid keys and not too deep can be copied and restores there to its JSON |
| `Witnesses.RestoredNotCopied` | internal/queue/maintenance.go:122-124 | A long string inside n arrays is copied if and only if n is at most 255, one less than is restored |
| `Witnesses.BadKeyNotCopied` | internal/queue/maintenance.go:140-146 | An event with a key that is not valid UTF-8 that is encoded and then refused by every copy, whatever the destination holds |
| `Transfer.EncodeTransfers` | internal/queue/content.go:157-345 | Whether a value can be encoded, and as what, does not depend on what is stored, as long as no id stands for two objects |
| `Transfer.CopyTransfers` | internal/queue/maintenance.go:100-154 | A payload that can be copied into one store can be copied into every store without a clash, with the same result, and all that the first one then holds is in the second |
| `Transfer.CopyGrows` | internal/queue/maintenance.go:100-154 | A copy adds rows, changes none, and leaves all rows readable |
| `Collect.RemoveKeeps` | internal/queue/maintenance.go:371-379 | Removing an unreferenced node keeps the graph consistent |
| `Collect.RemoveKeepsLive` | internal/queue/maintenance.go:371-379 | What is reachable from the roots does not change when an unreferenced node is removed |
| `Collect.NoneUnreferencedAllLive` | internal/queue/maintenance.go:368-370 | With no unreferenced node left every node is reachable from a root: this is where acyclicity is needed |
| `Collect.Tables.SelectUnreferenced` | internal/queue/maintenance.go:350-367 | Up to limit distinct unreferenced nodes; none only if there is none |
| `Collect.Tables.Collect` | internal/queue/maintenance.go:335-382 | Terminates, removes at most limit nodes and no live one; when it removes fewer, exactly the reachable nodes remain |
| `Database.EnqueueOk` | internal/queue/sqlite_queue.go:136-186 | Enqueueing keeps the database invariant and every stored meaning, and stores the given event |
| `Database.CollectOk` | internal/queue/maintenance.go:335-382 | A collection step keeps roots registered and every row's meaning |
| `Database.DropOk` | internal/queue/crud.go:313-330 | Deleting rows with their roots keeps the invariant and the meaning of the rest |
| `Database.InsertOk` | internal/queue/maintenance.go:36-52 | Inserting a copied record keeps the invariant and every meaning |
| `ArchiveSafety.EnqueueStepOk` | internal/queue/sqlite_queue.go:136-186 | Enqueueing in any state of the protocol keeps the invariant; a known key changes nothing, an event that cannot be encoded changes nothing, any other adds exactly its entry |
| `ArchiveSafety.FailedStepOk` | internal/queue/sqlite_queue.go:277-280 | A failure mark changes one active entry and nothing else, at any point of an archive run |
| `ArchiveSafety.PushedStepOk` | internal/queue/sqlite_queue.go:272-275 | A success mark changes one active entry and nothing else |
| `ArchiveSafety.RequeueStepOk` | internal/queue/crud.go:253-284 | Requeueing resets exactly the active entries of the event and its revisions |
| `ArchiveSafety.DeleteStepOk` | internal/queue/crud.go:313-330 | Deletion removes exactly the active entries of the event and its revisions |
| `ArchiveSafety.ArchiveStepOk` | internal/queue/maintenance.go:159-274 | Writing the intent, selecting, copying, committing and verifying are invisible: no event changes. What is selected is stated by `Sealing.SealedExactly` |
| `ArchiveSafety.PublishFacts` | internal/queue/maintenance.go:277-297 | At publication each selected row is still the acknowledged row that was verified, and its copy has equal metadata and JSON |
| `ArchiveSafety.PublishStepOk` | internal/queue/maintenance.go:277-312 | Publication moves exactly the verified rows into the index and keeps the invariant |
| `ArchiveSafety.RecoveryStepOk` | internal/queue/recovery.go:22-68 | Crashes and recovery steps are invisible and keep the invariant |
| `ArchiveSafety.RecoveryComplete` | internal/queue/recovery.go:22-68 | When recovery finishes no intent remains and the segment files are exactly the catalogued ones |
| `ArchiveSafety.StepOk` | internal/queue/maintenance.go:159-312 | Every step is exactly one change of the map from key to event: enqueueing adds the event encoded, marks and requeues change delivery state, deletion removes, publication seals, and all else is invisible |
| `ArchiveSafety.RunOk` | internal/queue/maintenance.go:159-312 | After every run, crashes included, the invariant holds and each active row restores to the bytes it was enqueued with |
| `ArchiveSafety.NothingLost` | internal/queue/maintenance.go:159-312 | From every reachable state on, an event that no deletion covers is held with its id, times and meaning, and an archived one with all its metadata |
| `ArchiveSafety.EnqueueHolds` | internal/queue/sqlite_queue.go:136-186 | After enqueueing the key is held if and only if it was, or the event could be encoded |
| `ArchiveSafety.EnqueuedIsHeld` | internal/queue/maintenance.go:159-312 | From enqueueing on, in every run from the empty queue, the event is held with its time and the meaning it was given until a deletion covers it |
| `Sealing.SealedExactly` | internal/queue/maintenance.go:184-312 | In every run, between the last selection and a publication: what the publication seals was acknowledged, older than the bound and unchanged at both moments, at most the limit; and an entry that was acknowledged and older at selection and is not sealed means that the limit was reached by entries with smaller ids |
| `Progress.ArchiveUndisturbed` | internal/queue/maintenance.go:159-312 | An archive call that nothing disturbs, over rows that can be copied, runs to its end: all selected rows are sealed, nothing else changes and no intent is left |
| `Progress.RecoveryRuns` | internal/queue/recovery.go:22-68 | From every state a crash leaves recovery can run to its end: no intent is left, the files are the catalogued ones and no event changes |
| `Readers.HeldOnce` | internal/queue/maintenance.go:277-312 | In every reachable state an event is in the active rows or in exactly the segment its index entry names, never both |
| `Readers.EnqueuedIsHeldOnce` | internal/queue/maintenance.go:277-312 | Every event enqueued and not deleted is in exactly one place with the meaning it was given |
| `Readers.EnqueueExactly` | internal/queue/sqlite_queue.go:136-186 | In every state of the protocol the key is held after Enqueue if and only if it was, or the backend keeps plain JSON, or each node of the event can be saved |
| `Readers.StoredExactly` | internal/queue/sqlite_queue.go:136-186 | In every run an Enqueue stores its event if and only if the key is not held and each node of the event can be saved, or the backend keeps plain JSON |
| `Readers.ArchivedStays` | internal/queue/maintenance.go:277-312 | An archived event stays archived in the same segment whatever happens |
| `Readers.ReaderFinds` | internal/queue/reader.go:150-204 | A reader that looks at the active rows, then the index, then the segment, with any steps in between, finds every event that was there when it began, deletions included |
| `Readers.IndexFirstMisses` | internal/queue/reader.go:150-204 | Looking at the index first would miss every event published in between |
| `Readers.Disk.Recover` | internal/queue/recovery.go:22-68 | The recovery loop removes exactly the files of intents that are not catalogued, clears intents as it goes, and says what blocked it |
| `Migrate.StepOk` | internal/queue/migrate.go:66-222 | Every step of a migration, resumed any number of times, keeps the invariant tying rows to cursors, whatever the source holds: each row is verified before it is committed |
| `Migrate.RunOk` | internal/queue/migrate.go:66-222 | After every series of interrupted runs each covered source row is there once with id, state and equal payload, and no two covered rows share a key or an id |
| `Migrate.CompletedMigration` | internal/queue/migrate.go:66-222 | A completed destination holds exactly the source rows with positive ids, each once with equal payload, and allocates ids above the source's high water |
| `Migrate.RunFaithful` | internal/queue/migrate.go:66-222 | With sources free of collisions the destination is a consistent database after every run, and every row copied could have been migrated alone |
| `Migrate.ActivationSeals` | internal/queue/sqlite_queue.go:63-78 | An incomplete destination cannot be activated, an activated one cannot be resumed, and one begun from a source can be resumed from no other |
| `Migrate.RowPortable` | internal/queue/migrate.go:150-186 | A row that could be migrated alone is copied into every destination where its key and id are free and no hash clashes |
| `Migrate.RowPorted` | internal/queue/migrate.go:150-186 | A row that was copied, from sources free of collisions, could have been copied alone, into objects that the destination holds |
| `Migrate.Migration.NextRow` | internal/queue/migrate.go:144-149 | The row with the least id above the cursor, or none if there is none |
| `Migrate.Migration.MigrateFile` | internal/queue/migrate.go:119-196 | Copies row by row under the protocol and counts what it copied; completes the file when nothing stands in the way and it is not cancelled before, and then after exactly one check per row ahead and one more |
| `Migrate.Migration.MigrateFrozen` | internal/queue/migrate.go:16-222 | Every run is a sequence of protocol steps; success means complete with exactly the rows that were left copied; it succeeds if it may begin, is not cancelled, the source is frozen, every row could be migrated alone, and rows share no key, id or hash of different objects, and, for sources free of collisions, only if; a refused beginning changes nothing |
| `Portability.CopyPlainExactly` | internal/queue/maintenance.go:105-113 | A plain payload is copied if and only if it parses and each node of it can be saved |
| `Portability.PortableExactly` | internal/queue/migrate.go:150-186 | A row can be migrated by itself if and only if it restores to a text that parses and, into nodes, its graph can be walked or its text written; nothing else about the row matters |
| `Portability.AdmittedExactly` | internal/queue/migrate.go:66-118 | After every series of runs a further one is admitted if and only if the destination is not activated and all asked for the same backend |
| `Reassembly.SideState.Feed` | internal/correlation/reassembly.go:8-75 | The in-place reassembly refines Reassemble and keeps the shape of the window; which packets Reassemble accepts and what it does with them is stated by `Streams.LimitedExactly` and `Streams.AcceptedExactly` |
| `Reassembly.SideState.Merge` | internal/correlation/reassembly.go:57-67 | The byte loop fills holes only, tells new bytes from repeats and notes conflicts |
| `Reassembly.SideState.ScanPresent` | internal/correlation/reassembly.go:68-72 | The exposed length is that of the maximal present prefix |
| `Reassembly.PlaceBytes` | internal/correlation/reassembly.go:40-75 | Which bytes are present after a packet and with what value; a present byte never changes |
| `Reassembly.PlaceLimited` | internal/correlation/reassembly.go:40-75 | The window is limited exactly by the cap, a conflict, or before |
| `Reassembly.ReassembleGrows` | internal/correlation/reassembly.go:8-75 | A step keeps every present byte at its sequence number, also when bytes are put in front |
| `Reassembly.ReassembleVerbatim` | internal/correlation/reassembly.go:8-75 | Unless limited, the packet is in the window verbatim at its sequence number |
| `Reassembly.ReassembleOrigin` | internal/correlation/reassembly.go:8-75 | Every present byte was there before or was carried by this packet at that sequence number |
| `Reassembly.RunSound` | internal/correlation/reassembly.go:8-75 | After every packet sequence the window is within its caps, each byte was carried by some packet at its sequence number modulo 2^32, and unless limited every packet is in it verbatim |
| `Reassembly.RunGrows` | internal/correlation/reassembly.go:8-75 | Over every continuation of a run limited stays set and each present byte keeps its value and its sequence number |
| `Reassembly.CompleteShowsEverything` | internal/correlation/tracker.go:311-359 | When nothing is incomplete the payload is the whole window and every packet ever fed appears in it verbatim |
| `Reassembly.OrderIndependence` | internal/correlation/reassembly.go:8-75 | Any two arrival orders of the same packets that end complete expose the same base and the same payload, across wrap-around |
| `Streams.LimitedExactly` | internal/correlation/reassembly.go:8-75 | After a packet the window is limited if and only if it was, or the packet starts too far before or behind what is there, or a byte of it differs from one present, or it passes the cap; truncated if and only if it was, or too far, or past the cap |
| `Streams.AcceptedExactly` | internal/correlation/reassembly.go:8-75 | A packet too far away changes no byte; any other leaves the bytes that were there and its own in the holes, at their sequence numbers, with the announced end; it is a retransmission if and only if it has bytes and all were there |
| `Streams.StreamExactly` | internal/correlation/reassembly.go:8-75 | Of a byte string that fits, cut into any pieces that arrive in any order: the window is limited if and only if a piece is not near to those before it, and otherwise shows exactly the bytes that have arrived |
| `Streams.Delivered` | internal/correlation/reassembly.go:8-75 | Such a window is complete if and only if every piece came in reach and together they cover what they span, and then the payload is that part of the string |
| `Streams.DeliveredInOrder` | internal/correlation/reassembly.go:8-75 | A string that arrives in order is exposed whole, however it is cut and wherever its sequence numbers wrap |
| `Revisions.ReviseKeeps` | internal/correlation/tracker.go:399-422 | Revising a transaction keeps the tracker invariant: next revision numbers, throttle and finality of every event |
| `Revisions.AmendKeeps` | internal/correlation/tracker.go:127-226 | Feeding a transaction keeps the invariant |
| `Revisions.NewTransactionKeeps` | internal/correlation/tracker.go:263-282 | A new transaction keeps the invariant, and its identity is noted |
| `Revisions.RegisterKeeps` | internal/correlation/tracker.go:228-250 | Registering an event with a retained transaction keeps the invariant |
| `Revisions.ThrottledExactly` | internal/correlation/tracker.go:399-412 | With times that do not overflow, an update is held back exactly within the interval after the last one, unless final or that one was at time zero |
| `Revisions.EmittedRevisions` | internal/correlation/tracker.go:399-422 | Over every run with ids registered once: revisions are 1, 2, ..., k, and finality reverts if and only if the event was registered under a taken-over identity and its second revision is not final |
| `Revisions.UpdatesApart` | internal/correlation/tracker.go:399-422 | The n-th update is n-m intervals after the m-th wherever times between them are positive and do not go back |
| `TrackerRuns.RevertingRun` | internal/correlation/tracker.go:127-250 | A run from the empty tracker after which a final event was followed by a revision that is not |
| `TrackerRuns.ZeroTimeRun` | internal/correlation/tracker.go:127-250 | A run in which a packet at time zero lets two updates through one microsecond apart |
| `Tracking.Tracker.Observe` | internal/correlation/tracker.go:127-226 | Sweeps when due, finds or opens the session as Located says, emits exactly the updates returned, each stamped with the packet's time, and keeps all bounds and the revision invariant. In terms of the segments filed so far: which transaction the packet joins, on which side, and that it is final afterwards if and only if the packet has FIN or RST, or comes from the server and makes the response whole; the windows of every transaction are what reassembling its segments gives |
| `Exchanges.AppendTells` | internal/correlation/tracker.go:311-359 | A side is told by its segments: its window is that of the segments with data, truncated also if one was cut short or there are more than the packet index holds; packets and retransmissions are counted |
| `Exchanges.FiledJoins` | internal/correlation/tracker.go:166-192 | A request begins a transaction, in a full session at the expense of the first final one or else the first; a response goes to the oldest open one or begins one; more data from the client goes to the newest open one without an answer, on the request side, and from anyone else to the oldest open one, on the response side |
| `Exchanges.FinalExactly` | internal/correlation/tracker.go:166-206 | After a packet its transaction is final if and only if the packet ends the connection, or comes from the server and the segments on the response side then make a whole message |
| `Exchanges.WholeExactly` | internal/correlation/tracker.go:166-192 | A response in pieces, in any order, is whole if and only if each piece came in reach, they cover what they span, the packet index held them and what they span is a complete message |
| `Exchanges.WholeInOrder` | internal/correlation/tracker.go:166-192 | A response that arrives in order is whole if and only if it is a complete message and the packet index held it |
| `Exchanges.UpdatesExactly` | internal/correlation/tracker.go:194-206 | A packet that goes on with a transaction gives each event of it one update, numbered next and stamped with the packet's time, if and only if the transaction is then final or its pause is over; no other event gets one |
| `Routing.SweptExactly` | internal/correlation/tracker.go:438-462 | In times: a session is there after a cleanup if and only if it was touched less than its timeout ago or less than a second has passed since the last one; a transaction is still open if and only if it was and was touched less than the wait ago |
| `Tracking.Tracker.Register` | internal/correlation/tracker.go:228-250 | Returns revision 1 and the finality of the observation, retains the event in the transaction named, or says why none does |
| `Tracking.Tracker.Flush` | internal/correlation/tracker.go:252-261 | Empties the tracker; each event still held gets exactly one further, final revision and no other gets any |
| `Tracking.Tracker.Cleanup` | internal/correlation/tracker.go:438-462 | The sessions afterwards are exactly those Swept gives: when due, idle sessions go, unfinished transactions that waited too long are closed, and all else stays as it was |
| `Tracking.SweptOnlyOverdue` | internal/correlation/tracker.go:438-462 | A session within its timeout with no transaction overdue is left exactly as it was |
| `Tracking.Tracker.Locate` | internal/correlation/tracker.go:127-160 | The session of the packet is found or opened after the sweep, the least recently used one making room |
| `Tracking.Tracker.StartTransaction` | internal/correlation/tracker.go:263-282 | Keeps at most the permitted transactions, dropping the oldest finished one first, and appends the new one |
| `Tracking.Tracker.Evict` | internal/correlation/tracker.go:424-436 | Closes every transaction of the session and removes it |
| `Tracking.Tracker.RouteResponse` | internal/correlation/tracker.go:284-291 | Response data goes to the first open transaction, or to a new one, as Filed says; on which side, and when it closes the transaction, is stated by `Exchanges.FiledJoins` and `Exchanges.FinalExactly` |
| `Tracking.Tracker.ContinuationTransaction` | internal/correlation/tracker.go:293-309 | Continuation data goes to the latest transaction that can take it |
| `Tracking.CloseEmits` | internal/correlation/tracker.go:424-436 | Closing a session emits one more, final revision of each event it retains and nothing of others |
| `RecordKeys.SharedKeys` | internal/queue/sqlite_queue.go:285-290 | Two revisions share a queue key if and only if they are the same or one id is the other's revision key |
| `RecordKeys.DistinctRevisions` | internal/queue/sqlite_queue.go:285-290 | Revisions of ids without the separator never share a row |
| `RecordKeys.SeparatorCollides` | internal/queue/sqlite_queue.go:285-290 | An id that holds the separator can collide |
| `RecordKeys.CoversRevisions` | internal/queue/crud.go:213-215 | Deleting or requeueing an event covers its own revisions and no other event's |
| `Shards.CompositeDecodes` | internal/queue/shard.go:117-129 | A composite id always decodes to its shard, and to its row if and only if the row id fits 58 bits |
| `Shards.PendingEntries` | internal/queue/sqlite_queue.go:205-223 | The page of a shard: the first eligible rows by id, at most limit, all if fewer; which rows are eligible is stated by `Deliveries.PendingExactly` |
| `Shards.MergePages` | internal/queue/shard.go:87-116 | The merged page: pending, distinct, limit of them or all, and where ids of eligible rows follow creation times in order and none earlier left out |
| `Shards.NoneEarlier` | internal/queue/shard.go:94-116 | An entry cut by its shard's limit or by the merge is no earlier than one returned |
| `Shards.OrderNeeded` | internal/queue/shard.go:94-116 | Beside an empty shard the merges of a shard pass over no earlier event, whatever the limit, if and only if its ids follow creation times |
| `Shards.ClockSetBack` | internal/queue/shard.go:94-116 | A clock set back between two rows makes every merge of two given shards pass over an earlier event |
| `Shards.ShardedQueue.Open` | internal/queue/shard.go:31-52 | Refuses more than 64 shards, takes anything below 1 as 1 |
| `Shards.ShardedQueue.Enqueue` | internal/queue/shard.go:68-81 | A known key, active or archived, changes nothing; an event that cannot be encoded is an error and changes nothing; any other adds exactly its row to the shard of its event |
| `Shards.ShardedQueue.PendingIDs` | internal/queue/shard.go:86-122 | The ids lead LoadEvent to the shard and row of each entry of the merged page |
| `Shards.ShardedQueue.LoadEvent` | internal/queue/shard.go:124-129 | The row behind an id, missing if its shard has none, a failure exactly if there is no such shard |
| `Shards.ShardedQueue.Mark` | internal/queue/shard.go:147-153 | Changes status, retry count, error text and update time of the row of that key in the shard of that event, and no other |
| `Shards.DrainedAtHome` | internal/queue/shard.go:147-153 | A pushed event stops being pending if and only if its row is in the shard its id routes to; entries of other keys are not affected |
| `Shards.NeverDrained` | internal/queue/shard.go:147-153 | A pending row stays pending through every run of pushes if and only if no eligible row of its key routes to its shard |
| `Shards.ShardedQueue.PushNext` | internal/queue/shard.go:86-153 | Taking the next id, loading and marking it: the entry stops being pending exactly if its row is at home, with all rows at home no other does, and none is taken only if there is none |
| `Deliveries.PendingExactly` | internal/queue/sqlite_queue.go:205-280 | Over every run of Enqueue, MarkPushed and MarkFailed: a record is pending if and only if it was never marked since it was stored or its last mark is a failure, and its failures are fewer than the retries allowed, if there is a bound |
| `Deliveries.ListedExactly` | internal/queue/sqlite_queue.go:205-280 | A page that is not full lists a record if and only if it is pending by that count of its marks |
| `Ranges.WalkChunks` | internal/queue/range.go:94-137 | The loop over the chunks refines Walk |
| `Ranges.WalkCuts` | internal/queue/range.go:94-137 | The walk gives the true total and exactly bytes offset to min(offset+length, total) of the concatenated chunks, or an error exactly beyond the end |
| `Ranges.WalkReadsOverlap` | internal/queue/range.go:103-127 | The result depends on the data of overlapping chunks only; of others the size column is read |
| `Ranges.ChildPicks` | internal/queue/range.go:20-52 | Picking one member from a node agrees with parsing the whole rendered object, in success and both errors, if and only if the first member of the name and the last that reads so decode alike |
| `Ranges.RepeatedMisread` | internal/queue/range.go:30-36 | Of a member that is there twice with texts that decode differently child takes the first, and parsing does not |
| `Ranges.RangeAgrees` | internal/queue/range.go:53-160 | On any store from which the payload can be restored, with no member on the way to the packet there twice with different texts, the range read equals restoring, parsing, decoding hex and slicing, errors included |
| `EventRanges.EncodeShaped` | internal/queue/content.go:240-345 | The nodes of an encoded value have the kinds, names and binary chunks the range read expects |
| `EventRanges.EncodedRange` | internal/queue/range.go:53-160 | For every encoded event that is not too deep and has the members asked for at most once, now and in every later table with the same objects, the range read gives what the restored text says, which is the event's JSON where keys are valid |
| `EventRanges.PacketReturned` | internal/queue/range.go:53-160 | The packet put into an event comes out, range by range, with its length and truncation flag, also in every later table with the same objects |
| `Intel.NormalizeKeepsKey` | internal/intel/store.go:311-350 | Normalizing keeps the canonical key of an indicator |
| `Intel.MergedLast` | internal/intel/store.go:177-195 | The last entry of a batch for an id is the one kept |
| `Intel.MergedOthers` | internal/intel/store.go:219-249 | Ids a batch does not have are untouched |
| `Intel.Store.Reload` | internal/intel/store.go:48-73 | Replaces the items and raises the version, or changes nothing on error |
| `Intel.Store.Sync` | internal/intel/store.go:177-195 | Replaces the items and raises the version |
| `Intel.Store.SyncSource` | internal/intel/store.go:219-249 | Replaces one source's entries and raises the version; refuses an empty source |
| `Intel.Store.PruneExpired` | internal/intel/store.go:277-301 | Removes exactly the expired entries, counts them, and raises the version only if there were any |
| `Intel.Store.UpsertDedup` | internal/intel/store.go:361-399 | A store with one entry per indicator stays so; no id is lost; each indicator of the feed goes to the id that had it, to its own or to a new one, with the newest entry's content, and with the creation time that was there if none is delivered |
| `Intel.MergedDeduplicated` | internal/intel/store.go:376-391 | A merge keeps one entry for each indicator |
| `Intel.AllDelivered` | internal/intel/store.go:376-391 | Every indicator of a feed is in the store afterwards if and only if they all go to different ids |
| `Intel.FeedDelivered` | internal/intel/store.go:361-399 | After UpsertDedup every indicator of the feed is in the store if and only if no two go to one id |
| `Intel.OldKept` | internal/intel/store.go:376-391 | An indicator that the feed does not have stays in the store if and only if nothing of the feed goes to its id |
| `Intel.OneIdLoses` | internal/intel/store.go:376-391 | Of any two indicators that a feed delivers with one id an empty store gets only one |
| `Matching.BuildRepresents` | internal/intel/matcher.go:111-150 | Which items the index holds under which address, block, domain and URL |
| `Matching.Matcher.RebuildIndex` | internal/intel/matcher.go:111-150 | Installs the index of the listing with the given version |
| `Matching.Matcher.MatchDomain` | internal/intel/matcher.go:152-166 | Exactly the items whose domain is the name or a parent of it |
| `Matching.Matcher.MatchAddress` | internal/intel/matcher.go:47-65 | Exactly the items whose address or block covers it; loopback and unspecified addresses match nothing |
| `Matching.Matcher.MatchURL` | internal/intel/matcher.go:85-95 | Exactly the items whose URL it is or contains |
| `Matching.HitsExact` | internal/intel/matcher.go:33-44 | Collecting by key keeps every active item offered, once |
| `Matching.Matcher.MatchPacket` | internal/intel/matcher.go:30-98 | Without duplicates exactly the active items that a scan of the store matches |
| `Matching.HitUntilExpiry` | internal/intel/matcher.go:168-170 | A stored item that matches is hit if and only if it is enabled and its expiry, if any, is not past: through the last second and no longer |
| `Matching.DomainExactly` | internal/intel/matcher.go:152-166 | A domain indicator matches its own name and every name that ends in a dot and it, and nothing else |
| `Matching.URLExactly` | internal/intel/matcher.go:85-95 | A URL indicator matches exactly its own text and every URL that has it somewhere, in any case of letters |
| `Matching.AddressExactly` | internal/intel/matcher.go:46-65 | An address or block indicator matches exactly the packets with an address that is the indicator's or in its block, loopback and unspecified ones never |
| `Matching.ParentHit` | internal/intel/matcher.go:30-98 | A packet that names a host below the domain of an enabled indicator, in any of the places looked at, is hit until the indicator expires |
| `Racing.CurrentIndex` | internal/intel/matcher.go:100-150 | After every interleaving of writes and rebuilds: when the versions agree the index is that of the current items; it is never older than its version |
| `Racing.Recovers` | internal/intel/matcher.go:100-109 | An undisturbed ensureIndex ends with the current index, however the index was left |
| `Racing.EnsuredSince` | internal/intel/matcher.go:100-150 | After every interleaving, when a worker leaves ensureIndex the index is that of the items at some moment since it read the version |
| `Racing.MatchedSince` | internal/intel/matcher.go:100-150 | After ensureIndex the index stays no older than the version the worker read, through any steps in which no worker installs that had read an older one |
| `Racing.StaleAfterEnsure` | internal/intel/matcher.go:100-150 | A worker's own ensureIndex can end with the current index installed and be followed by a slower worker's older one, which is then matched on |
| `Sni.ClientHelloSNI` | internal/parser/parser.go:250-331 | Total and in bounds on every input; the nested loops refine ServerName |
| `Sni.HelloParses` | internal/parser/parser.go:250-331 | Parsing undoes printing for every ClientHello: the first non-empty host name of the first server_name, one final dot dropped |
| `Sni.HelloCut` | internal/parser/parser.go:246-331 | A hello cut anywhere gives its name if and only if the server_name extension is complete |
| `Counter.PruneBefore` | internal/counter/counter.go:107-117 | Drops exactly the leading stamps outside the window |
| `Counter.KeptCounts` | internal/counter/counter.go:53-76 | The number of stamps kept is the number of hits in the window, up to the limit |
| `Counter.Window.Hit` | internal/counter/counter.go:53-76 | With times that do not go back: the number of recorded hits of the key in the half-open window, up to 1024, and the earliest of them; at capacity a hit of a new key is counted alone and not recorded |
| `Counter.Window.Cleanup` | internal/counter/counter.go:81-103 | Forgets exactly the keys idle for a window, and with them nothing that still counts |

## Left out

- SQLite, the file system, zlib, SHA-256 and encoding/json themselves: parameters with laws, and atomic steps.
- -wal and -journal files, fsync, directory sync and disk-space checks: a committed transaction and a closed segment are taken to be durable.
- Archive, selection to publication: modelled as steps on values, not as one loop over rows, because a crash can fall between any two of them; the catalogue's min and max ids and the summary table are not modelled.
- contentReader: the 8 MB read cache of restored objects is not modelled.
- Reflection in encode: tags, omitempty, embedded structs and custom marshalers are what turns a Go value into `Value`.
- Writers.Renderer.RenderFragment: writes the comma after a member instead of before the next one; the text is the same.
- ReadPacketRange: which shard file and archive is opened is not modelled, only the read of one payload; errors inside a rendering are not told apart.
- Ranges.RangeAgrees: requires that no member on the way to the packet is there twice with different texts and that chunks are binary rows; `EventRanges.EncodedRange` shows this of encoded events whose members raw_packet, packet_hex and capture_truncated are there at most once, which holds of the structs they come from.
- Migrate.Migration.MigrateFrozen: that success needs every row to be migratable alone is claimed for sources free of collisions; in others a row may lean on an object of another row.
- Shards.ShardedQueue.Enqueue: whether an event can be encoded is a parameter here; `Database.Enqueue` decides it.
- MigrateFrozen from older destination versions: the cursor floor for destinations begun by earlier releases is not modelled.
- Counter.Window.Hit: exactness is claimed for times that do not go back; the bounds hold always.
- Tracker.exchange, summaries and HTTP message framing: what an update carries besides id, revision, finality and time is not modelled; whether a message is complete is a predicate of the payload.
- Tracking.Tracker.Observe: event time is the packet's; wall-clock time is not modelled.
- The direction assessment of internal/correlation/direction.go.
- Store.Add, UpsertMany, ListFiltered, Stats and file persistence of indicators; severity, tags and evidence of an indicator.
- Lock implementation: each critical section is one step.
- Listing and search of push logs, the HTTP server, the push client, packet capture, detection rules, flow aggregation and configuration.
