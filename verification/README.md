# alefsdb in Dafny

A model of alefsdb, a hierarchical typed store, with proofs of what its layers promise together.

* **Values and codec.** `Values`, `Codec`, `CodecProofs`, `CodecTheorems` and `CodecLoops` hold typed values, the
  versioned binary format with its canonical sets, and the encoder and decoder with their buffers and cursors;
  `CodecLayout` has the format byte by byte.
  Strings are sequences of Unicode scalar values with their UTF-8 in `Utf8`; floats are 64-bit patterns.
* **Storage.** `Storage` has batches, ordered scans and the in-memory backend. `Crc`, `CrcProofs`, `Wal`, `WalProofs`
  and `WalStore` have the checksum, the log and checkpoint formats, replay, and the durable backend; `CrcMeaning` says
  what the checksum is, and `Formats` what keys, rows and records are, byte by byte. `Recovery` is a step machine over
  what is on disk, with a crash between any two steps and after any byte of an append. `TornTail` settles when it is
  safe to append after a crash.
* **Namespace.** `Paths` and `Keys` are the names and the flat key layout; `Namespace` gives each operation as the batch
  it commits. `TreeModel` defines what it means that a store holds exactly the rows of a tree, `Steps` and `Refinement`
  show that every operation keeps it, `Runs` carries it over all runs, and `Behaviour`, `Structures` and `SetAdds` read
  off what callers may rely on. `Overlays` and `Txn` are the transactions, `Rebuild` the index rebuild, `Databases`
  the database object. `Durable` puts the database on the log, from the stages of opening to its actions: a crash
  anywhere leaves files that open as a tree.
* **Queries.** `Listing`, `Walking` and `Reading` are the read side; `Query` is AlefQL with its index plan and its full
  scan, `Glob` the matchers, `Lexer`, `QueryParse` and `QueryLoops` the parser. `QueryMeaning` says what a query answers
  and `QueryGrammar` which texts are queries, without the functions that compute it.
* **JSON.** `Json`, `JsonProofs`, `JsonValues`, `JsonBack` and `JsonLoops` are the export dialect and its reader;
  `JsonTexts` says what strings, numbers, hex and objects mean on every text. `Transfer` and `TransferProofs` export a
  tree and import it again, and `TransferLimits` says exactly when that works.
* `ByteStrings`, `Orders`, `Strings`, `Texts` and `Numbers` are the ground they stand on, and `Limits` shows where the
  promises end, at concrete inputs.

`dafny verify dfyconfig.toml` checks the whole project.

How the model is set up:

* Operations are functions on the raw key-value map, and their properties are lemmas about those functions. Where the
  code works by loops, cursors and objects there is a method or a class of that form, proved to compute the function.
* `Represents(s, rows, t)` is the central invariant: `t` is a tree rooted at a directory, every other node hangs in a
  live directory with a smaller id, ids identify paths and are below the counter, and the store `s` holds the rows of
  `t` and no others: one node row per node, one child row per link, one index row per node with its current type and
  path.
* `OpOk` and `WellFormed` say only what the program's types guarantee: paths are built by `parse` and `join`, and maps
  have unique keys in order. `Fits` says that a length is below 2^32, the width it is cast to.
* `Recovery.Next` has the steps as the code takes them, without any check of sizes or of what the log ends with.
  `Sound` says what keeps a step from losing data: lengths fit their 32 bits, and an append starts behind whole records.
  Each part is necessary, by `RecordRoundTripIff`, `CompactionKeepsIff` and `AppendsSafelyIff`. `Reaches` takes sound
  steps, from any directory whose checkpoint, if there is one, loads with log offset 0, the only one that `compact`
  writes, and whose log holds whole records. Rename and truncation are taken
  to be atomic and in program order.
* In `Durable` a `Ground` is the good database that a directory holds up to its index and version. The batch of the
  index rebuild is known by the contract of `Rebuild.RebuildBatch`.
* Parsing and printing floats is the library's: `FloatParser` and `FloatText` are parameters. Where text with floats is
  read back, two things are asked of them that Rust's `Display` and `parse` promise: a finite float is printed as a
  decimal number (`Decimal`), and what a printed float is parsed to is printed alike (`PrintedAlike`). That it is parsed
  to itself is not asked but part of the conditions proved.

Findings, where the code promises less than one might expect:

* A torn record is ignored on opening but stays in the file (`crates/alefs-storage/src/wal.rs:47-56`). What is appended
  behind it is lost or makes the log unreadable: appending is safe if and only if the log holds whole records
  (`AppendsSafelyIff`, `TornTailWitness`).
* Lengths are cast to 32 bits without a check. Compacting a store of 4 GiB replaces a good log by a checkpoint that does
  not load back (`CompactionKeepsIff`, `CompactionLoses`); values and records have the same limit (`RoundTripIff`,
  `LengthWraps`, `RecordRoundTripIff`).
* `join` accepts a NUL in a name and `parse` does not (`crates/alefs-types/src/path.rs:66-68` and `:88-98`). A query that
  uses the index fails on a node with such a path, while a full scan finds it (`NulBreaksIndex`); importing an export
  fails if such a name is right below the root (`ExportImportIff`, `NulExportFails`).
* A string key of a tree value that reads as another kind of key comes back from JSON as that kind (`KeyChangesKind`).
* `Display` prints floats with an integral value without a point, so they come back as integers, 1.0 as 1 and -0.0 as 0
  (`IntegralChanges`, `MinusZeroChanges`); beyond 64 bits, as for 1e19, the reader refuses the text and the whole export
  cannot be imported (`LargeFloatFails`). A float that is not finite comes back as a string (`FloatOutcome`). What does
  come back is settled by `FloatRoundTripIff`, `ValueRoundTripIff` and `ExportImportIff`.
* The index prefix of a type name with a slash in it can select nodes of another type
  (`crates/alefs-namespace/src/keys.rs:81-86`; `TypeScanIff`, `SlashedTypeFound`). The final filter of a query drops
  them, so its hits are still exact.
* Inside a transaction `mkdir` goes ahead on any lookup error, directly only on a missing path
  (`crates/alefs-namespace/src/txn.rs:243-245`; `MkdirAgreesIff`, `MkdirDiffers`). On stores that represent a tree there
  is no other error, so the two agree.
* Opening restarts a lost id counter at 2, whatever ids are taken (`crates/alefs-namespace/src/db.rs:51-56`); that is
  right only for a database with nothing but a root (`CounterRepairIff`).
* The comment above the trimming of a path speaks of rejecting trailing slashes; the code drops them
  (`crates/alefs-types/src/path.rs:51-57`). The model follows the code.

## Model

| member | source | states |
|---|---|---|
| ByteStrings.PrefixConvex | crates/alefs-storage/src/memory.rs:47-56 | keys with a prefix are contiguous from the prefix on, so a scan may stop at the first miss |
| Utf8.Utf8RoundTrip | crates/alefs-types/src/codec.rs:273-279 | every string survives being written as UTF-8 and validated |
| Utf8.Utf8Canonical | crates/alefs-types/src/codec.rs:273-279 | validation accepts only the encoding of the string it returns |
| Strings.StrLessIsByteOrder | crates/alefs-namespace/src/db.rs:323-323 | sorting names as strings and scanning their keys as bytes give one order |
| Values.ScalarOrder | crates/alefs-types/src/value.rs:6-15 | the derived order of scalars is a strict total order |
| Values.InsertSorted | crates/alefs-types/src/value.rs:35-40 | inserting into an ordered map keeps it in key order and brings in nothing but the new entry |
| CodecTheorems.PayloadRoundTrip | crates/alefs-types/src/codec.rs:81-226 | decoding a payload, its lengths below 2^32, followed by any suffix gives the canonical value and leaves exactly the suffix |
| CodecTheorems.RoundTripIff | crates/alefs-types/src/codec.rs:50-72 | decoding what was encoded returns the canonical form if and only if every length fits 32 bits |
| CodecTheorems.LengthWraps | crates/alefs-types/src/codec.rs:86-86 | a list of exactly 2^32 items is written with length zero, so it does not come back: the bound is needed |
| CodecTheorems.PrefixFree | crates/alefs-types/src/codec.rs:149-226 | no payload of one canonical value is a proper prefix of another's |
| CodecTheorems.EncodingCanonical | crates/alefs-types/src/codec.rs:92-103 | two values encode equally if and only if their canonical forms are equal |
| CodecTheorems.DecodedIsFixedPoint | crates/alefs-types/src/codec.rs:149-226 | any bytes that decode give a canonical, well-formed value which encodes and decodes to itself |
| CodecTheorems.TypeSurvives | crates/alefs-types/src/value.rs:68-81 | a value that can be read back has the type name it was stored with |
| CodecLayout.ScalarLayout | crates/alefs-types/src/codec.rs:122-147 | the bytes of every scalar: version 1, tags 0 to 5, little-endian words, two's complement, text behind its length |
| CodecLayout.ListLayout | crates/alefs-types/src/codec.rs:104-110 | the bytes of a list: tag 0x12, its count, its items in order |
| CodecLayout.SetLayout | crates/alefs-types/src/codec.rs:92-103 | the bytes of a set: tag 0x11, the count of distinct members, these in ascending order of their bytes |
| CodecLayout.HashLayout | crates/alefs-types/src/codec.rs:84-91 | the bytes of a hash: tag 0x10, its count, each key as text in front of its value |
| CodecLayout.TreeLayout | crates/alefs-types/src/codec.rs:111-118 | the bytes of a tree: tag 0x13, its count, each key as a scalar in front of its value |
| CodecLayout.ScalarsRead | crates/alefs-types/src/codec.rs:149-187 | those bytes decode to those scalars |
| CodecLayout.DecodeRefuses | crates/alefs-types/src/codec.rs:58-72 | what is refused at the first bytes, and how: nothing, another version, an unknown tag, a bool above 1 |
| CodecLayout.DecodeRefusesContent | crates/alefs-types/src/codec.rs:188-205 | text that is no UTF-8 and set members that do not ascend are refused as such |
| CodecLayout.TrailingRefused | crates/alefs-types/src/codec.rs:66-70 | anything behind a whole value is refused |
| CodecLayout.CutOff | crates/alefs-types/src/codec.rs:244-282 | every encoding cut off anywhere behind its version byte is refused as too short |
| CodecLayout.KindsInOrder | crates/alefs-types/src/codec.rs:92-103 | the members of a stored set come in the order null, bool, int, float, string, bytes, hash, set, list, tree |
| CodecProofs.CanonPayload | crates/alefs-types/src/codec.rs:92-103 | a value and its canonical form have one payload |
| CodecProofs.CanonIsCanonical | crates/alefs-types/src/codec.rs:92-103 | canonicalising sorts and deduplicates every nested set |
| CodecProofs.CanonicalIsFixed | crates/alefs-types/src/codec.rs:92-103 | canonicalising a canonical value changes nothing |
| CodecLoops.SortDedup | crates/alefs-types/src/codec.rs:94-97 | sorting and then dropping equal neighbours gives the strictly ascending listing of the same payloads |
| CodecLoops.WriteValue | crates/alefs-types/src/codec.rs:81-120 | the encoder appends exactly the payload to its buffer |
| CodecLoops.WriteScalar | crates/alefs-types/src/codec.rs:122-147 | the scalar encoder appends exactly the scalar's payload |
| CodecLoops.ReadValue | crates/alefs-types/src/codec.rs:149-226 | the decoder on its cursor returns the value and the remaining bytes of the specification, errors included |
| CodecLoops.ReadMembers | crates/alefs-types/src/codec.rs:188-205 | set members are read in a loop that re-encodes each and refuses one that is not larger than the last |
| CodecLoops.EncodeBytes | crates/alefs-types/src/codec.rs:50-55 | version byte and payload |
| CodecLoops.DecodeBytes | crates/alefs-types/src/codec.rs:58-72 | version check, one value, and no trailing bytes |
| Storage.ApplyIsPatch | crates/alefs-storage/src/wal.rs:141-152 | applying a batch in order is applying its last write per key |
| Storage.ApplyIdempotent | crates/alefs-storage/src/wal.rs:141-152 | applying a batch to its own outcome changes nothing |
| Storage.ScanRange | crates/alefs-storage/src/memory.rs:47-56 | the range scan with early break returns every row with the prefix, in key order, and no other |
| Storage.ScanFilters | crates/alefs-storage/src/memory.rs:47-56 | that scan is the whole ordered map filtered by prefix |
| Storage.MemoryStorage.Commit | crates/alefs-storage/src/memory.rs:33-45 | the map afterwards is the batch applied to the map before |
| Storage.MemoryStorage.ScanPrefix | crates/alefs-storage/src/memory.rs:47-56 | the scan of the store's own map |
| Crc.ComputeCrc32 | crates/alefs-storage/src/wal.rs:383-393 | the nested loops with the mask compute the register of the specification |
| CrcProofs.BurstDetected | crates/alefs-storage/src/wal.rs:226-231 | changing up to four consecutive bytes of any body always changes the stored checksum |
| CrcMeaning.ChecksumIff | crates/alefs-storage/src/wal.rs:383-393 | four bytes are the stored checksum of a message if and only if the message, its bits as a polynomial over GF(2) with the first 32 inverted and 32 zeros behind, is a multiple of x^32+x^26+x^23+x^22+x^16+x^12+x^11+x^10+x^8+x^7+x^5+x^4+x^2+x+1 plus their inverted, reflected bits |
| WalProofs.BodyRoundTripIff | crates/alefs-storage/src/wal.rs:238-276 | reading a record body returns the operations it was written from if and only if every length fits the 32 bits it is cast to |
| WalProofs.RecordRoundTripIff | crates/alefs-storage/src/wal.rs:154-236 | with anything behind it, a record is read back as its batch, leaving exactly what follows, if and only if its lengths fit |
| WalProofs.ReplayLog | crates/alefs-storage/src/wal.rs:185-236 | replaying encoded batches followed by anything continues with that behind the batches applied in order |
| WalProofs.ReplayTornLog | crates/alefs-storage/src/wal.rs:202-225 | a log followed by any strict prefix of one more record replays to its whole batches |
| WalProofs.ReplayDamagedLog | crates/alefs-storage/src/wal.rs:226-231 | damage within four consecutive bytes of one body makes replay return exactly the batches before it, whatever follows |
| WalProofs.ReplayTwice | crates/alefs-storage/src/wal.rs:185-236 | replaying a log over its own outcome changes nothing |
| WalProofs.ApplyAllIdempotent | crates/alefs-storage/src/wal.rs:86-97 | replaying the log over a checkpoint that already contains it changes nothing |
| WalProofs.CheckpointRoundTripIff | crates/alefs-storage/src/wal.rs:278-347 | loading a written checkpoint returns the same map and offset if and only if every length in it fits the 32 bits it is cast to |
| Formats.RecordLayout | crates/alefs-storage/src/wal.rs:154-183 | the bytes of a record: ALEF, version 1, length, body of count and operations by their codes, checksum |
| Formats.CheckpointLayout | crates/alefs-storage/src/wal.rs:278-305 | the bytes of a checkpoint: CKPT, version 1, length, log offset, count and rows, checksum |
| Formats.BodyIff | crates/alefs-storage/src/wal.rs:238-276 | a body is read as a batch if and only if it is the one written for that batch, its lengths within 32 bits |
| Formats.RecordIff | crates/alefs-storage/src/wal.rs:185-236 | bytes are read as a first record if and only if they start with the one written for it |
| Formats.ReplayIs | crates/alefs-storage/src/wal.rs:185-236 | replay on any bytes at all: the records in front are applied, and what is behind them is passed over if it is cut off or damaged and refused otherwise |
| Formats.DamagedCheckpoint | crates/alefs-storage/src/wal.rs:309-347 | a checkpoint with damage within four consecutive bytes of its body is refused |
| WalStore.EncodeRecord | crates/alefs-storage/src/wal.rs:154-183 | the record writer produces the record of the specification |
| WalStore.ReadRecord | crates/alefs-storage/src/wal.rs:238-276 | the body reader on its cursor returns the operations of the specification, or fails with it |
| WalStore.ReplayFrom | crates/alefs-storage/src/wal.rs:201-236 | the replay loop on its offset returns the map of the specification, or fails with it |
| WalStore.WriteCheckpoint | crates/alefs-storage/src/wal.rs:278-305 | the file holds the offset, the count and every row in key order, framed and checksummed |
| WalStore.ReadCheckpoint | crates/alefs-storage/src/wal.rs:309-347 | the loader on its cursor returns what the specification reads |
| WalStore.WalStorage.Open | crates/alefs-storage/src/wal.rs:32-67 | opening succeeds exactly when recovery does, holds the recovered map, and keeps the recovery invariant after a crash onto whole records |
| WalStore.WalStorage.Compact | crates/alefs-storage/src/wal.rs:86-104 | the map is unchanged, the checkpoint holds it and the log is empty; the files recover to the map if and only if its lengths fit, and then the recovery invariant holds |
| WalStore.WalStorage.Commit | crates/alefs-storage/src/wal.rs:112-127 | the map is the batch applied, the log has one more record or has been compacted at the threshold, and the recovery invariant holds if the lengths of the batch fit and, where it compacts, those of the map |
| Recovery.StepKeepsInv | crates/alefs-storage/src/wal.rs:86-127 | every step of commit, compaction and crash keeps: replaying the log over the checkpoint gives the batches acknowledged, provided the lengths written fit and an append starts behind whole records |
| Recovery.RunRecovers | crates/alefs-storage/src/wal.rs:32-127 | from any directory whose log holds whole records, in every state of every run of such steps with crashes anywhere, reopening yields the fold of all acknowledged batches over the map found first, or that plus the whole batch in flight |
| Recovery.CompactionKeepsIff | crates/alefs-storage/src/wal.rs:86-104 | a compaction keeps what reopening returns if and only if the lengths of the map fit the checkpoint |
| Recovery.CompactionLoses | crates/alefs-storage/src/wal.rs:86-104 | a log of two whole records with values of 2^31 bytes from which everything is read back, and the compaction after which it is not |
| TornTail.AppendsSafelyIff | crates/alefs-storage/src/wal.rs:47-56 | whatever batches are appended later, all of them survive reopening, if and only if the log found on opening holds whole records only |
| TornTail.TornTailWitness | crates/alefs-storage/src/wal.rs:203-206 | one byte of a record left in the log, one batch acknowledged after it, and reopening refuses the whole log |
| Paths.ParseAsStr | crates/alefs-types/src/path.rs:39-72 | parsing the string form of a path returns the path if no segment holds a NUL, and fails otherwise |
| Paths.ParseTrailing | crates/alefs-types/src/path.rs:51-57 | slashes at the end of a non-empty input make no difference to the outcome, errors included |
| Paths.ParseIff | crates/alefs-types/src/path.rs:39-72 | the inputs that parse as a path are exactly its string form with any number of slashes behind it, for paths with proper segments and no NUL |
| Paths.AsStrInjective | crates/alefs-types/src/path.rs:110-117 | different paths have different string forms |
| Paths.ParsedIsOk | crates/alefs-types/src/path.rs:39-72 | a parsed path has no empty, dot or slash segment and no NUL |
| Paths.ParsePath | crates/alefs-types/src/path.rs:39-72 | the parsing loop returns the path or the first error of the specification |
| Keys.EncInjective | crates/alefs-namespace/src/keys.rs:5-86 | distinct rows never share a key, whatever their kind |
| Keys.ChildScan | crates/alefs-namespace/src/keys.rs:23-28 | the prefix of a directory selects its own child rows and nothing else |
| Keys.TypeScanIff | crates/alefs-namespace/src/keys.rs:81-86 | the index prefix of a name selects the rows of that type and those whose type, a slash and the first bytes of the id spell the name in front of a byte that is a slash, and no others |
| Keys.IdRoundTrip | crates/alefs-namespace/src/keys.rs:30-41 | an id survives encoding and decoding |
| Formats.KeyTexts | crates/alefs-namespace/src/keys.rs:5-86 | every key as text around big-endian ids |
| Formats.RowsRead | crates/alefs-namespace/src/keys.rs:30-64 | exactly which bytes are which node row and which id row |
| Formats.JoinIs | crates/alefs-types/src/path.rs:88-98 | which names join takes, and as what it refuses the others |
| TreeModel.ResolveSpec | crates/alefs-namespace/src/db.rs:122-145 | looking up a path gives its node's id and record, or NotFound, never another error |
| TreeModel.GetSpec | crates/alefs-namespace/src/db.rs:155-172 | reading a path gives what the tree holds there |
| Refinement.StepRefines | crates/alefs-namespace/src/db.rs:174-286 | every operation on a store that represents a tree ends with the tree operation's error, or in a store representing its result: tree shape, fresh ids and exact index |
| Refinement.HasChildrenSpec | crates/alefs-namespace/src/db.rs:266-274 | the emptiness test before a delete sees exactly the children of the directory |
| Runs.OpenedRepresents | crates/alefs-namespace/src/db.rs:43-70 | a freshly opened store represents the tree with only the root |
| Runs.ReachableRepresents | crates/alefs-namespace/src/db.rs:116-286 | every store reachable from open by any operations and transactions represents a well-formed tree with an exact index |
| Runs.TransactRefines | crates/alefs-namespace/src/txn.rs:111-342 | on stores representing a tree, a transaction ends exactly as its operations run one by one, error included |
| Runs.TransactCovers | crates/alefs-namespace/src/txn.rs:111-124 | on any store at all, if the direct operations succeed the transaction ends in the same raw map |
| Limits.MkdirAgreesIff | crates/alefs-namespace/src/txn.rs:239-266 | on any store, mkdir in a transaction and directly agree unless the path runs into a malformed row while its parent and the counter are sound |
| Limits.MkdirDiffers | crates/alefs-namespace/src/txn.rs:243-245 | a store with a malformed child row: the direct mkdir fails, the one in a transaction replaces the row |
| Behaviour.UniqueLink | crates/alefs-namespace/src/db.rs:197-202 | no node is linked from two places |
| Behaviour.LinkedFromDirectory | crates/alefs-namespace/src/db.rs:116-120 | every node but the root is linked from a directory with a smaller id, and its id is below the counter |
| Behaviour.IndexExact | crates/alefs-namespace/src/db.rs:196-257 | the index holds a row for a type and id exactly when the live node with that id has that type, and the row is its path |
| Behaviour.SetThenGet | crates/alefs-namespace/src/db.rs:207-259 | after set, the path reads as the canonical value if and only if its lengths fit 32 bits, and every other path as before |
| Behaviour.DeleteThenGet | crates/alefs-namespace/src/db.rs:261-286 | after delete, the path is absent and every other path reads as before |
| Behaviour.MkdirThenGet | crates/alefs-namespace/src/db.rs:174-203 | after mkdir, the path is a directory and every other path reads as before |
| SetAdds.SetAddOrderIrrelevant | crates/alefs-namespace/src/db.rs:469-489 | two sequences of set_add with the same payloads, in any order and with any repeats, leave the identical store; only the distinct payloads are bounded, by the 32-bit count |
| Values.InsertFind | crates/alefs-namespace/src/db.rs:435-436 | inserting into an ordered map changes the lookup of its key and of no other |
| Structures.ModifyThenGet | crates/alefs-namespace/src/db.rs:420-508 | a structure operation stores what it computed from the value it read, which reads back if and only if its lengths fit, and every other path reads as before |
| Structures.HashSetThenGet | crates/alefs-namespace/src/db.rs:420-437 | after hash_set the field reads as the canonical value and every other field as before; only a hash or a missing path is accepted |
| Structures.ListPushThenGet | crates/alefs-namespace/src/db.rs:450-467 | after list_push the list reads as before with the canonical value at its end; only a list or a missing path is accepted |
| Structures.SetAddThenGet | crates/alefs-namespace/src/db.rs:469-489 | after set_add the set has the payloads it had and that of the value; only a set or a missing path is accepted |
| Structures.TreeSetThenGet | crates/alefs-namespace/src/db.rs:491-508 | after tree_set the key reads as the canonical value and every other key as before; only a tree or a missing path is accepted |
| Listing.ListSpec | crates/alefs-namespace/src/db.rs:301-325 | a directory lists each child once with its kind, in name order |
| Listing.ListFails | crates/alefs-namespace/src/db.rs:301-305 | listing anything else fails as NotFound or NotDirectory |
| QueryMeaning.NameOrderIs | crates/alefs-namespace/src/db.rs:323-323 | names are listed in the order of their bytes |
| Listing.PathsWithTypeSpec | crates/alefs-namespace/src/db.rs:289-298 | the index lists each selected node once in string order, and fails if and only if one of their paths holds a NUL |
| QueryMeaning.IndexOrderIs | crates/alefs-namespace/src/db.rs:289-298 | the index answers in the order of the bytes of the paths |
| Listing.SelectedIff | crates/alefs-namespace/src/db.rs:289-290 | the nodes an index scan selects: those of the type, and those whose type and id continue to the name as above |
| Listing.SelectedExact | crates/alefs-namespace/src/db.rs:289-290 | so the scan selects every node of the type, and for names without a slash no other |
| Limits.SlashedTypeFound | crates/alefs-namespace/src/db.rs:289-298 | a reachable database in which asking for the type int, slash and six NULs answers with a node of type int |
| Rebuild.RebuildBatch | crates/alefs-namespace/src/db.rs:73-93 | the stack walk ends and its batch gives exactly the incrementally maintained store, whatever was under idx/t/; it fails if and only if a value cannot be read |
| Rebuild.FrontierStep | crates/alefs-namespace/src/db.rs:80-90 | popping a path and pushing its children keeps every live path either visited or below exactly one path on the stack |
| Databases.Database.Open | crates/alefs-namespace/src/db.rs:43-70 | an empty store becomes the fresh database; an older one, also one whose lost counter belongs at 2, becomes the good store with its index rebuilt; a failure changes no more than the counter |
| Limits.CounterRepairIff | crates/alefs-namespace/src/db.rs:51-56 | restarting a lost id counter gives a store that holds a tree if and only if the root is the only node |
| Databases.Database.RebuildTypeIndex | crates/alefs-namespace/src/db.rs:73-93 | one commit replaces the index |
| Databases.Database.MakeDir | crates/alefs-namespace/src/db.rs:174-203 | fails without a change, or commits the batch of mkdir |
| Databases.Database.Set | crates/alefs-namespace/src/db.rs:207-259 | fails without a change, or commits the batch of set |
| Databases.Database.Delete | crates/alefs-namespace/src/db.rs:261-286 | fails without a change, or commits the batch of delete |
| Databases.Database.Modify | crates/alefs-namespace/src/db.rs:420-508 | the structure operations read, modify and write back, or fail without a change |
| Databases.Database.ApplyTxn | crates/alefs-namespace/src/txn.rs:111-124 | all operations take effect in one commit, or the first error leaves the store as it was |
| Overlays.Overlay.Get | crates/alefs-namespace/src/txn.rs:61-66 | reads what the store would hold after the commit |
| Overlays.Overlay.Put | crates/alefs-namespace/src/txn.rs:68-70 | the view gains the row |
| Overlays.Overlay.Delete | crates/alefs-namespace/src/txn.rs:72-74 | the view loses the row |
| Overlays.Overlay.ScanPrefix | crates/alefs-namespace/src/txn.rs:76-95 | scans what the store would hold after the commit |
| Overlays.Overlay.IntoBatch | crates/alefs-namespace/src/txn.rs:97-106 | committing the batch gives exactly the view |
| Txn.ResolveOv | crates/alefs-namespace/src/txn.rs:205-229 | the lookup loop on the overlay is the lookup on the view |
| Txn.MkdirOv | crates/alefs-namespace/src/txn.rs:239-266 | mkdir on the overlay changes the view by its batch, or fails without a change |
| Txn.SetOv | crates/alefs-namespace/src/txn.rs:268-315 | set on the overlay changes the view by its batch, or fails without a change |
| Txn.DeleteOv | crates/alefs-namespace/src/txn.rs:317-342 | delete on the overlay changes the view by its batch, or fails without a change |
| Txn.ApplyOne | crates/alefs-namespace/src/txn.rs:127-196 | each operation on the overlay has the effect of the direct one on the view |
| Durable.DbStepKeeps | crates/alefs-namespace/src/db.rs:43-93 | each stage of opening, each action with its batch or without one, each storage step and each crash keeps: the store is empty, or opening makes the good store of it, or it is the good store after the actions done |
| Durable.CrashKeepsTree | crates/alefs-storage/src/wal.rs:32-127 | after any run of the database on the log with crashes anywhere, opening included, the files load as a store that opening turns into exactly the one after the acknowledged actions, or those and the whole action in flight, and that one represents a tree |
| Durable.Reopen | crates/alefs-namespace/src/db.rs:43-70 | opening what was recovered gives that store; it cannot fail once the database had been opened |
| Reading.ResolvePath | crates/alefs-namespace/src/db.rs:122-145 | the lookup loop follows child rows as the specification does |
| Reading.ListChildren | crates/alefs-namespace/src/db.rs:301-325 | the listing loop returns the children or the first error of the specification |
| Reading.PathsOfType | crates/alefs-namespace/src/db.rs:289-298 | the index loop returns the paths or the first error of the specification |
| Reading.WalkTree | crates/alefs-query/src/eval.rs:92-106 | the recursive walk ends and pushes the entries of the specification behind those already there |
| Reading.RunQuery | crates/alefs-query/src/eval.rs:24-39 | every live node satisfying the expression is returned once with its type, and nothing else |
| Walking.WalkSpec | crates/alefs-query/src/eval.rs:92-106 | the walk lists every live path below its start exactly once, in path order, with what it reads as; it fails if and only if one of them cannot be read |
| QueryMeaning.WalkOrderIs | crates/alefs-query/src/eval.rs:92-106 | the walk goes to parents before children and to siblings in name order |
| Query.RequiredTypeSound | crates/alefs-query/src/eval.rs:42-52 | whatever satisfies an expression has the type the planner derives from it |
| Query.FullScanSpec | crates/alefs-query/src/eval.rs:84-106 | filtering the walk gives exactly the matching nodes, none twice |
| Query.IndexPlanSpec | crates/alefs-query/src/eval.rs:54-67 | the index plan gives exactly the matching nodes, none twice, and fails if and only if a selected path holds a NUL or a selected value cannot be read |
| Query.PlanAgrees | crates/alefs-query/src/eval.rs:24-106 | the plan a query runs with returns the same hits as filtering the full walk |
| QueryMeaning.AndAnswers | crates/alefs-query/src/eval.rs:108-115 | the paths answered by a conjunction are those answered by both sides |
| QueryMeaning.OrAnswers | crates/alefs-query/src/eval.rs:108-115 | the paths answered by a disjunction are those answered by either side |
| QueryMeaning.NotAnswers | crates/alefs-query/src/eval.rs:108-115 | the paths answered by a negation are all live paths but those answered |
| QueryMeaning.HitKinds | crates/alefs-query/src/eval.rs:24-39 | every answered path is hit once, with the name of its kind |
| QueryMeaning.ValueAnswers | crates/alefs-query/src/eval.rs:136-139 | value: the scalars that compare, by the order of kinds and of contents |
| QueryMeaning.HasAnswers | crates/alefs-query/src/eval.rs:140-151 | has: the hashes with the field, and the trees with the string key or the integer key it spells |
| QueryMeaning.ContainsAnswers | crates/alefs-query/src/eval.rs:152-158 | contains: the structures with the value among members, items or field values |
| QueryMeaning.AtAnswers | crates/alefs-query/src/eval.rs:159-168 | at: the lists with a scalar at the index that compares |
| QueryMeaning.KeyAnswers | crates/alefs-query/src/eval.rs:169-172 | key: the trees with a key that compares |
| QueryMeaning.SizeAnswers | crates/alefs-query/src/eval.rs:173-186 | size: the values whose bytes or members compare in number |
| QueryMeaning.TypeAnswers | crates/alefs-query/src/eval.rs:124-135 | type: the nodes of that kind, scalar standing for six kinds and directories having their own |
| QueryMeaning.NameAnswers | crates/alefs-query/src/eval.rs:120-123 | name: the nodes whose name splits along the pattern, the name of the root being empty |
| QueryMeaning.PathAnswers | crates/alefs-query/src/eval.rs:119-119 | path: the nodes whose segments split along the pieces of the pattern |
| QueryMeaning.PiecesMeaning | crates/alefs-query/src/eval.rs:222-224 | the pieces of a pattern are its runs between slashes, empty ones dropped |
| QueryMeaning.ScalarOrderIs | crates/alefs-types/src/value.rs:6-15 | the order of scalars: by kind, then false before true, numbers, float bits, text and bytes by first difference |
| QueryMeaning.RequiredIsConjunct | crates/alefs-query/src/eval.rs:42-52 | the index is used only for a type that a conjunct names |
| QueryMeaning.ConjunctIsRequired | crates/alefs-query/src/eval.rs:42-52 | the index is used if a conjunct names a type other than scalar and none names another |
| Query.CmpTrichotomy | crates/alefs-query/src/eval.rs:196-205 | the six comparisons are those of one total order |
| Limits.NulBreaksIndex | crates/alefs-types/src/path.rs:88-98 | a directory named with a NUL, which join accepts, makes the index query fail while the full scan finds it |
| Glob.GlobMeaning | crates/alefs-query/src/eval.rs:259-275 | the matcher accepts exactly the texts that split into one run per pattern character |
| Glob.SegmentsMeaning | crates/alefs-query/src/eval.rs:228-251 | the matcher accepts exactly the paths that split into one run of segments per pattern piece |
| Glob.PathGlobMeaning | crates/alefs-query/src/eval.rs:218-226 | the shortcut patterns agree with the general matcher |
| Glob.GlobMatch | crates/alefs-query/src/eval.rs:259-275 | the search loop decides whether the split exists |
| Glob.MatchPath | crates/alefs-query/src/eval.rs:228-251 | the search loop decides whether the split exists |
| Lexer.TokenizeSpaced | crates/alefs-query/src/parse.rs:232-347 | any sequence of tokens but floats, written with spaces, is read back |
| QueryParse.PrintParse | crates/alefs-query/src/parse.rs:62-104 | every float-free expression the parser can produce is parsed back from its own text |
| QueryParse.ParsedIsProducible | crates/alefs-query/src/parse.rs:106-230 | the parser produces no other expressions |
| QueryParse.ChainParsesLeft | crates/alefs-query/src/parse.rs:62-78 | an AND/OR chain without parentheses is the left fold of its terms |
| QueryGrammar.QueryIff | crates/alefs-query/src/parse.rs:62-230 | token sequences parse if and only if they spell a sentence of the grammar, bare and quoted arguments alike, and then as its meaning |
| QueryGrammar.TokensIff | crates/alefs-query/src/parse.rs:232-347 | texts are tokenized if and only if they are tokens, each as long as it can be, with blank text between, and then as these |
| QueryGrammar.ParseQueryIff | crates/alefs-query/src/parse.rs:17-29 | exactly which texts are queries, and what each asks |
| QueryGrammar.BareArgument | crates/alefs-query/src/parse.rs:185-205 | path, type, name and has take any bare word |
| QueryLoops.TokenizeText | crates/alefs-query/src/parse.rs:232-347 | the tokenizer loop returns the tokens or the error of the specification |
| QueryLoops.Parser.Expression | crates/alefs-query/src/parse.rs:62-78 | the loop on the token index parses as the specification does and leaves the same rest |
| QueryLoops.Parser.Term | crates/alefs-query/src/parse.rs:80-89 | NOT and primaries on the token index |
| QueryLoops.Parser.Primary | crates/alefs-query/src/parse.rs:91-104 | parentheses and predicates on the token index |
| QueryLoops.ParseText | crates/alefs-query/src/parse.rs:17-29 | one expression and no token behind it |
| Numbers.ParseIntText | crates/alefs-namespace/src/db.rs:519-519 | the decimal text of every 64-bit integer parses back to it |
| JsonProofs.KeyRoundTripIff | crates/alefs-namespace/src/db.rs:844-866 | a tree key survives if and only if it is neither a string that reads as another kind of key nor a float whose text parses otherwise |
| JsonProofs.HexBack | crates/alefs-namespace/src/db.rs:567-603 | bytes survive being written as hex and read back |
| JsonProofs.ParseStringBack | crates/alefs-namespace/src/db.rs:687-707 | a quoted string is read back whatever it holds, leaving exactly what follows |
| JsonTexts.StringIff | crates/alefs-namespace/src/db.rs:687-707 | exactly which texts start with a quoted string, what its escapes mean, and what is left behind it |
| JsonTexts.QuoteUnits | crates/alefs-namespace/src/db.rs:511-513 | the printer escapes quotes and backslashes and nothing else |
| JsonTexts.IntegerIff | crates/alefs-namespace/src/db.rs:709-735 | a 64-bit integer is an optional sign, any zeros, and its decimal text |
| JsonTexts.HexIff | crates/alefs-namespace/src/db.rs:581-603 | exactly which texts are which bytes in hex, of either case |
| JsonTexts.HexWritten | crates/alefs-namespace/src/db.rs:567-579 | bytes are written as lower-case digits, the high half first |
| JsonTexts.KeyKinds | crates/alefs-namespace/src/db.rs:844-866 | exactly which texts are which tree key |
| JsonProofs.NumberReads | crates/alefs-namespace/src/db.rs:709-735 | the text of a number is read as an integer without a point and as a float with one, leaving exactly what follows, or fails |
| JsonProofs.ArrayReads | crates/alefs-namespace/src/db.rs:737-755 | an array of texts is read as the array of their values, and not at all if one of them cannot be read |
| JsonProofs.ObjectReads | crates/alefs-namespace/src/db.rs:757-782 | an object of fields is read as the object of their values in order, and not at all if one of them cannot be read |
| JsonValues.ValueReads | crates/alefs-namespace/src/db.rs:515-555 | the text of any value is read as its JSON, leaving exactly what follows, or fails exactly where a float in it cannot be read |
| JsonValues.ValueBack | crates/alefs-namespace/src/db.rs:785-842 | the JSON of a value whose floats and keys survive converts back to the value |
| JsonBack.ConvertedPlain | crates/alefs-namespace/src/db.rs:785-866 | whatever JSON it came from, a converted value has its maps in order and no string key that reads as another kind |
| JsonTexts.Conversion | crates/alefs-namespace/src/db.rs:785-799 | what every JSON value but an object converts to |
| JsonTexts.ObjectConversion | crates/alefs-namespace/src/db.rs:800-842 | what every JSON object converts to: a special form behind its marker, otherwise a hash in which the last of equal keys counts |
| JsonTexts.ImportMeans | crates/alefs-namespace/src/db.rs:381-416 | below the root an object with the one field __dir becomes a directory, made unless it is there, and anything else a value |
| JsonTexts.ImportRootMeans | crates/alefs-namespace/src/db.rs:401-413 | at the root the content of a directory or of any other object is imported, and nothing else |
| JsonBack.FloatRoundTripIff | crates/alefs-namespace/src/db.rs:520-527 | a float comes back from its text if and only if it is finite, printed with a point, and parsed to itself |
| JsonBack.Converted | crates/alefs-namespace/src/db.rs:785-866 | what a value comes back as is no longer than it, and comes back unchanged the next time if the string keys of the value are plain |
| JsonBack.ValueRoundTripIff | crates/alefs-namespace/src/db.rs:515-866 | printing, parsing and converting returns a value if and only if every float in it survives as above, no tree key is a string that reads as another kind, and every float key is parsed to itself |
| Limits.KeyChangesKind | crates/alefs-namespace/src/db.rs:844-866 | the tree key "null" comes back as the null key |
| Limits.FloatOutcome | crates/alefs-namespace/src/db.rs:520-735 | what each float comes back as: a string if it is not finite, what its text parses to if that has a point, an integer if the text is one of 64 bits, and otherwise nothing, the text being unreadable |
| Limits.IntegralChanges | crates/alefs-namespace/src/db.rs:520-735 | a float printed as an integer comes back as that integer if it has 64 bits, and cannot be read otherwise |
| Limits.MinusZeroChanges | crates/alefs-namespace/src/db.rs:520-735 | negative zero, printed as -0, comes back as the integer 0 |
| Limits.LargeFloatFails | crates/alefs-namespace/src/db.rs:353-379 | a database with the one value 1e19 is exported as text that cannot be imported |
| JsonLoops.JsonParser.ReadValue | crates/alefs-namespace/src/db.rs:652-664 | the reader on its cursor returns the value or error of the specification and stops where it does |
| JsonLoops.JsonParser.ReadString | crates/alefs-namespace/src/db.rs:687-707 | the string loop on the cursor |
| JsonLoops.JsonParser.ReadArray | crates/alefs-namespace/src/db.rs:737-755 | the array loop on the cursor |
| JsonLoops.JsonParser.ReadObject | crates/alefs-namespace/src/db.rs:757-782 | the object loop on the cursor |
| JsonLoops.ReadJson | crates/alefs-namespace/src/db.rs:616-624 | one value and nothing but space behind it |
| JsonLoops.ExportNode | crates/alefs-namespace/src/db.rs:358-373 | the recursive export ends and returns the text of the specification |
| JsonLoops.ImportText | crates/alefs-namespace/src/db.rs:375-416 | the store and error after an import are those of the specification, partial imports included |
| TransferProofs.ExportOkIff | crates/alefs-namespace/src/db.rs:358-373 | exporting a subtree succeeds if and only if every node in it can be read |
| TransferProofs.ExportReads | crates/alefs-namespace/src/db.rs:358-373 | the exported text of a readable tree reads as the JSON of the tree, or not at all if a float in it does not |
| TransferLimits.IllegibleFails | crates/alefs-namespace/src/db.rs:375-379 | one value whose text cannot be read, and the import of the whole export fails before anything is written |
| TransferLimits.ExportImportIff | crates/alefs-namespace/src/db.rs:353-416 | for readable databases: importing the export into an empty one succeeds with every path reading the same if and only if no name right below the root holds a NUL and every value survives JSON in the sense above |
| TransferProofs.ExportImport | crates/alefs-namespace/src/db.rs:353-416 | and then the imported store represents a tree again, index and all |
| TransferLimits.ImportChildrenSafe | crates/alefs-namespace/src/db.rs:386-416 | an import, to its end or to its failure, keeps any property of stored values that every value in the JSON is stored with |
| TransferLimits.ChildPathIff | crates/alefs-namespace/src/db.rs:391-395 | which child names an import takes, and as which path: at the root the texts that parse, below it the single segments |
| JsonTexts.TrimIs | crates/alefs-namespace/src/db.rs:375-376 | an import first takes the white space off both ends of its text and no more |
| Limits.NulExportFails | crates/alefs-namespace/src/db.rs:391-395 | the export of a database with one directory named NUL cannot be imported |

## Left out

- FUSE adapter, server, client, wire protocol, file locking and signals: kernel and socket plumbing around the same operations.
- Command line, benchmarks and scripts: argument handling and timing.
- File-system failures other than a crash (failed writes, a missing directory sync, reordered renames): taken not to happen.
- Float text: how `Display` and `parse` work on floats; they are parameters with the two promises named above.
- Error message texts: only the kind of an error is kept; errors of the log reader and of the query parser have a single kind.
- Wrap-around of the 64-bit id counter: runs are bounded below 2^64 operations; the counter itself is written modulo 2^64.
- The generic `Storage` parameter of the database: `Databases.Database` stands on the in-memory backend, and `Durable` relates its batches to the log.
- `walk_values`, `hash_get`, statistics, `WriteBatch` accessors and other simple accessors: they would only add easy members.
- The loops inside the hex, path-joining and key-building helpers: given as functions.
- Reading.WalkTree: asks for a store that represents a tree, because on child rows that form a cycle the recursion does not end.
- Reading.RunQuery: asks for the same, because it walks.
- JsonLoops.ExportNode: asks for the same, because it walks.
- Rebuild.RebuildBatch: asks for a tree behind the rows outside the index, because its walk need not end without one.
- Databases.Database.RebuildTypeIndex: asks for the same, because it calls it.
- Databases.Database.Open: asks of a non-empty store that it is a good one but for its type index, its index version and a lost counter, because on anything else what opening leaves is not specified by the program either.
- Databases.Database.Modify: one method for the four structure operations, which differ only in the structure they expect.
- WalStore.WalStorage.Commit: keeps the recovery invariant for batches, and where it compacts for maps, whose lengths fit 32 bits, because longer ones are written with truncated lengths.
