# Local index directory: a verified model

Boost's local index directory records which piece holds which block, and at what offset. This project models
the parts of it whose correctness does not show from reading one function, and proves what they are for.

* **LevelDB store** (`keys`, `index_model`, `leveldb`, `swap_remove`, `index_invariant`, `directory`). `LevelDb.Store`
  is a class over one key-value map, with the source's loops, batches, cursor allocator and in-place removal. Each
  method is proved to do to the tables what a pure operation of `IndexModel` does; `IndexInvariant` shows that the
  forward and inverse tables agree after every run; `Directory` shows that the tables refine a plain map from pieces
  to their index, and derives isolation of pieces and the equality of split and single indexing. `Keys` shows that
  the strings the tables are stored under never collide, which is what the structured keys of the class rest on.
* **Codecs** (`varint`, `base64`, `offset_size`). The base-128 varints of Go's `encoding/binary` and unpadded
  base64 (RFC 4648, sections 3.2 and 4), with round trips over all 64-bit values.
* **Piece directory** (`piece_directory`, `shared_reader`, `single_flight`, `segments`, `car_layout`, `multi_reader`).
  What the directory stores, which in this repository are deals and no index records; two concurrent
  protocols as step systems in which any number of goroutines interleave in any order; parallel validation of data
  segments; reading across parts, and the reader that presents a CARv2 payload at its offsets in the piece.
* **Yugabyte store** (`yugabyte_encode`, `yugabyte_batches`, `yugabyte_insert`, `yugabyte_progress`, `worker_pool`, `yugabyte_remove`).
  How records are split over goroutines and batches, concurrent insertion row by row, and removal by a worker pool.
* **Sector states** (`sector_state`), **configuration migration** (`config_migrate`), **scan for pieces to check**
  (`doctor`), **re-sealing** (`reseal`).

A concurrent part is a state, one predicate for each kind of step, and `IsRun`: any finite sequence of states in
which each follows from the one before by some step of some goroutine. A step is one critical section or one action
between two synchronisations. "Reachable" always means in some run, with no bound on its length or on the number of
goroutines.

Library behaviour is taken as follows. The TTL cache removes an entry first and runs its callback once, later, in
another goroutine. A read inside a part's range fills the buffer. A datastore prefix query yields the keys under
the prefix, in an order the proofs do not use, except that the scan for pieces sees the table in one fixed order.

## Where the code does less than it seems to

These came out of the proofs; each is stated as an exact condition or with a concrete witness.

* A deal stored before its piece is indexed gets the reserved cursor 0, and two such pieces answer for each other's
  blocks (`IndexInvariant.AddDealKeepsExactly`, `IndexInvariant.DealFirstMixesPieces`). The piece directory calls
  its indexer first, but the indexer only parses the piece: the calls that would store the records are commented out
  (`lib/boost/piecedirectory/piecedirectory.go:375-405`). So every new piece is stored deal first
  (`PieceDirectory.AddDealStepKeepsExactly`), and whatever is done through the piece directory no piece is ever
  indexed (`PieceDirectory.NeverIndexes`). Indexing before storing deals is a discipline that users of the store have
  to follow; the results on runs of the store assume it (`IndexInvariant.IndexFirstRun`).
* The in-place removal of a piece from a list can run out of range on a list with duplicates
  (`SwapRemove.InRangeExactly`); no reachable list has any (`LevelDb.ReachableDistinct`).
* Decoding the text of an offset and size stops the program exactly when the text is good base64 whose bytes begin
  with a varint wider than 64 bits (`OffsetSizeCodec.PanicExactly`, `OffsetSizeCodec.WideTextPanics`).
* A read across parts stops early at an empty part that reports the end of the file
  (`MultiReader.CompleteExactly`); a CARv2 layout has one only when the wrapper before the payload is empty
  (`CarLayout.ReadsCompleteExactly`).
* A migration that is interrupted ends, when it is run again, as one that was not, exactly if it did not stop between
  removing `config.toml` and making the symlink, nor in a write to the file `config.toml` is a link to
  (`ConfigMigrate.ResumeExactly`). In the first case no configuration is left and running it again fails
  (`ConfigMigrate.InterruptedLosesConfig`). In the second the file may be left empty, which counts as version 0, and
  running it again succeeds with the migration of an empty file (`ConfigMigrate.EmptiedConfigIsMigrated`). The live
  file is written in every step but the first, as the copy of the version aimed at, and in a first step when
  `config.toml` already is a link to the copy of its own version.
* A sector marked as removed that shows up in the cache again stays removed (`SectorState.AgreesExactly`).
* With a page size of one the scan for pieces never returns to the start (`Doctor.BatchOfOneNeverReturns`). Two miners
  taking turns each get to see every piece exactly when a cycle has an odd number of calls
  (`Doctor.TwoMinersExactly`).
* A worker pool without workers reports success and has done nothing (`WorkerPool.SuccessMeansAllExactly`,
  `YugabyteRemove.NoWorkersNoRemoval`). The store replaces a parallelism of 0, but no negative setting
  (`YugabyteBatches.Clamp`).
* A removal whose scan of the rows fails can report success with rows left, since nobody looks at the error in the
  stream (`YugabyteRemove.AllRemovedExactly`); and it leaves the lookup rows of insertions that failed half-way
  (`YugabyteRemove.NothingLeftExactly`). While it runs, exactly the rows whose keys it has deleted are missed
  (`YugabyteRemove.MissedExactly`).
* With no room for precommit 1, sectors that want it wait for ever (`Reseal.CompletesExactly`,
  `Reseal.StuckForever`).

## Model

| member | source | states |
|---|---|---|
| Varint.PutUvarint | lib/boostd-data/ldb/db.go:358-363 | writes the base-128 form of any 64-bit value at a position of a buffer that has ten bytes left there, and leaves the rest of the buffer alone |
| Varint.Uvarint | lib/boostd-data/ldb/db.go:376-381 | reads one varint; the length is zero exactly for a buffer that ends too soon and negative exactly for a value wider than 64 bits |
| Varint.LengthExactly | lib/boostd-data/model/model.go:77-78 | which byte strings those are: at most ten bytes that all continue; nine that continue and then one above 1, or ten that continue and more to come |
| Varint.ValueExactly | lib/boostd-data/model/model.go:77-78 | a varint ends at the first byte that does not continue and is the number with those base-128 digits, lowest first, in shortest form or not |
| Varint.RoundTrip | lib/boostd-data/model/model.go:66-67 | decoding the encoding of any 64-bit value, whatever follows it, gives the value and the number of bytes written |
| Varint.EncodeFits | lib/boostd-data/model/model.go:65-67 | every 64-bit value takes at most ten bytes, so a twenty-byte buffer never overflows |
| Base64.RoundTrip | lib/boostd-data/model/model.go:68-76 | decoding the unpadded base64 text of any bytes gives the bytes |
| Base64.BitsInOrder | lib/boostd-data/model/model.go:68 | the characters of a group hold the bits of its bytes, highest first, filled up with zero bits |
| Base64.StandardAlphabet | lib/boostd-data/model/model.go:68 | the alphabet is the standard one of RFC 4648 |
| Base64.CleanExactly | lib/boostd-data/model/model.go:72-75 | a text decodes exactly when all its characters are in the alphabet and none is left over from groups of four |
| Base64.SkipsLineBreaks | lib/boostd-data/model/model.go:72 | line breaks are skipped wherever they are, and nothing else |
| OffsetSizeCodec.PairRoundTrip | lib/boostd-data/ldb/db.go:358-382 | the two concatenated varints of a row read back to the same offset and size, and fit the buffer |
| OffsetSizeCodec.OffsetComesFirst | lib/boostd-data/ldb/db.go:358-363 | the offset is the first varint of the pair and the size the second |
| OffsetSizeCodec.TextRoundTrip | lib/boostd-data/model/model.go:64-84 | Unmarshall of Marshall is the identity for every 64-bit offset and size |
| OffsetSizeCodec.TextInjective | lib/boostd-data/model/model.go:64-84 | different offsets or sizes never have the same text |
| OffsetSizeCodec.WritePair | lib/boostd-data/ldb/db.go:358-363 | the buffer filled in place holds exactly the pair of varints |
| OffsetSizeCodec.PairFailsExactly | lib/boostd-data/ldb/db.go:376-382 | the second read would start before the buffer exactly when the first varint is wider than 64 bits |
| OffsetSizeCodec.PanicExactly | lib/boostd-data/model/model.go:71-84 | a text stops the program exactly when it is base64 of bytes that begin with such a varint, and is an error exactly when it is not base64 |
| OffsetSizeCodec.WideTextPanics | lib/boostd-data/model/model.go:71-84 | a text that does |
| OffsetSizeCodec.ReadPair | lib/boostd-data/ldb/db.go:376-382 | reads two varints one after the other, and fails exactly when the first is wider than 64 bits |
| OffsetSizeCodec.Record.MarshallBase64 | lib/boostd-data/model/model.go:64-69 | the text decodes to the record it was made from |
| OffsetSizeCodec.Record.UnmarshallBase64 | lib/boostd-data/model/model.go:71-84 | replaces both fields by what the text says, or leaves the record alone: for text that is not base64, and, stopping the program, for a first varint wider than 64 bits |
| Keys.RenderInjective | lib/boostd-data/ldb/db.go:53-69 | no two keys of the store, within a table or across tables, are stored under the same string |
| Keys.CursorQueryExact | lib/boostd-data/ldb/db.go:120-122 | a query for a cursor's prefix selects that cursor's rows only: no cursor that starts with the same digits, no system key |
| Keys.CursorQuerySuffix | lib/boostd-data/ldb/db.go:311-330 | what follows the prefix in a selected key identifies the multihash |
| Keys.DecimalExactly | lib/boostd-data/ldb/db.go:120-122 | cursors are written in decimal without leading zeros |
| Keys.HexExactly | lib/boostd-data/ldb/db.go:358-363 | multihashes are written as two lower-case hexadecimal digits a byte |
| SwapRemove.Remove | lib/boostd-data/ldb/db.go:685-690 | the in-place loop, which truncates the list while it ranges over the original, computes the specified list or runs out of range |
| SwapRemove.InRangeExactly | lib/boostd-data/ldb/db.go:685-690 | with c copies of the piece the loop stays in range exactly when none of them is among the last c - 1 elements |
| SwapRemove.RemovesExactly | lib/boostd-data/ldb/db.go:685-690 | when it stays in range it removes every copy of the piece and keeps every other element with its multiplicity |
| SwapRemove.DuplicateCanFail | lib/boostd-data/ldb/db.go:685-690 | two copies of the piece make it run out of range |
| SwapRemove.NoDupList | lib/boostd-data/ldb/db.go:676-690 | on a list without duplicates it is safe, removes exactly the piece and leaves no duplicates |
| LevelDb.Store.constructor | lib/boostd-data/ldb/service.go:62-89 | an opened empty store holds empty tables and the first free cursor, 100 |
| LevelDb.Store.InitCursor | lib/boostd-data/ldb/db.go:90-107 | an initialised cursor is kept; a missing one becomes 100 |
| LevelDb.Store.SetNextCursor | lib/boostd-data/ldb/db.go:125-131 | the stored varint, padded with zero bytes, reads back as the cursor; no other key changes |
| LevelDb.Store.Query | lib/boostd-data/ldb/db.go:637-644 | yields each stored key under the prefix once and no other |
| LevelDb.Store.CursorRows | lib/boostd-data/ldb/db.go:637-644 | the query for a cursor yields exactly the rows of that cursor |
| LevelDb.Store.SetMultihashesToPieceCid | lib/boostd-data/ldb/db.go:153-226 | the batch leaves each record's multihash listing the piece, once, and every other list as it was |
| LevelDb.Store.AddIndexRecord | lib/boostd-data/ldb/db.go:352-363 | sets one row of the offset table and nothing else |
| LevelDb.Store.AllocateMetadata | lib/boostd-data/ldb/service.go:383-413 | a piece without metadata takes the next cursor and advances the 64-bit counter; one with metadata keeps its cursor and completeness |
| LevelDb.Store.AddIndex | lib/boostd-data/ldb/service.go:361-430 | the whole operation changes the tables as `IndexModel.AddIndex` says and no flag entry |
| LevelDb.Store.AddDealForPiece | lib/boostd-data/ldb/service.go:91-138 | appends the deal unless it is there already, and changes nothing else; an unknown piece gets metadata that says it is not indexed, with cursor 0 |
| LevelDb.Store.CollectRemoval | lib/boostd-data/ldb/db.go:652-708 | one round of the loop adds to the batch exactly the writes for that row |
| LevelDb.Store.RemoveFromList | lib/boostd-data/ldb/db.go:685-690 | the in-place removal never leaves its range in a valid store |
| LevelDb.Store.RemoveRowsOf | lib/boostd-data/ldb/db.go:628-717 | deletes every row under the cursor and takes the piece out of those rows' lists, dropping a list it was alone in |
| LevelDb.Store.RemoveIndexes | lib/boostd-data/ldb/service.go:789-831 | removes the piece's rows and resets its indexing time; fails without change for an unknown piece |
| LevelDb.Store.RemovePieceMetadata | lib/boostd-data/ldb/db.go:592-622 | removes the piece's rows, then its metadata; fails without change for an unknown piece |
| LevelDb.Store.RemoveDealForPiece | lib/boostd-data/ldb/service.go:698-757 | the first deal with the id goes and no other, stated on the multiset of deals; the piece goes exactly with its only deal or if it has none; without such a deal nothing changes |
| IndexModel.RemoveDealExactly | lib/boostd-data/ldb/service.go:733-757 | the same for the table operation, on all tables, whether or not they satisfy the invariant |
| IndexModel.AddDealExactly | lib/boostd-data/ldb/service.go:110-133 | what storing a deal does to the tables, on all tables |
| LevelDb.Store.IsIndexed | lib/boostd-data/ldb/service.go:295-306 | true exactly for pieces with a non-zero indexing time |
| LevelDb.Store.GetOffsetSize | lib/boostd-data/ldb/service.go:141-171 | the offset and size stored for the multihash under the piece's cursor, or not found |
| LevelDb.Store.PiecesContainingMultihash | lib/boostd-data/ldb/service.go:227-251 | the stored list, or not found |
| LevelDb.Store.GetIndex | lib/boostd-data/ldb/db.go:305-349 | each multihash under the piece's cursor once, with its stored offset and size, decoded from its key and value |
| LevelDb.HoldsUnique | lib/boostd-data/ldb/db.go:29-51 | the key-value contents determine the tables |
| LevelDb.ReachableDistinct | lib/boostd-data/ldb/db.go:195-199 | in every run, disciplined or not, no list ever names a piece twice |
| IndexInvariant.StepKeeps | lib/boostd-data/ldb/service.go:361-430 | one disciplined operation keeps the two-way invariant: rows and lists agree, rows belong to live pieces, cursors are distinct and between 100 and the next one, lists are duplicate-free, unindexed pieces have no rows |
| IndexInvariant.ReachableInv | lib/boostd-data/ldb/service.go:91-138 | the invariant holds after every disciplined run from the empty store |
| IndexInvariant.NotIndexedMeansAbsent | lib/boostd-data/ldb/service.go:295-306 | a piece that reports not being indexed has no entry in either table |
| IndexInvariant.AddDealKeepsExactly | lib/boostd-data/ldb/service.go:110-116 | storing a deal keeps the invariant exactly when the piece has metadata |
| IndexInvariant.AddIndexKeepsExactly | lib/boostd-data/ldb/service.go:392-404 | indexing keeps the invariant exactly when the 64-bit cursor counter does not wrap around |
| IndexInvariant.DealFirstMixesPieces | lib/boostd-data/ldb/service.go:407-410 | without that order a piece that was never indexed gets another piece's rows |
| PieceDirectory.Directory.AddIndexForPiece | lib/boost/piecedirectory/piecedirectory.go:336-373 | parses the piece, reports whether that worked, and stores nothing |
| PieceDirectory.Directory.AddDealForPiece | lib/boost/piecedirectory/piecedirectory.go:229-258 | stores the deal if the piece is indexed or can be parsed; otherwise fails without change |
| PieceDirectory.Directory.BuildIndexForPiece | lib/boost/piecedirectory/piecedirectory.go:613-649 | succeeds exactly when the piece has a deal for which it can be parsed, and stores nothing |
| PieceDirectory.AddDealStepKeepsExactly | lib/boost/piecedirectory/piecedirectory.go:238-255 | storing a deal through the directory keeps the store's invariant exactly when the piece has metadata or cannot be parsed |
| PieceDirectory.NeverIndexes | lib/boost/piecedirectory/piecedirectory.go:369-405 | over any run of the directory nothing is ever indexed, and the invariant holds exactly while the store is empty |
| Directory.StepRefines | lib/boostd-data/ldb/service.go:724-757 | each operation on the tables does to the directory they stand for what the abstract operation does |
| Directory.RunRefines | lib/boostd-data/ldb/service.go:361-430 | after any disciplined run the tables stand for the directory the same run builds from nothing |
| Directory.LookupsAgree | lib/boostd-data/ldb/service.go:141-171 | the pieces listed for a multihash are exactly those whose index has it, and the offset found is the one in that index |
| Directory.Isolation | lib/boostd-data/ldb/db.go:628-717 | an operation on one piece changes no answer about any other piece |
| Directory.AddIndexInParts | lib/boostd-data/ldb/service.go:361-418 | indexing in any number of calls, at any times and with any completeness flags, leaves the same tables as one call with all records, the first flag and the last time |
| Directory.IndexedInParts | lib/boostd-data/ldb/db.go:305-363 | a newly indexed piece answers with the last written value for each multihash, and with nothing else |
| Directory.LastWrittenAt | lib/boostd-data/ldb/db.go:352-363 | of several records with one multihash the one written last counts |
| MultiReader.MultiReaderAt.SkipParts | lib/boost/car/multi_reader_at.go:43-47 | the binary search finds the place from which on all parts end after the offset, and before which none does |
| MultiReader.MultiReaderAt.ReadAt | lib/boost/car/multi_reader_at.go:41-81 | delivers that many bytes of the concatenation from the offset on, leaves the rest of the buffer alone, and returns no error exactly when the buffer is full |
| MultiReader.ReadParts | lib/boost/car/multi_reader_at.go:52-75 | the copying loop ends, empty parts included, with the bytes it promises |
| MultiReader.CompleteExactly | lib/boost/car/multi_reader_at.go:52-75 | a read delivers all that is asked for and present exactly when no empty part that reports the end of the file lies strictly inside it |
| MultiReader.StoppedExactly | lib/boost/car/multi_reader_at.go:58-66 | a read that is stopped delivers exactly what comes before the first part that stops it |
| CarLayout.Relayout | lib/boost/piecedirectory/piecedirectory.go:1007-1043 | builds header, gap and payload remainder for any CARv2 layout whose header fits its payload |
| CarLayout.OffsetsKept | lib/boost/piecedirectory/piecedirectory.go:1007-1043 | total size is data offset plus data size, the header comes first, and every byte after it sits at its offset in the piece |
| CarLayout.BlockKept | lib/boost/piecedirectory/piecedirectory.go:837-899 | a block stored after the header reads back from its offset in the piece |
| CarLayout.ReadsCompleteExactly | lib/boost/piecedirectory/piecedirectory.go:1024-1040 | all reads in range are complete exactly when the wrapper is not empty, or the payload is too short for one to cross its part |
| CarLayout.ReadBlock | lib/boost/piecedirectory/piecedirectory.go:1007-1043 | with a non-empty wrapper, reading a block at its stored offset fills the buffer with the piece's bytes and returns no error |
| SharedReader.StepKeeps | lib/boost/piecedirectory/piecedirectory.go:729-805 | get, wait, time-out, close, eviction and callback all keep the reader invariant |
| SharedReader.Safety | lib/boost/piecedirectory/piecedirectory.go:729-805 | refs counts the outstanding holders; a reader is cancelled exactly when expired and unheld, at most once; cancel is always set before it is called |
| SharedReader.HeldReaderIsLive | lib/boost/piecedirectory/piecedirectory.go:747-805 | the reader a caller holds is open and not cancelled |
| SharedReader.HeldReaderIsAskedFor | lib/boost/piecedirectory/piecedirectory.go:747-805 | over every run the reader a caller holds is that of the piece it asked for, and reads that piece's data, whoever opened it |
| SharedReader.RefusedExactly | lib/boost/piecedirectory/piecedirectory.go:784-804 | a caller whose context has not ended is refused a reader only if the one for the piece it asked for could not be opened |
| SharedReader.EvictedAndReleased | lib/boost/piecedirectory/piecedirectory.go:112-128 | once evicted, called back and given up by every holder, a reader has been cancelled exactly once |
| SharedReader.NoDeadlock | lib/boost/piecedirectory/piecedirectory.go:729-805 | in every reachable state a caller waiting for a reader or giving one back can go on, or the caller it waits for can |
| SharedReader.CachedSectionReader.Close | lib/boost/piecedirectory/piecedirectory.go:729-745 | the critical section does what the protocol's release step does |
| SharedReader.CachedSectionReader.ExpireCallback | lib/boost/piecedirectory/piecedirectory.go:112-128 | the callback does what the protocol's expire step does |
| SingleFlight.StepKeeps | lib/boost/piecedirectory/piecedirectory.go:287-334 | every step of every caller keeps the protocol invariant |
| SingleFlight.SingleOwner | lib/boost/piecedirectory/piecedirectory.go:294-307 | at most one caller owns an operation for a piece |
| SingleFlight.Throttled | lib/boost/piecedirectory/piecedirectory.go:309-334 | callers in a place are as many as tokens held and never more than the throttle admits; a deferred delete always removes the owner's own entry |
| SingleFlight.WaiterGetsOwnersResult | lib/boost/piecedirectory/piecedirectory.go:296-304 | a caller released by done returns the error the owner returns |
| SingleFlight.AnswersAskedPiece | lib/boost/piecedirectory/piecedirectory.go:287-334 | a returned caller has the result of an operation on the piece it asked for; if it returned no error, the indexer ran on that piece without one |
| SingleFlight.GaveUpWithError | lib/boost/piecedirectory/piecedirectory.go:302-318 | a caller that returns without having owned its operation or seen it done returns its context's error |
| SingleFlight.DoneStaysFinal | lib/boost/piecedirectory/piecedirectory.go:287-334 | the result of an operation that is done never changes |
| SingleFlight.AllReturnedMeansEmpty | lib/boost/piecedirectory/piecedirectory.go:287-334 | when all callers have returned, the map and the throttle are empty |
| SingleFlight.NoDeadlock | lib/boost/piecedirectory/piecedirectory.go:287-334 | with at least one place no reachable state is stuck, even if no context ever ends |
| SingleFlight.NoPlaceNoProgress | lib/boost/piecedirectory/piecedirectory.go:309-316 | with no place, over any run an owner goes on waiting until its context ends and then returns that error |
| SingleFlight.RunsEnd | lib/boost/piecedirectory/piecedirectory.go:287-334 | a run of a fixed set of callers is no longer than six steps each |
| Segments.ValidateEntries | lib/boost/piecedirectory/piecedirectory.go:594-608 | the valid entries in order; an error exactly when some entry fails in an unknown way |
| Segments.ValidExactly | lib/boost/piecedirectory/piecedirectory.go:594-608 | the valid entries are exactly the good ones, each as often as it occurs, in order |
| Segments.ChunksTile | lib/boost/piecedirectory/piecedirectory.go:504-535 | chunks are non-empty, adjacent, and cover all entries |
| Segments.ValidateInParallel | lib/boost/piecedirectory/piecedirectory.go:504-553 | whatever the order in which the goroutines finish, the outcome is that of filtering the whole list in one go |
| Segments.ParsePiece | lib/boost/piecedirectory/piecedirectory.go:450-572 | every record of every valid segment, with its cid and size and its offset plus the segment's modulo 2^64, after the records of all earlier valid segments, and nothing else; or an error in exactly the stated cases |
| Segments.AllRecordsExactly | lib/boost/piecedirectory/piecedirectory.go:555-572 | the same for the loop over any list of segments |
| Segments.RecordsComeFromSegments | lib/boost/piecedirectory/piecedirectory.go:555-572 | a record is in the result exactly when it is a valid segment's record moved by the segment's offset |
| Doctor.Cycle | lib/boostd-data/ldb/db.go:404-478 | with a page of two or more, a scan of a fixed table returns to the start after floor(n/B)+1 calls, one more when n mod B is B-1, not before, and examines every key once in order |
| Doctor.BatchOfOneNeverReturns | lib/boostd-data/ldb/db.go:471-473 | with a page of one the scan stops at the end of a non-empty table |
| Doctor.TwoMinersExactly | lib/boostd-data/ldb/db.go:385-478 | two miners that take turns each come to see every piece of a fixed table exactly when a cycle has an odd number of calls |
| Doctor.TwoMinersSplitTheTable | lib/boostd-data/ldb/db.go:385-395 | a table just over one page is such that each is given the same page every time |
| Doctor.ScanMarks | lib/boostd-data/ldb/db.go:430-467 | only pieces of the miner without a recent mark are returned, and those are marked with the time of the scan |
| Doctor.ScanComplete | lib/boostd-data/ldb/db.go:430-467 | a piece of the miner on the page is returned, or had a recent mark before the scan |
| Doctor.ScanReturnsDue | lib/boostd-data/ldb/db.go:430-467 | a scan returns exactly the pieces on the page with a deal on the miner and no recent mark before the scan, each once, in page order |
| Doctor.ScanMarksReturned | lib/boostd-data/ldb/db.go:455-464 | the pieces returned are marked with the time of the scan and no other mark changes |
| Doctor.PageExactly | lib/boostd-data/ldb/db.go:408-413 | a page is the next keys of the table, as many as there are up to the page size, and a short page resets the position |
| Doctor.RateLimited | lib/boostd-data/ldb/db.go:404-478 | over any run with a monotone clock, tables changing and miners mixed, a piece is returned to a miner again only after the period |
| Doctor.Scanner.NextPiecesToCheck | lib/boostd-data/ldb/db.go:404-478 | returns exactly the due pieces of the next page, in order, marks those and no others, and moves the position |
| YugabyteEncode.TrimCollidesExactly | lib/boostd-data/yugabyte/encode.go:12-18 | two multihashes share a lookup key exactly when equal, or both have 24 bytes or more and end alike |
| YugabyteEncode.HeaderIsDropped | lib/boostd-data/yugabyte/encode.go:11-18 | with a digest of 24 bytes or more the key does not depend on the hash function's code |
| YugabyteBatches.Clamp | lib/boostd-data/yugabyte/service.go:79-91 | settings end up usable, with at least one worker, one goroutine and a batch of 1 to 50000, exactly when none given is negative; only zeros and batches too large are replaced |
| YugabyteBatches.Batches | lib/boostd-data/yugabyte/service.go:570-606 | batches concatenate to the goroutine's records in order; all are full but the last, which is not empty |
| YugabyteBatches.Groups | lib/boostd-data/yugabyte/service.go:552-568 | goroutines' records concatenate to all records in order; at most 2c-1 goroutines, one when there are fewer than c records |
| YugabyteInsert.Split | lib/boostd-data/yugabyte/service.go:626-685 | the work of one call is a split of its records, within the goroutine and batch limits |
| YugabyteInsert.StepKeeps | lib/boostd-data/yugabyte/service.go:496-541 | every row written, batch ended, failure and phase change of any concurrent call keeps the table invariant |
| YugabyteInsert.NeverMisses | lib/boostd-data/yugabyte/service.go:497-518 | at every step of any interleaving, failures included, a query finds every piece whose offset row is in place |
| YugabyteInsert.FoundExactly | lib/boostd-data/yugabyte/service.go:316-354 | with no call in progress or failed, a query finds nothing else exactly when no other piece has a multihash with the same key |
| YugabyteInsert.DoneMeansComplete | lib/boostd-data/yugabyte/service.go:520-541 | a call that ended well has both rows of each record in place and its piece marked as indexed, from then on |
| YugabyteProgress.IndexedMeansDone | lib/boostd-data/yugabyte/service.go:520-541 | a piece is marked as indexed only by a call for it that has ended well |
| YugabyteProgress.FailsOnlyWithCause | lib/boostd-data/yugabyte/service.go:496-541 | in a run in which no write and no marking fails, no call fails |
| YugabyteInsert.NothingMadeUp | lib/boostd-data/yugabyte/service.go:619-690 | the offset and size in a row are those of some call's record for that piece, or were there at the start |
| YugabyteProgress.NeverStuck | lib/boostd-data/yugabyte/service.go:552-615 | whatever other calls do, a call that has not returned can take a step in which nothing fails |
| WorkerPool.EachItemOnce | lib/boostd-data/yugabyte/piecedoctor.go:196-227 | at any time each item is queued, in one worker's hands, processed once, or lost to an error |
| WorkerPool.SuccessMeansAllExactly | lib/boostd-data/yugabyte/piecedoctor.go:196-227 | success means every item was processed exactly once, exactly when there was a worker or nothing to do |
| WorkerPool.NeverStuck | lib/boostd-data/yugabyte/piecedoctor.go:204-224 | a goroutine that has not returned can always go on |
| WorkerPool.RunsEnd | lib/boostd-data/yugabyte/piecedoctor.go:202-226 | no run is longer than one step more than its actions for each item and one for each worker |
| YugabyteRemove.OthersUntouched | lib/boostd-data/yugabyte/service.go:893-931 | no row of another piece ever changes, even when the removal fails |
| YugabyteRemove.MissedExactly | lib/boostd-data/yugabyte/service.go:914-925 | at every step a row in place is missed by a query exactly when it is of the piece being removed and the lookup row of a multihash with its key has been deleted |
| YugabyteRemove.BegunBetween | lib/boostd-data/yugabyte/service.go:900-926 | those multihashes are part of the stream, and include all that are processed or between their two deletes |
| YugabyteRemove.SuccessRemovesExactly | lib/boostd-data/yugabyte/service.go:893-931 | after success both tables are the old ones without the streamed offset rows and without the lookup rows of their keys, also when the stream ended with an error record |
| YugabyteRemove.AllRemovedExactly | lib/boostd-data/yugabyte/service.go:377-411 | after success no offset row of the piece is left exactly when none was left unscanned |
| YugabyteRemove.NothingLeftExactly | lib/boostd-data/yugabyte/service.go:893-931 | after success neither table has a row for the piece exactly when every row was scanned and every lookup row had the key of a scanned one |
| YugabyteRemove.NoWorkersNoRemoval | lib/boostd-data/yugabyte/service.go:900-926 | with no workers, as with a negative setting, the removal succeeds and removes nothing |
| YugabyteRemove.CoveredExactly | lib/boostd-data/yugabyte/service.go:914-925 | after success every offset row can be found exactly when no unscanned row shares its key with a scanned one |
| YugabyteRemove.AgreementKept | lib/boostd-data/yugabyte/service.go:877-936 | tables that agree before a successful removal agree after it under the same condition, so always when every row was scanned |
| SectorState.ComputeStates | lib/boost/sectorstatemgr/sectorstatemgr.go:176-200 | the loop over the storage list, in any order, computes each listed sector's state; both maps are the same |
| SectorState.ComputedUnique | lib/boost/sectorstatemgr/sectorstatemgr.go:179-198 | the states depend on the set of declarations alone, in whatever order the loops meet them |
| SectorState.StateIsMaximum | lib/boost/sectorstatemgr/sectorstatemgr.go:181-196 | a sector's state is the maximum, unsealed over sealed over cache, of its declarations |
| SectorState.Compare | lib/boost/sectorstatemgr/sectorstatemgr.go:208-228 | the diff over the rows in any order yields exactly the specified changes |
| SectorState.SectorStateDb.List | lib/boost/db/sectors.go:32-55 | every row once, in some order |
| SectorState.SectorStateDb.Update | lib/boost/db/sectors.go:57-62 | replaces the sector's row or adds one |
| SectorState.CheckForUpdates | lib/boost/sectorstatemgr/sectorstatemgr.go:136-157 | writes all updates, or, when something fails, as many of them as the database took, and nothing else |
| SectorState.RefreshedRow | lib/boost/sectorstatemgr/sectorstatemgr.go:206-228 | what a refresh leaves in each row |
| SectorState.Converges | lib/boost/sectorstatemgr/sectorstatemgr.go:136-157 | a refresh cut short by a database error is made up for by the next with the same storage list |
| SectorState.Fixpoint | lib/boost/sectorstatemgr/sectorstatemgr.go:206-228 | a second refresh of the same storage list changes nothing |
| SectorState.AgreesExactly | lib/boost/sectorstatemgr/sectorstatemgr.go:212-215 | a listed sector's row is its computed state exactly when that is not cache, or the row was cache or missing |
| SectorState.RunKeepsRows | lib/boost/sectorstatemgr/sectorstatemgr.go:107-134 | over any run, whatever the storage lists and failures, no row disappears and none goes from another state to cache |
| ConfigMigrate.ConfigDir.ConfigMigrate | lib/boost/node/config/migrate.go:41-78 | the whole operation has the specified outcome, whichever file operation fails and whatever an interrupted write leaves in its file |
| ConfigMigrate.ConfigDir.MigrateUp | lib/boost/node/config/migrate.go:80-122 | the loop over versions has the specified outcome, interrupted writes included |
| ConfigMigrate.ConfigDir.StepUp | lib/boost/node/config/migrate.go:84-118 | one version up, operation by operation |
| ConfigMigrate.ConfigDir.MigrateDown | lib/boost/node/config/migrate.go:125-143 | nothing for version 0; otherwise the symlink moves if the copy exists |
| ConfigMigrate.ConfigDir.MakeSymlink | lib/boost/node/config/migrate.go:145-160 | removes config.toml, then links it; a failure in between leaves it missing |
| ConfigMigrate.UpExactly | lib/boost/node/config/migrate.go:80-122 | migrating up works exactly when the scripts on the way exist and work and no operation fails; then every version has its copy and no other copy changed |
| ConfigMigrate.FailingScript | lib/boost/node/config/migrate.go:94-109 | when a script is missing or fails, config.toml holds the version reached, the copies up to there are made, and all others are as before |
| ConfigMigrate.NothingBeyondSix | lib/boost/node/config/migrate.go:22-29 | no migration to a version above 6 succeeds |
| ConfigMigrate.NothingToDo | lib/boost/node/config/migrate.go:58-77 | a configuration of the version asked for, or one that cannot be read, stays as it is |
| ConfigMigrate.DownExactly | lib/boost/node/config/migrate.go:125-143 | migrating down works exactly when the copy exists and no operation fails, and makes config.toml the link to it; a failure changes nothing, except exactly when the link could not be made after removing config.toml |
| ConfigMigrate.UpThenDown | lib/boost/node/config/migrate.go:80-160 | up from v to w, then down to any u from max(v, 1) to w-1, makes config.toml the content the migration had at u |
| ConfigMigrate.UpDownUp | lib/boost/node/config/migrate.go:80-160 | up, down and up again leaves everything as a single up does |
| ConfigMigrate.ResumeExactly | lib/boost/node/config/migrate.go:80-160 | after any number of interrupted attempts, a complete run gives the uninterrupted result, copies included and whatever torn writes left behind, if and only if no attempt stopped between removing config.toml and linking it or in a write to the file it is a link to |
| ConfigMigrate.ResumeByContent | lib/boost/node/config/migrate.go:80-122 | however it was interrupted, if config.toml exists and holds the content of the version it has come to, a complete run ends with the configuration an uninterrupted one ends with |
| ConfigMigrate.InterruptedLosesConfig | lib/boost/node/config/migrate.go:145-160 | some interruption does leave no config.toml, after which migrating fails |
| ConfigMigrate.EmptiedConfigIsMigrated | lib/boost/node/config/migrate.go:94-115 | some interruption leaves config.toml empty, after which migrating succeeds with the migration of an empty file |
| Reseal.StepKeeps | cmd/reseal.go:130-266 | every step of every goroutine keeps the throttle counts and each sector's place in the pipeline |
| Reseal.WithinLimits | cmd/reseal.go:117-125 | sectors in work, and sectors inside each stage, never exceed the limit, and are as many as the tokens held |
| Reseal.StagesInOrder | cmd/reseal.go:162-263 | a sector's stages are a prefix of AP, P1, P2, FIN ending at its seal type or its first error |
| Reseal.ErrorEndsSector | cmd/reseal.go:146-242 | after an error in its lookup or in a stage before the last a sector enters no further stage |
| Reseal.NoDeadlock | cmd/reseal.go:130-266 | with room for a sector, and for precommit 1 unless nobody wants it, no reachable state is stuck |
| Reseal.RunsEnd | cmd/reseal.go:130-266 | a measure decreases with every step: no run is longer than eleven steps a sector |
| Reseal.EmptyAtTheEnd | cmd/reseal.go:127-136 | when all goroutines are gone every throttle is empty |
| Reseal.CanComplete | cmd/reseal.go:130-266 | every run can be extended to one in which all sectors are gone, with no further failure |
| Reseal.CompletesExactly | cmd/reseal.go:114-125 | all sectors can be re-sealed as asked for exactly when the limits admit it |
| Reseal.StuckForever | cmd/reseal.go:192-197 | with no room for precommit 1 a sector waiting for it waits for ever |

## Left out

- JSON, CID and multihash parsing, path cleaning of datastore keys, metrics, tracing, logging, RPC, and the progress channel of AddIndex.
- LevelDb.Store.AddIndex: one step under the store's lock; a datastore failure half-way through an operation, which would break the two-way invariant, is not modelled. That a piece is indexed before its first deal is stored is a condition on runs, which neither the store nor the piece directory enforces.
- LevelDb.Store.AllocateMetadata: completeness is set for new metadata only, as the code does; updating it on re-indexing is not promised.
- LevelDb.Store.GetIndex: records keep the multihash; the codec of the content identifier, which the tables do not store, is not modelled.
- Directory.Isolation: piece lists are compared as sets; their order may change.
- MultiReader.MultiReaderAt.ReadAt: sizes and offsets are unbounded integers, not int64; parts obey the in-range read contract.
- CarLayout.Relayout: requires a header no longer than the payload and a payload inside the piece; what the program does with a malformed CARv2 header is not modelled.
- SharedReader.Safety: callers close a reader once; a caller that closes twice breaks the count.
- SingleFlight.StepKeeps: what indexing a piece does is any result; it is not connected to the LevelDB model.
- Segments.ParsePiece: reading the segment index and parsing a segment as a CAR file are parameters.
- Doctor.Cycle: for one table that does not change during the cycle.
- Listing flagged pieces, whose paging uses the scan's package variable instead of its argument, and the other flag operations.
- YugabyteBatches.Groups: for a concurrency of at least one; with a negative one the program fails or uses a single goroutine.
- YugabyteInsert.NeverMisses: insertions only; which rows are missed while a removal runs is stated by YugabyteRemove.MissedExactly, for a removal alone.
- YugabyteInsert.FoundExactly: assumes no failed call for the tables; progress reporting, which can exceed 1, is left out.
- YugabyteRemove.SuccessRemovesExactly: a scan that fails before the first row leaves the caller of GetIndex waiting until its context ends; that, and a producer left blocked after all workers failed, are not modelled.
- WorkerPool.EachItemOnce: an action either takes effect or fails; one that takes effect and still reports an error is not modelled.
- SectorState.CheckForUpdates: one row per sector in the database; update times, the active sector set and publishing are left out.
- ConfigMigrate.ConfigDir.ConfigMigrate: removing and linking are atomic; the bodies of the migration scripts, TOML and environment overrides are parameters, and negative versions are left out.
- ConfigMigrate.ResumeExactly: scripts are deterministic and produce the next version.
- Reseal.StepKeeps: the database lookup, two queries sharing an error variable between goroutines, is one step with any outcome; what the stages do to files, and addPiece accepting a wrong piece CID, are left out.
- The Yugabyte tracker of pieces to check, deals in the Yugabyte store, sector accessor caching, publish/subscribe, and the commands.
