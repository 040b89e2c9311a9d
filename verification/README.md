# Models of a parameter-server trainer

The system trains linear models and factorisation machines with workers and
servers that exchange messages. This project models the parts of it that carry
an invariant worth stating, and proves the invariants for all inputs, all runs
or all reachable states:

- **RecordIO and input splitting** (`RecordIO*.dfy`, `ChunkExtract.dfy`,
  `Split*.dfy`, `Text*.dfy`, `InputSplit.dfy`): a framing that escapes its own magic
  word, its three decoders (one of them in place), the byte ranges of the ranks, the
  chunk reader with its overflow buffer and its doubling loop, and text read line by
  line.
- **ThreadedIter** and **Executor** (`ThreadedIter*.dfy`, `Executor*.dfy`): the two concurrent protocols, as
  transition systems whose steps are the lock scopes; every claim is about
  every interleaving.
- **The push and pull path** (`OrderedMatch.dfy`, `Slice*.dfy`, `KVCache.dfy`,
  `PullPath.dfy`, `KVStore*.dfy`): slicing over servers, reassembly in any
  arrival order, the fork-join match, the bucketed store against one map.
- **Scheduling and topology** (`WorkloadPool.dfy`, `Tracker.dfy`,
  `TrackerStart.dfy`).
- **Learning maths over reals** (`SpMV.dfy`, `SpMM.dfy`, `FactorMachine.dfy`,
  `FactorGradient.dfy`, `Difacto*.dfy`, `Ftrl.dfy`, `Localizer*.dfy`).
- **Two filters** (`KeyCaching*.dfy`, `FixingFloat.dfy`).

`Bytes.dfy`, `Sequences.dfy`, `Arithmetic.dfy`, `Options.dfy` and `RowBlocks.dfy` hold what several modules share.

Conventions: an object whose methods update fields is a class; what the source
promises of a loop is a contract against a specification function, and the
theorems are about that function. Work that threads do on disjoint parts of one
output is done thread after thread, in any order. A failing `CHECK` or `assert`
of the original is an explicit outcome (a flag, `None`, an error value), or a
statement that it cannot fail. Where a choice of the original is not fixed
(iteration order of a hash table or set, a sort with ties, a random draw, a
short read, a clock), the model takes any value of it.

## What the proofs found

- RecordIO ranges tile the input for every number of ranks exactly when no file,
  past its first word, ends in a magic word or has one directly before a record
  head (`RecordIOTilesIff`); written files never do, a file with a doubled magic
  word does, and of five ranks two then read its last twelve bytes
  (`DoubledMagicOverlaps`).
- Of text files the ranks, however many, are given exactly the lines if and only if
  no file that lacks a line end at its end is followed by one that begins with text
  (`RanksCoverLinesIff`): reading goes on from file to file. The records come with a
  zero byte in the place of a line end, and a reader who stops there sees exactly the
  lines of the range if and only if the range has no zero byte of its own
  (`ReadLines`).
- A `ThreadedIter` with capacity 0 deadlocks (`ZeroCapacityDeadlocks`); with any
  other capacity no state is stuck (`NeverStuck`), and a call that waits returns
  after boundedly many steps without spurious wakeups (`CallReturns`).
- In every reachable state a pending callback can still start exactly when the
  engine is on an answer to its request or a live node owes one
  (`CallbackCanStartIff`, `NeverStartsLater`). So it never starts when every slice
  is empty (`AllEmptyNeverStarts`), nor when the last member that owed an answer is
  removed, although every live receiver has answered (`RemovedLastMember`). While
  the sender of the scanned message is unknown, which does happen
  (`SpinningReachable`), `PickActiveMsg` goes round in circles until that node is
  added (`SpinsUntilAdded`).
- Without further messages a received request is handled, in some continuation,
  exactly when its sender is not dead and the inbox has every request that it waits
  for, in turn, unless that was handled (`RequestHandledIff`); a request that waits
  for itself is therefore never handled by the messages at hand (`SelfWaits`).
- The slicer divides by zero exactly when a dynamic column with a length for
  every key has only zero lengths, and all columns before it fit
  (`MessageDivides`, `DividesIffAllZero`).
- The fork-join match ends exactly when the grain size is positive or nothing is
  left to match (`ForkJoinEndsIff`).
- `KVStoreSparse::Clear` empties the vector of buckets, not the buckets: the
  store fails exactly when a pull, or a push with keys, follows it
  (`RunBuckets`).
- A file registered with zero parts keeps the pool from finishing until it is
  registered again with a positive count, whatever is added, handed out, finished
  or lost meanwhile (`ServeAll`); then it can finish (`Reopened`).
- The key cache of a one-way link delivers every list exactly when signatures
  separate the lists of one length (`FaithfulIffSeparates`); from 4096 bytes on
  lists that differ only between their ends are not told apart
  (`MiddleIsNotHashed`). A connection uses one cache for both directions. If
  packets are decoded in the order of sending, it is faithful exactly when
  signatures are injective on the lists of 64 bytes or more and nothing clears
  such a list (`FaithfulListsIff`). But a packet is decoded when it is picked, and
  picking skips requests whose awaited times are not finished: if packets may be
  decoded in any order, the connection is faithful exactly when nothing is ever
  kept (`FaithfulAnyOrderIff`, with a failing run of one list in `SkippedFails`).
- The factorisation-machine trainer keeps lists on counts and pulls and clears them
  on pushes. With decoding in order and injective signatures that is faithful as
  long as no list is pushed while a pull of it is unanswered (`PatientIff`), and
  without this rule it is not (`ImpatientIff`): such a worker can abort, namely when
  an answer that is under way meets the cleared cache (`CallersRunFails`).
- `SpMV::Times` leaves the rows without entries as they were (`SpMV.Times`);
  `Evaluate` stays exact because those entries of `py_` are zero until the
  gradient overwrites them. `Evaluate` divides by zero exactly for a minibatch
  without rows that has an embedded column, and sets nothing exactly when there
  are no columns (`Loss.Evaluate`). `SpMM::TransTimes` divides by zero exactly when
  a non-empty x has fewer numbers than D has rows, or D has none
  (`SpMM.TransTimes`).
- `CountUniqIndex` reads a missing pair exactly on a block with rows but no
  entries.
- `RemapIndex` of a block without values leaves those that the container had; if it
  had any, it does not hold the localized block then (`Localizer.RemapIndex`).
- The fixed-point filter shifts an `int` out of its range exactly with four to
  seven bytes, which its checks admit (`FixingFloat.Exchange`); codes and error
  bound would be right for those widths too (`RoundTripIsClose`). With fewer bytes
  it fails a check exactly when the ends of the interval, stored in 32 bits, do not
  differ in order: an array of one value v does when v and v + 1e-6 are stored alike
  (`ConstantInterval`).
- The documentation of `penalty.h` has lambda2 times the squared norm, the code
  minimises half of that: `Solve` minimises what is documented exactly when lambda2
  is zero or its argument is within the threshold (`DocumentedIff`).

## Model

| member | source | states |
|---|---|---|
| `RecordIO.EscapeMagic` | dmlc-core/src/recordio.cc:11-51 | in a written record an aligned word is the magic word exactly when it starts a part, and the length word after it carries the part's flag |
| `RecordIO.HeadIffRecordStart` | dmlc-core/src/recordio.cc:85-99 | in any concatenation of written records the readers' test for a record head holds exactly at the record starts |
| `RecordIO.EncodeLRec` | dmlc-core/include/dmlc/recordio.h:41-70 | a length word decodes to its flag and length, and with the flags in use it is never the magic word |
| `RecordIO.EncodeAllConcat` | dmlc-core/src/recordio.cc:11-51 | writing two record sequences one after the other is writing their concatenation |
| `RecordIOStream.RecordIOWriter.WriteRecord` | dmlc-core/src/recordio.cc:11-51 | appends exactly the escaped record to the stream and counts the escapes; a record of 2^29 bytes or more is refused |
| `RecordIOStream.RecordIOReader.NextRecord` | dmlc-core/src/recordio.cc:53-82 | the loop computes the pure reader: record, end of stream or invalid file |
| `RecordIOStream.ReadUndoesEscape` | dmlc-core/src/recordio.cc:53-82 | reading the parts of a record gives the record back, magic words included, and stops right after it |
| `RecordIOStream.RoundTrip` | dmlc-core/src/recordio.cc:11-82 | any sequence of records reads back unchanged |
| `RecordIOCuts.NextHeadIsCut` | dmlc-core/src/recordio.cc:85-99 | from any aligned offset of written records, the search for the next head stops at the next record start, or at the end |
| `RecordIOChunk.FindNextRecordIOHead` | dmlc-core/src/recordio.cc:85-99 | returns the first head at or after the start, or the end |
| `RecordIOChunk.DecodersUndoEncode` | dmlc-core/src/recordio.cc:114-156 | both chunk decoders return the record that was written and the position behind it |
| `RecordIOChunk.RecordIOChunkReader.NextRecord` | dmlc-core/src/recordio.cc:114-156 | the loop computes the pure decode of the chunk, or reports the failed check |
| `RecordIOChunk.ReadChunkPart` | dmlc-core/src/recordio.cc:101-156 | part i of n of a chunk of written records yields exactly the records that start in its range |
| `RecordIOChunk.PartsCoverChunk` | dmlc-core/src/recordio.cc:101-112 | the parts 0 to n-1 together yield every record once and in order, for every n |
| `RecordIOChunk.PartShare` | dmlc-core/src/recordio.cc:101-112 | the parts of a chunk are even, up to the alignment |
| `ChunkExtract.Chunk.ExtractNextRecord` | dmlc-core/src/io/recordio_split.cc:44-82 | the in-place decode equals the pure decode of the original bytes; the bytes behind the record are untouched |
| `ChunkExtract.Chunk.Rejoin` | dmlc-core/src/io/recordio_split.cc:60-81 | the part loop joins the payloads around magic words; the write position never overtakes unread input |
| `SplitRanges.Nominal` | dmlc-core/src/io/input_split_base.cc:23-28 | the nominal begin of a rank is aligned and within the input |
| `SplitRanges.TextTiles` | dmlc-core/src/io/line_split.cc:9-26 | for text the ranges of all ranks follow each other and cover the input, for every number of ranks |
| `SplitText.SeekTextIsNextLine` | dmlc-core/src/io/line_split.cc:9-26 | from any place inside a text file seeking goes to the first byte of the next line, said of the byte values, or to the end of the file |
| `SplitText.TextPoint` | dmlc-core/src/io/input_split_base.cc:23-52 | the begin of every rank is its nominal begin, unmoved on a file boundary and otherwise moved to the next line of its file |
| `SplitText.NoLineIsCut` | dmlc-core/src/io/input_split_base.cc:23-52 | a rank that begins or ends inside a text file does so at the first byte of a line |
| `SplitText.NominalShare` | dmlc-core/src/io/input_split_base.cc:23-28 | nominal ranges are even: each has its share of the bytes, up to the alignment |
| `SplitRanges.OrderedTiles` | dmlc-core/src/io/input_split_base.cc:23-52 | ranges tile whenever seeking is defined and monotone within each file |
| `SplitRanges.TilesJoin` | dmlc-core/src/io/input_split_base.cc:8-52 | tiling ranges concatenate to the input, byte for byte |
| `SplitRecords.RecordIOTilesIff` | dmlc-core/src/io/recordio_split.cc:9-25 | RecordIO ranges tile for every number of ranks if and only if no file, past its first word, ends in a magic word or has one directly before a record head |
| `SplitRecords.DoubledMagicOverlaps` | dmlc-core/src/io/recordio_split.cc:9-25 | a concrete 20-byte file for which, of five ranks, rank 0 reads to byte 20 and rank 2 starts at byte 8, so the ranges do not tile |
| `SplitRecords.WrittenClean` | dmlc-core/src/recordio.cc:11-51 | written files meet that condition |
| `SplitRecords.WrittenTiles` | dmlc-core/src/io/recordio_split.cc:9-25 | written files tile for every number of ranks |
| `SplitRecords.RankBytesAreRecords` | dmlc-core/src/io/input_split_base.cc:8-52 | the bytes of a rank are the encoding of whole records |
| `SplitRecords.RanksCoverRecords` | dmlc-core/src/io/input_split_base.cc:8-52 | rank after rank, every record is handed out once and in order |
| `InputSplit.SeekTextBegin` | dmlc-core/src/io/line_split.cc:9-26 | the two scanning loops stop at the first byte of the next line, or at the end of the file |
| `InputSplit.SeekRecordIOBegin` | dmlc-core/src/io/recordio_split.cc:9-25 | the scan computes the specified seek, including the failed check |
| `InputSplit.FindLastRecordBegin` | dmlc-core/src/io/recordio_split.cc:26-42 | the last record begin of a full buffer, for both formats: nothing after it begins a record |
| `InputSplit.Split.Init` | dmlc-core/src/io/input_split_base.cc:8-52 | the range of the rank is the specified one, or a check failed |
| `InputSplit.Split.BeforeFirst` | dmlc-core/src/io/input_split_base.cc:54-70 | the whole range lies ahead again |
| `InputSplit.Split.Read` | dmlc-core/src/io/input_split_base.cc:104-136 | the next bytes of the range across files and short reads; the offset check never fails |
| `InputSplit.Split.ReadChunk` | dmlc-core/src/io/input_split_base.cc:138-166 | chunk plus what remains is what remained before; the cut is at a record begin; an empty chunk means the buffer is too small |
| `SplitRun.Load` | dmlc-core/src/io/input_split_base.cc:168-187 | the doubling loop ends; the chunk is a non-empty front of what remained and leaves the tail word of the buffer free, or the range is exhausted |
| `SplitRun.ReadChunks` | dmlc-core/src/io/input_split_base.cc:168-187 | for both formats and every buffer size the chunks of a rank concatenate to its range; of a text no line runs over from one chunk to the next |
| `TextLines.LineAt` | dmlc-core/src/io/line_split.cc:36-45 | the lines of a text, place by place: where one begins, the line of that number is the bytes up to the next line end |
| `TextLines.LinesCounted` | dmlc-core/src/io/line_split.cc:36-45 | there are as many lines as places where one begins |
| `TextLines.LinesJoined` | dmlc-core/src/io/line_split.cc:27-34 | the lines of two texts are those of the joined text when no line runs over the joint; otherwise there is one more |
| `TextLines.FilesJoined` | dmlc-core/src/io/input_split_base.cc:104-136 | reading on from file to file gives the lines of the files if and only if none runs over a joint |
| `TextLines.RanksCoverLinesIff` | dmlc-core/src/io/input_split_base.cc:8-136 | whatever the number of ranks, their ranges have the lines of the files, each once and in order, if and only if no line runs from one file into the next |
| `TextRecords.ExtractNextRecord` | dmlc-core/src/io/line_split.cc:36-55 | the record is a line with all its line ends, the string end overwrites its last byte or the byte behind the window, and what is still to be read is left alone |
| `TextRecords.NextRecord` | dmlc-core/src/io/input_split_base.h:47-52 | takes one record off the bytes and lines ahead, over any number of chunk loads |
| `TextRecords.ReadLines` | dmlc-core/src/io/line_split.cc:9-55 | for every rank count and buffer size the records join to the range, with zero bytes for line ends, and show exactly its lines in order if and only if the range has no zero byte |
| `SplitRun.NextRecord` | dmlc-core/src/io/recordio_split.cc:44-82 | the next record of the rank, over any number of chunk loads |
| `SplitRun.ReadRecords` | dmlc-core/src/io/input_split_base.cc:8-187 | on written files a rank extracts exactly its records, in order, for every rank count and buffer size |
| `ThreadedIter.StepKeepsInv` | dmlc-core/include/dmlc/threadediter.h:283-393 | every atomic step of producer and consumer keeps the invariant |
| `ThreadedIter.RunKeepsInv` | dmlc-core/include/dmlc/threadediter.h:283-393 | the invariant holds in every state of every interleaving |
| `ThreadedIter.DeliveredInOrder` | dmlc-core/include/dmlc/threadediter.h:307-381 | counting on the consumer side: whenever it is not in BeforeFirst the source was reset once for every call, and the items that Next returned since the last call are the first items of that pass, all of them when Next can only return false |
| `ThreadedIter.NextReturns` | dmlc-core/include/dmlc/threadediter.h:358-381 | a call of Next that ends returns the next item of the pass the consumer asked for, or false exactly when there is none |
| `ThreadedIter.ResetStartsOver` | dmlc-core/include/dmlc/threadediter.h:307-328 | when BeforeFirst has returned the source is in a new pass, of which nothing was returned yet |
| `ThreadedIter.CellsBounded` | dmlc-core/include/dmlc/threadediter.h:290-353 | every cell has exactly one owner; at most capacity plus the most the consumer ever held exist |
| `ThreadedIter.ChecksHold` | dmlc-core/include/dmlc/threadediter.h:167-190 | the checks of Next and BeforeFirst never fail when their calls do not overlap |
| `ThreadedIter.NeverStuck` | dmlc-core/include/dmlc/threadediter.h:283-393 | with positive capacity some thread can always go on without a spurious wakeup: no deadlock, no lost wakeup |
| `ThreadedIterProgress.RankFalls` | dmlc-core/include/dmlc/threadediter.h:283-393 | while the consumer stays in one call of Next or BeforeFirst, every step that a thread takes by itself lowers the rank |
| `ThreadedIterProgress.CallReturns` | dmlc-core/include/dmlc/threadediter.h:283-393 | in every run such a call lasts at most as many of those steps as its rank, and with positive capacity one is always possible |
| `ThreadedIter.ZeroCapacityDeadlocks` | dmlc-core/include/dmlc/threadediter.h:297-305 | with capacity 0 a reachable state is stuck |
| `Executor.RequestKept` | ps-lite/src/system/executor.cc:103-275 | every step keeps the request invariant |
| `Executor.CallbackKept` | ps-lite/src/system/executor.cc:276-315 | every step keeps the callback invariant |
| `Executor.RunKeeps` | ps-lite/src/system/executor.cc:103-315 | both invariants hold in every state of every run |
| `Executor.RequestsOnceAndInOrder` | ps-lite/src/system/executor.cc:187-275 | a request (sender, time) is handled at most once, and after every time of that sender it waits for |
| `ExecutorRequests.ScanExact` | ps-lite/src/system/executor.cc:191-247 | in every run an iteration picks the message it is at if and only if its sender is alive, it is not finished and everything it waits for was handled; passes it over if and only if something was not; and throws it away otherwise, all by the history |
| `ExecutorRequests.PassPicksFirst` | ps-lite/src/system/executor.cc:187-257 | a pass over messages of known senders picks the first eligible one, and none if there is none |
| `ExecutorHandling.RequestHandledIff` | ps-lite/src/system/executor.cc:187-275 | in every reachable state a request is handled in some continuation without a further message if and only if it was handled, the engine is at it, or its sender is not dead and the inbox has it together with every request it waits for, in turn |
| `ExecutorHandling.SelfWaits` | ps-lite/src/system/executor.cc:226-236 | a request whose every copy in the inbox waits for its own time is out of reach of the messages at hand |
| `ExecutorHandling.EligibleMayHandle` | ps-lite/src/system/executor.cc:223-246 | in particular a request of a live node that waits for nothing unhandled |
| `Executor.CallbacksOnceAndComplete` | ps-lite/src/system/executor.cc:276-315 | a callback starts at most once, and only when every live receiver had replied or had an empty slice |
| `ExecutorCallbacks.RecordFrozen` | ps-lite/src/system/executor.cc:276-315 | the receivers recorded when a callback starts are never replaced |
| `ExecutorCallbacks.CallbackWasSent` | ps-lite/src/system/executor.cc:276-315 | in every run a callback that has started belongs to a request of which some node was sent a slice |
| `ExecutorCallbacks.NeverStartsLater` | ps-lite/src/system/executor.cc:276-315 | from a state in which no live node owes an answer and the engine is not busy with one, the callback does not start in any later state |
| `ExecutorProgress.CallbackCanStartIff` | ps-lite/src/system/executor.cc:187-315 | in every reachable state a pending callback can start in some continuation if and only if the engine is on an answer to its request or a live node owes one |
| `ExecutorCallbacks.AllEmptyNeverStarts` | ps-lite/src/system/executor.cc:124-165 | when every slice of a request is empty its callback never starts |
| `ExecutorCallbacks.RemovedLastMember` | ps-lite/src/system/executor.cc:276-342 | a reachable state in which every live receiver has answered and the callback never can start: the member that owed the last answer was removed |
| `ExecutorCallbacks.SpinsUntilAdded` | ps-lite/src/system/executor.cc:187-257 | while the sender of the scanned message is unknown, nothing is received, picked, handled or called back before that node is added |
| `ExecutorCallbacks.SpinningReachable` | ps-lite/src/system/executor.cc:187-203 | a run that reaches such a state |
| `OrderedMatch.MergeWalk` | ps-lite/src/base/parallel_ordered_match.h:20-34 | the leaf loop merges exactly the common keys of its stretch and counts k per key |
| `OrderedMatch.ForkJoin` | ps-lite/src/base/parallel_ordered_match.h:8-48 | whenever the recursion ends, it applies the operator once to exactly the entries with a source key and counts k per common key |
| `OrderedMatch.ForkJoinEndsIff` | ps-lite/src/base/parallel_ordered_match.h:8-48 | the recursion has finite depth if and only if the grain size is positive or no destination key is left at or below the last source key |
| `OrderedMatch.Match` | ps-lite/src/base/parallel_ordered_match.h:57-84 | the whole destination is merged, all other entries are unchanged, and the result is k times the number of common keys |
| `SliceMessage.Positions` | ps-lite/src/system/message.h:130-146 | the cut positions are those of the projected server boundaries |
| `SliceMessage.Slice` | ps-lite/src/system/message.h:107-185 | the outcome for every message with ordered keys, repeats included: pieces, a failed check or a division by zero, each under an exact condition; the pieces are the specified ones for fixed and dynamic columns, and a message without keys is always accepted |
| `SliceProperties.OwnerOfKey` | ps-lite/src/system/message.h:126-146 | a key falls into the piece of a server exactly when the server owns it |
| `SliceProperties.SentIffOwnsKey` | ps-lite/src/system/message.h:115-146 | a piece is sent exactly when its server owns some key |
| `SliceProperties.PiecesRejoin` | ps-lite/src/system/message.h:107-185 | the sent pieces rejoin to the message: keys, data, lengths |
| `SliceProperties.KeyKeepsItsValues` | ps-lite/src/system/message.h:148-184 | in its piece each key finds exactly its own values |
| `SliceProperties.DividesIffAllZero` | ps-lite/src/system/message.h:148-160 | with all keys at some server, a dynamic column makes the slicer divide by zero if and only if it has a length for every key and all are zero |
| `SliceProperties.MessageDivides` | ps-lite/src/system/message.h:148-184 | slicing divides by zero if and only if some column does before which all columns fit |
| `KVCache.FixedPull.ProcessResponse` | ps-lite/src/kv/kv_cache.h:114-133 | one response is merged at its keys; nothing else changes; the count check holds when its keys were asked for |
| `KVCache.ReceiveFixed` | ps-lite/src/kv/kv_cache.h:70-134 | every arrival order of the responses gives the same key-ordered values |
| `KVCache.DynamicPull.ProcessResponse` | ps-lite/src/kv/kv_cache.h:79-113 | one response: sizes merged, block kept, complete when all keys matched, then the blocks in key order |
| `KVCache.ReceiveDynamic` | ps-lite/src/kv/kv_cache.h:70-134 | every arrival order gives the values of all keys in key order and their sizes, exactly with the last response |
| `KVCache.SortedUnique` | ps-lite/src/kv/kv_cache.h:95-98 | the sort by first key has one possible result |
| `KVCache.AnyOrder` | ps-lite/src/kv/kv_cache.h:79-93 | counting and collecting do not depend on the order of arrival |
| `PullPath.SlicesArePieces` | ps-lite/src/kv/kv_cache.h:65-68 | the slices that are sent are what the reassembly asks for |
| `PullPath.PullDynamic` | ps-lite/src/kv/kv_cache.h:65-113 | slicing, answering and receiving in any order yields the values and sizes of all keys in key order; it fails exactly when server ranges do not touch |
| `PullPath.PullFixed` | ps-lite/src/kv/kv_cache.h:65-134 | the same with a fixed number of values per key |
| `KVStore.SingleStore.HandlePush` | ps-lite/src/kv/kv_store_sparse_st.h:95-106 | the map after pushing the positions in order |
| `KVStore.SingleStore.HandlePull` | ps-lite/src/kv/kv_store_sparse_st.h:51-63 | the answers of all keys one after the other; missing entries are created |
| `KVStore.SingleStore.HandlePullDynamic` | ps-lite/src/kv/kv_store_sparse_st.h:27-50 | the growing buffer ends as the concatenated answers with their sizes |
| `KVStore.PushedLocal` | ps-lite/src/kv/kv_store_sparse.h:185-192 | pushing only the stretch that holds a key has the same effect on that key as pushing everything |
| `KVStoreBuckets.BucketInRange` | ps-lite/src/kv/kv_store_sparse.h:10-19 | the division of GetValue names an existing bucket for every key of the range |
| `KVStoreBuckets.BucketSizeLeast` | ps-lite/src/kv/kv_store_sparse.h:16-16 | the bucket width is the least with which the buckets cover the key range |
| `KVStoreBuckets.BucketStore.SliceKey` | ps-lite/src/kv/kv_store_sparse.h:171-179 | the slice positions agree with the division used by GetValue |
| `KVStoreBuckets.BucketStore.ThreadPush` | ps-lite/src/kv/kv_store_sparse.h:185-192 | one thread changes its bucket only, by its stretch |
| `KVStoreBuckets.BucketStore.ThreadPull` | ps-lite/src/kv/kv_store_sparse.h:194-206 | one thread answers its stretch and leaves the other answers alone |
| `KVStoreBuckets.BucketStore.HandlePush` | ps-lite/src/kv/kv_store_sparse.h:102-115 | for any order of the threads the buckets represent the map after the same push; it fails exactly when there are keys and the buckets were cleared |
| `KVStoreBuckets.BucketStore.HandlePull` | ps-lite/src/kv/kv_store_sparse.h:59-70 | the answers are those of the represented map, which is kept; it fails exactly when the buckets were cleared |
| `KVStoreRun.RunBuckets` | ps-lite/src/kv/kv_store_sparse.h:23-119 | any sequence of pushes, pulls and clears with sorted keys of the range fails if and only if an operation after a clear reads a bucket, and otherwise gets the replies of a map |
| `KVStoreRun.RunSingle` | ps-lite/src/kv/kv_store_sparse_st.h:20-110 | the single-map store gives the replies of a map for every such sequence |
| `KVStoreHistory.RepliesAreHistory` | ps-lite/src/kv/kv_store_sparse_st.h:20-110 | the replies of a map, said without it: a pull answers every key from the values pushed for that key, one after the other, since the last clear |
| `KVStoreHistory.PullSeesPush` | ps-lite/src/kv/kv_store_sparse_st.h:51-106 | from any table, a pulled key answers from its own values of the last push and the entry it had before |
| `KVStoreHistory.PullSeesBoth` | ps-lite/src/kv/kv_store_sparse_st.h:51-106 | two pushes in a row: the second works on what the first left |
| `KVStoreHistory.RunSeesPush` | ps-lite/src/kv/kv_store_sparse_st.h:51-106 | the replies of a run that pushes and then pulls one pushed key, from any table |
| `KVStoreHistory.RunSeesBoth` | ps-lite/src/kv/kv_store_sparse_st.h:51-106 | the replies of a run that pushes twice and then pulls a key of both, from any table |
| `KVStoreHistory.OthersStay` | ps-lite/src/kv/kv_store_sparse_st.h:51-106 | keys that an operation does not name stay as they were; a pull changes no entry and creates the missing ones |
| `WorkloadPool.WorkloadPool.Add` | src/base/workload_pool.h:49-62 | succeeds exactly when registered files keep their part count; then all files are registered, and only new ones are opened |
| `WorkloadPool.WorkloadPool.GetOne` | src/base/workload_pool.h:135-174 | gives the node the part picked among all parts open to it, first or at random, or nothing if there is none |
| `WorkloadPool.OpeningsExact` | src/base/workload_pool.h:135-174 | the openings walked are exactly the available parts of the files the node may have, each once |
| `WorkloadPool.WorkloadPool.Mark` | src/base/workload_pool.h:200-213 | track, counters and the removal of a finished file |
| `WorkloadPool.WorkloadPool.Set` | src/base/workload_pool.h:106-133 | finishing or losing a node: no job of it remains, every other job stays in its order, one event for each job that left names the node and the outcome, and when they were finished the time each took is recorded |
| `WorkloadPool.WorkloadPool.RemoveStraggler` | src/base/workload_pool.h:176-197 | with ten times on record, exactly the jobs that took more than five seconds and more than twice the mean leave, the others stay in order |
| `WorkloadPool.WorkloadPool.IsFinished` | src/base/workload_pool.h:91-94 | true exactly when something was added, every part is done and no file has zero parts |
| `WorkloadPool.WorkloadPool.Serve` | src/base/workload_pool.h:49-62 | no call but a registration with a positive count removes a file without parts from the table |
| `WorkloadPool.WorkloadPool.ServeAll` | src/base/workload_pool.h:49-94 | after any sequence of calls the pool is not finished while such a file was not registered again with a positive count |
| `WorkloadPool.WorkloadPool.Reopened` | src/base/workload_pool.h:49-94 | registered again with one part, handed out and finished, such a file lets the pool finish |
| `WorkloadPool.NothingLost` | src/base/workload_pool.h:106-213 | in every reachable state a part is open to its nodes, held in exactly one entry, or done |
| `WorkloadPool.DoneWasHeld` | src/base/workload_pool.h:106-133 | a done part was finished by a node that was given it and kept it until then |
| `WorkloadPool.CountedOnce` | src/base/workload_pool.h:200-213 | while no file is registered twice, the finished counter is the number of done parts |
| `Tracker.NeighborLinks` | dmlc-core/tracker/tracker.py:155-164 | the neighbour list holds the parent and the children, each once |
| `Tracker.GetTree` | dmlc-core/tracker/tracker.py:166-172 | the maps of the heap tree |
| `Tracker.FindShareRing` | dmlc-core/tracker/tracker.py:174-191 | ends, and lists every node of the subtree once, starting at its root and ending with a child of it, for any set order |
| `Tracker.GetRing` | dmlc-core/tracker/tracker.py:193-206 | both asserts hold; every rank is on the ring between its list neighbours |
| `Tracker.Renumber` | dmlc-core/tracker/tracker.py:215-219 | following the ring numbers every rank by its place |
| `Tracker.GetLinkMap` | dmlc-core/tracker/tracker.py:208-233 | the ring neighbours of i are i-1 and i+1 mod n; tree and parents are the heap tree's under the renumbering, rank 0 fixed |
| `Tracker.RingInOrder` | dmlc-core/tracker/tracker.py:208-225 | on the ring rank i stands between i-1 and i+1, and the last rank before the first |
| `Tracker.ClosesOverTree` | dmlc-core/tracker/tracker.py:174-233 | the ring closes over a link of the tree: the last rank is a child of rank 0 |
| `Tracker.ShallowTree` | dmlc-core/tracker/tracker.py:155-172 | from rank v the root is d steps up with 2^d at most v + 1 |
| `Tracker.TreeSymmetric` | dmlc-core/tracker/tracker.py:208-233 | a rank lists another exactly when the other lists it |
| `Tracker.LeadsToRoot` | dmlc-core/tracker/tracker.py:208-233 | only rank 0 has no parent; every other parent is a neighbour, and parents lead to rank 0 |
| `TrackerStart.LinkMapSymmetric` | dmlc-core/tracker/tracker.py:69-92 | tree and ring links together are symmetric and free of loops |
| `TrackerStart.WaitingNeighbour` | dmlc-core/tracker/tracker.py:100-104 | the neighbours in wait_conn are exactly those that have started |
| `TrackerStart.RabitTracker.Accept` | dmlc-core/tracker/tracker.py:115-122 | one connection less to wait for, and the ranks that wait no more leave |
| `TrackerStart.RabitTracker.AssignRank` | dmlc-core/tracker/tracker.py:69-124 | each started rank's wait_accept is the number of its neighbours not yet started, it is in wait_conn while that is positive, and each link is announced once |
| `TrackerStart.RabitTracker.StartAll` | dmlc-core/tracker/tracker.py:279-301 | after all ranks, in any order, wait_conn is empty and every link was announced exactly once |
| `RowBlocks.OnesUnlessGiven` | dmlc-core/include/dmlc/data.h:94-120 | a block without values has the products of one whose values are all one |
| `RowBlocks.OneValue` | dmlc-core/include/dmlc/data.h:94-120 | a value counts for its own entry, times the weight of the column, and for no other |
| `RowBlocks.NoValue` | dmlc-core/include/dmlc/data.h:94-120 | with all values zero the product is zero |
| `SpMV.SegmentsTile` | src/base/spmv.h:19-30 | the segments of all parts follow each other from begin to end |
| `SpMV.SegmentEven` | src/base/spmv.h:15-29 | the segments are even: each has its share of the range, rounded down, or one more |
| `SpMV.OneOwner` | src/base/spmv.h:19-38 | every index is in the segment of exactly one part |
| `SpMV.Times` | src/base/spmv.h:70-91 | y = D x for every thread count and order; rows without entries keep their old value |
| `SpMV.TransTimes` | src/base/spmv.h:93-119 | y = D' x for every thread count and order, whatever y held |
| `SpMM.MixAt` | src/base/spmm.h:54-81 | column by column the matrix product is the vector product |
| `SpMM.Times` | src/base/spmm.h:21-81 | y = D x, empty rows zero, with as many columns as the size of y divided by the rows; an empty x leaves y alone; the division fails exactly without rows |
| `SpMM.TransTimes` | src/base/spmm.h:32-123 | y = D' x + p z, where z counts only with the right shape and p not zero; an empty x leaves y alone; one of the two divisions fails exactly when x is not empty and D has no rows or more rows than x has numbers |
| `FactorMachine.ExcessIsPairs` | src/difacto/loss.h:44-52 | half of (XV)^2 - (X.*X)(V.*V) is the sum over entry pairs a < b of x_a x_b <v_a, v_b> |
| `FactorGradient.WeightGradient` | src/difacto/loss.h:96-113 | X'p is the exact coefficient of a weight in the p-weighted score sum |
| `FactorGradient.FactorGradientExact` | src/difacto/loss.h:96-144 | moving a factor by d changes the p-weighted pair sum by d times the gradient plus d^2 times a number without V |
| `DifactoData.LoadW` | src/difacto/loss.h:191-202 | the weight of every column and the place of its gradient |
| `DifactoData.LoadColumns` | src/difacto/loss.h:203-218 | the embedded columns, in order, with their factors, places and numbers |
| `DifactoData.PickColumns` | src/difacto/loss.h:221-242 | the sub-matrix keeps exactly the entries in embedded columns, row by row and in order |
| `DifactoData.PairsPicked` | src/difacto/loss.h:221-242 | the pairs of the sub-matrix are the pairs of the batch with both columns embedded |
| `DifactoRun.Loss.Evaluate` | src/difacto/loss.h:53-92 | every row gets X w plus the sum over its pairs of embedded entries, for every thread count, also when evaluated twice; without columns nothing is set, and a batch without rows but with an embedded column divides by zero, each exactly then |
| `DifactoLoss.FactorGradients` | src/difacto/loss.h:115-144 | the in-place steps turn V into X' diag(p) X V - diag((X.*X)'p) V |
| `DifactoLoss.SaveV` | src/difacto/loss.h:256-265 | every row stands at its place, all other places are unchanged |
| `DifactoRun.Loss.CalcGrad` | src/difacto/loss.h:102-158 | the residuals of the scores, and the gradients of w and V each at its place in the model |
| `DifactoLogistic.ResidualIs` | src/difacto/loss.h:106-109 | the residual is the estimated probability of a positive label, less one if the label is positive: negative then, positive otherwise |
| `DifactoLogistic.SupportingLine` | src/difacto/loss.h:96-109 | the residual is the slope of the logistic loss log(1 + exp(-y s)), which lies above each of its tangents |
| `DifactoGradient.WeightGradientOfModel` | src/difacto/loss.h:96-158 | moving a weight of the model changes the weighted score sum by the move times the saved gradient |
| `DifactoGradient.FactorGradientOfModel` | src/difacto/loss.h:96-158 | moving a factor of the model does so up to d^2 times a number without V |
| `DifactoLogistic.WeightGradientOfLoss` | src/difacto/loss.h:96-158 | moving a weight by any d, the logistic loss of the batch is at least the old loss plus d times the saved gradient |
| `DifactoLogistic.FactorGradientOfLoss` | src/difacto/loss.h:96-158 | the same of a factor, up to d^2 times a number without V |
| `Ftrl.SolveMinimises` | src/linear/penalty.h:22-41 | soft thresholding minimises the proximal objective, with the gap of strong convexity |
| `Ftrl.Minimises` | src/linear/async_sgd.h:174-191 | after any gradients the weight minimises sum g w + 1/2 sum sigma (w - w_s)^2 + lambda1 abs(w) + 1/2 (lambda2 + beta/alpha) w^2, with a quadratic gap |
| `Ftrl.UniqueMinimiser` | src/linear/async_sgd.h:174-191 | no other weight does as well |
| `Ftrl.DocumentedIff` | src/linear/penalty.h:6-41 | Solve minimises the documented objective, with lambda2 times the squared norm, if and only if lambda2 is zero or z is within the threshold |
| `Ftrl.NormOfGradients` | src/linear/async_sgd.h:176-180 | sq_cum_grad is the norm of the gradients |
| `Ftrl.FtrlServer.Push` | src/linear/async_sgd.h:176-191 | every entry is what its own gradients lead to; the sparsity counter follows |
| `Ftrl.FtrlServer.Finish` | src/linear/async_sgd.h:26-41 | reported plus pending changes are always the number of non-zero weights |
| `LocalizerKeys.ReverseTwice` | src/base/localizer.h:19-31 | scattering an id twice gives it back |
| `LocalizerKeys.ReverseInjective` | src/base/localizer.h:19-31 | no two ids share a scattered key |
| `LocalizerKeys.ReverseIs` | src/base/localizer.h:19-29 | the scattered key is the id with its sixteen hexadecimal digits in reverse order |
| `LocalizerKeys.KeysMean` | src/base/localizer.h:110-131 | the key of every entry is the id, its remainder by the key bound, or the id with its digits reversed |
| `LocalizerKeys.CountsAddUp` | src/base/localizer.h:137-170 | uncapped counts add up to the number of entries |
| `LocalizerKeys.UniqueCounts` | src/base/localizer.h:141-169 | a count is the number of occurrences, or the cap if that is smaller |
| `LocalizerBlocks.Localizer.CountUniqIndex` | src/base/localizer.h:101-170 | the distinct keys in increasing order, each with its capped number of occurrences; a missing pair is read exactly when the block has rows and no entry |
| `LocalizerBlocks.Localizer.BuildMapping` | src/base/localizer.h:181-197 | the two-pointer walk gives every entry its rank in the dictionary, or 0, and counts the matches |
| `LocalizerBlocks.Localizer.RemapIndex` | src/base/localizer.h:173-225 | every row keeps its in-dictionary entries, in order, with their values, exactly when the block has values or the container had none, and otherwise up to the values left there; no index exceeds the recorded largest one; the k == matched check holds |
| `LocalizerBlocks.SameProduct` | src/base/spmv.h:72-91 | the localized block times gathered weights is the original times the weights of its keys |
| `KeyCaching.KeyCachingFilter.Encode` | ps-lite/src/filter/key_caching.h:12-37 | the message on the wire and the new cache, for hit, miss, short list and clearing |
| `KeyCaching.KeyCachingFilter.Decode` | ps-lite/src/filter/key_caching.h:39-60 | the decoded message and the new cache, or one of the two failed checks |
| `KeyCaching.DecodeFollowsEncode` | ps-lite/src/filter/key_caching.h:12-60 | a receiver in step decodes the list sent and stays in step |
| `KeyCaching.LinkFaithful` | ps-lite/src/filter/key_caching.h:12-60 | at any moment of a one-way link the decoded lists are those sent, no check failed, and the receiver's cache is what the sender's was; equal when nothing is in flight |
| `KeyCaching.FaithfulIffSeparates` | ps-lite/src/filter/key_caching.h:12-60 | every sequence of messages is delivered if and only if equal length and signature mean equal lists |
| `KeyCaching.MiddleIsNotHashed` | ps-lite/src/filter/key_caching.h:72-78 | long lists that differ only between their ends are confused |
| `KeyCachingTwoWay.SafeRuns` | ps-lite/src/filter/key_caching.h:12-60 | with decoding in the order of sending: over compatible messages every interleaving on a two-way connection keeps the invariant: what one end holds the other holds or has ahead of it on the wire, and nothing failed |
| `KeyCachingTwoWay.FaithfulIffSafe` | ps-lite/src/system/remote_node.cc:6-28 | with decoding in the order of sending: for any set of messages every run of the two-way connection delivers what was sent if and only if no signature covers two different kept lists, or a kept list and a clearing message of its length |
| `KeyCachingTwoWay.FaithfulListsIff` | ps-lite/src/filter/key_caching.h:12-60 | with decoding in the order of sending: over a set of lists: faithful if and only if the signature is injective on lists of 64 bytes or more and, when messages may clear, there are none |
| `KeyCachingTwoWay.CrossingFails` | ps-lite/src/filter/key_caching.h:12-60 | without clearing, two lists of one signature and different lengths that cross leave the caches swapped, and the next hit delivers the wrong list |
| `KeyCachingTwoWay.CallersRunFails` | src/difacto/async_sgd.h:374-438 | with the flags of the trainer (pulls keep, pushes of gradients clear) a second pull that is under way when the push is sent ends in the missing-key check at the worker |
| `KeyCachingCallers.PatientTalks` | src/difacto/async_sgd.h:374-438 | a worker that counts, pulls and pushes, and pushes a list only with no pull of it unanswered, and a server that answers the pulls it received, keep the invariant in every interleaving with injective signatures: nothing fails |
| `KeyCachingCallers.PatientIff` | src/difacto/async_sgd.h:374-438 | over a set of lists all those talks are faithful if and only if signatures are injective on lists of 64 bytes or more |
| `KeyCachingCallers.ImpatientIff` | src/difacto/async_sgd.h:374-438 | without that rule on pushes all talks are faithful if and only if every list is shorter than 64 bytes |
| `KeyCachingPicked.SkippedFails` | ps-lite/src/system/executor.cc:224-246 | one list, no clearing, two pulls, the first one skipped: the second packet ends in the missing-key check |
| `KeyCachingPicked.FaithfulAnyOrderIff` | ps-lite/src/system/executor.cc:224-246 | when any packet of the wire may be decoded next, every run over a set of messages is faithful if and only if no message of the set is kept |
| `FixingFloat.Measure` | ps-lite/src/filter/fixing_float.h:61-78 | the interval is the specified one, with positive width; it holds every value and is symmetric when both signs occur |
| `FixingFloat.EndsTight` | ps-lite/src/filter/fixing_float.h:61-78 | the interval is no wider than needed: its ends are values of the array, or one of them is the largest absolute value |
| `FixingFloat.CodeFits` | ps-lite/src/filter/fixing_float.h:88-103 | every code fits its bytes, for both rounding bits and every number of bytes |
| `FixingFloat.DecodedIsClose` | ps-lite/src/filter/fixing_float.h:92-117 | the decoded value is within bin/ratio of the clamped value, for every number of bytes |
| `FixingFloat.ErrorInNumbers` | ps-lite/src/filter/fixing_float.h:54-117 | with one, two and three bytes the error is at most a 254th, a 65534th and a 16777214th of the interval |
| `FixingFloat.EndsComeBack` | ps-lite/src/filter/fixing_float.h:92-117 | rounded down, the ends of the interval get the codes 0 and 256^n - 2 and come back exactly |
| `FixingFloat.UnpackUndoesPack` | ps-lite/src/filter/fixing_float.h:99-114 | packed codes unpack unchanged |
| `FixingFloat.PackUndoesUnpack` | ps-lite/src/filter/fixing_float.h:99-114 | unpacked bytes pack unchanged |
| `FixingFloat.Encode` | ps-lite/src/filter/fixing_float.h:54-104 | the bytes of all codes with the stored interval; the shift is out of range exactly for four to seven bytes, and otherwise encoding succeeds exactly for one to three bytes and stored ends that differ in order |
| `FixingFloat.ConstantInterval` | ps-lite/src/filter/fixing_float.h:74-86 | an array of one value has an interval exactly when the value and the value plus a millionth are stored apart |
| `FixingFloat.Decode` | ps-lite/src/filter/fixing_float.h:54-117 | the values of all whole codes; the same outcomes, and a missing interval fails a check |
| `FixingFloat.RoundTripIsClose` | ps-lite/src/filter/fixing_float.h:54-117 | as many values come back, each within bin/ratio of its clamped original, for every number of bytes |
| `FixingFloat.Exchange` | ps-lite/src/filter/fixing_float.h:54-117 | encoding and decoding fail together, exactly as for Encode; otherwise every value comes back within bin/ratio of its clamped value, and with a measured interval within that of itself plus what storing moved the ends by |

## Left out

- Sizes and offsets are unbounded naturals: overflow of `size_t`, `int` and `unsigned` is not modelled, except the 29-bit length of RecordIO parts and the byte widths of the fixed-point codes.
- IEEE rounding: floats are reals; `exp`, its logarithm and `sqrt` are function parameters of which only positivity, the functional equation, the tangent at zero and the inverse, and non-negativity with the square, are used; storing the interval ends of the fixed-point filter in 32 bits is a function parameter; NaN is not modelled.
- Files are non-empty, as the original drops empty ones; directories, URIs, streams that fail and the file systems are not part of this model.
- TextRecords.ReadLines: records that hold line ends only are passed over; how many there are depends on the buffer size, as a chunk may be cut inside a run of line ends.
- ThreadedIter: destruction of the iterator and exceptions of the producer.
- Executor: when a wait for a request returns, explicit timestamps, unfinished requests, hand-marked virtual timestamps, `Reply`, `ReplaceNode` and `QueryRecvReq`; the network delivers a response only from a node that was sent the request, and senders are not group names.
- SliceMessage.Slice: server ranges have begin up to end, and dynamic lengths are not negative.
- KVCache.FixedPull.ProcessResponse: values go to a growing buffer; the buffer the caller allocated, with its length check, is left out.
- KVCache.DynamicPull.ProcessResponse: likewise.
- PullPath.PullFixed: keys do not repeat, every key lies in some server range and at least one value per key is asked for.
- Van, Postoffice, node assignment, heartbeats, replica and owner groups, `ParallelUnion` and the remaining filters.
- OrderedMatch.ForkJoin: the two halves are merged one after the other; they write disjoint stretches.
- KVStoreBuckets.BucketStore.HandlePush: dynamic-length requests of the bucketed store are not modelled, they use bucket 0 only; dynamic pulls are taken from the single-map store, dynamic pushes are left out.
- KVStore handles have no state across keys; Start, Finish, Load and Save of handles and stores are left out.
- WorkloadPool.WorkloadPool.ServeAll: `Clear` and `ClearRemain`, which empty the table, are not among the calls.
- WorkloadPool: `Clear`, `ClearRemain`, file matching and logging; one clock reading per call.
- WorkloadPool.CountedOnce: a file registered again after it was completed starts over, and its parts are then counted once per registration.
- TrackerStart.RabitTracker.AssignRank: of what is sent to a worker only the waiting neighbours are modelled; connections succeed at the first attempt and no link exists before; retry, recovery, shutdown, job names and the sorting of pending workers by host are left out.
- DifactoLogistic.SupportingLine: speaks of the exact logistic loss; the objective that `Evaluate` reports, which cuts it off beyond 30, is left out.
- DifactoRun.Loss.CalcGrad: the gradient before clipping, dropout and normalisation; objective values, AUC and prediction output are left out. It overwrites the weights, and nothing is said about evaluating afterwards.
- SpMM.Times: dense matrices are sequences of rows, so the index arithmetic of the flat vectors is not modelled, only the quotients of sizes.
- DifactoRun.Loss.constructor: the sizes account for the whole model beforehand, as the original checks only after reading.
- Ftrl: the AdaGrad and plain SGD entries, loading and saving of entries.
- LocalizerBlocks.Localizer.CountUniqIndex: the parallel sort is taken by its contract, and counts are always asked for.
- KeyCaching: hashing is an abstract function of the list; the cache is not shared between threads.
- KeyCachingTwoWay.FaithfulIffSafe: packets are decoded in the order of sending, which holds while no request is skipped; KeyCachingPicked has the other extreme, any order.
- FixingFloat.Encode: works on one array; the random bits are a parameter, and skipping empty arrays and a width of zero bytes for the whole message are left out.
