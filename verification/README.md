# Seshat in Dafny

This project models two components of Seshat, a Redis-compatible store replicated by Raft, and proves
what they promise.

**The RESP codec.** `RespParser` is the resumable parser: a class whose `Parse` method loops over its
state and calls itself for the elements of aggregates, proved to compute the function `Run`. `RespGrammar`
is an independent, state-free definition of the wire format of RESP2 and RESP3 (Redis serialization
protocol specification, sections "Simple strings" to "Pushes") with the parser's leniency; `RespStrict` is
the same without it. The parser accepts exactly the grammar (`RespRefinement`) and refuses exactly what a
relation over the text says, with the error, state and bytes it names (`RespErrors`); the encoder writes
exactly the strict frames, and parser and encoder are inverse (`RespRoundTrip`). Chunks delivered at clean
cuts give the one-buffer answer (`RespStreaming`), and the surviving cuts of any frame are characterised exactly, for
one cut (`RespCuts`) and for any number of cuts (`RespChunks`, which needs that no frame of a value stands
inside another one but at its start, `RespInfix`). `RespRuns` follows depth, panics and self-calls over any
sequence of calls, and `RespDepth` says exactly when the parser gives its depth back.

**The Raft log and the state machines.** `RocksStore` is RocksDB as six ordered byte maps and a
write-ahead log of atomic batches with a durable mark. `LogStore` is `Storage` with its last-index cache;
`LogRuns` proves that every run of log operations, restarts and crashes included, answers like an abstract
gap-free log. `RaftLog` and `RaftLogRuns` add the OpenRaft log with its metadata keys and its two readers;
`RaftLogCrashes` adds restarts, with crashes between the two writes of an operation.
`StateMachines` and `RocksMachine` are the in-memory and the RocksDB state machine; `CrashReplay` proves
that replay after any number of crashes converges to the fold of the log.

**Inline commands.** `InlineCommand` is the quote-and-escape tokenizer; the answer to every line is
characterised by how the line is written.

The twenty parser states are grouped by role (line, bulk length, bulk data, aggregate length, aggregate
data); a `usize` or `u64` overflow, which stops the program, is a result of its own (`Panicked`, `Panic`).
Integers are unbounded in Dafny, so `i64` and `u64` ranges are written out. Protobuf and bincode are
parameters (`Codec`, `Decode`): functions from values to bytes and back that may fail.

## What the code does not do

Plain statements of some properties are false of the code. Each of these is kept as the code has it, with
the condition under which the property holds.

- A frame cut between the CR and LF of a non-empty bulk trailer makes the next call underflow
  (`RespCuts.TrailerCut`). `_` and `#` frames lose their type byte when they do not arrive whole, and an
  element of an aggregate that does not arrive whole is dropped with the bytes it consumed. One cut leaves
  the answer unchanged if and only if `CleanCut` holds or the cut is in the trailer of an empty bulk frame
  (`RespCuts.CutExactly`); several cuts of a frame do if and only if `GoodCuts` holds
  (`RespChunks.StreamsExactly`).
- An aggregate dropped in this way keeps its level of depth for good
  (`RespRuns.ForgottenAggregateKeepsItsLevel`). After a prefix of a frame the depth is balanced if and only
  if the cut is not past the header of an aggregate that is itself an element
  (`RespDepth.DepthBalancedExactly`), and over a run of calls if and only if no call stops there
  (`RespDepth.RunBalancedExactly`).
- A key such as `log:7` is an entry to the scanning reader and invisible to the lookup reader
  (`RaftLog.UnpaddedKeyIsStray`); the readers agree on everything from an index on if and only if no such key
  follows or an undecodable entry makes both fail (`RaftLog.OpenReadsAgreeExactly`), and, where entries
  decode, on every range if and only if no such key sorts at or after the first log key
  (`RaftLog.ReadersAgreeExactly`).
- Readers give every entry the term and node of the last entry (`RaftLogRuns.TwoLeadersMisread`), so the
  entries of a range come back with their own ids if and only if these are everyone's there
  (`RaftLogRuns.OneLeaderReads`).
- After the whole log has been purged, the metadata keys left behind make the next last-index read fail: no
  further purge succeeds (`RaftLogRuns.PurgeAfterPurgeAllFails`) and the store cannot be reopened
  (`RaftLogCrashes.PurgeAllBlocksReopening`). A purge succeeds under the condition of
  `RaftLogRuns.PurgeSucceedsExactly`, reopening under that of `LogRuns.ReopenSucceedsExactly`.
- After a crash between the entries of an append and its last id, the log reports an earlier last id, and
  readers give the entries after it no term and no node. Over runs with restarts the last id is right if and
  only if the last append that survived is complete (`RaftLogCrashes.LogStateExactly`), and the ids of a range
  if and only if its entries lie in the recorded part of the log and under the recorded leader
  (`RaftLogCrashes.CrashedIdsExactly`); an entry that names no leader is the exception to both.
- The state machines answer a delete differently; their answers agree on a batch if and only if it deletes
  nothing (`RocksMachine.RepliesAgreeExactly`).
- Between a crash and the end of replay the stored map can be ahead of the applied index: a node that had
  caught up and loses no write holds the fold at the applied index if and only if the entries it had taken
  in leave that fold as it is (`CrashReplay.CrashLeavesKeysAhead`).

## Model

| member | source | states |
|---|---|---|
| Bytes.FindCrlf | crates/resp/src/parser.rs:1085-1087 | the result is the first CR LF pair, and there is none when it is None |
| Bytes.FindCrlfSplit | crates/resp/src/parser.rs:275-290 | searching only the new bytes finds the terminator of the whole line unless the cut fell inside a CR LF pair |
| Decimal.ParseI64 | crates/resp/src/parser.rs:309-329 | the result is some i exactly when the text is digits after an optional sign, negative exactly after a minus, and i fits an i64 |
| Decimal.ParseU64 | crates/storage/src/storage.rs:285-292 | the result is some n exactly when the text is digits after an optional plus and n fits a u64 |
| Decimal.ParseFormatI64 | crates/resp/src/encoder.rs:42-46 | every i64 printed by the encoder parses back to itself |
| Decimal.FormatNatLength | crates/resp/src/types.rs:212-237 | a number prints in at most k digits if and only if it is below ten to the k |
| RespParser.RespParser.Parse | crates/resp/src/parser.rs:171-1073 | the loop with its self-calls computes Run from any ready state, keeps the parser ready, panics exactly when a trailer CR was swallowed, gives back exactly the depth an aggregate took, and terminates with self-calls bounded by the depth limit |
| RespParser.RespParser.Default | crates/resp/src/parser.rs:107-115 | a new parser is idle at depth 0 with limits of 512 MiB, 1,000,000 elements and 32 levels |
| RespParser.RespParser.StepMarker | crates/resp/src/parser.rs:175-273 | dispatch on the type byte, with nulls and booleans consumed in place, either answers the call or continues it with fewer bytes |
| RespParser.RespParser.StepLine | crates/resp/src/parser.rs:275-582 | simple strings, errors, integers and big numbers: one pass of the loop preserves the meaning of the call |
| RespParser.RespParser.StepBulkLen | crates/resp/src/parser.rs:331-720 | bulk length lines with null, empty, negative and too large lengths: one pass preserves the meaning of the call |
| RespParser.RespParser.StepBulkData | crates/resp/src/parser.rs:394-757 | counted data over chunks, with the underflow of the remaining length: one pass preserves the meaning of the call |
| RespParser.RespParser.StepAggLen | crates/resp/src/parser.rs:419-1008 | aggregate length lines with the length and depth limits: one pass preserves the meaning of the call |
| RespParser.RespParser.StepElement | crates/resp/src/parser.rs:477-1070 | the self-call for one element, restoring the aggregate when the element is incomplete, preserves the meaning of the call |
| RespParser.RunKeeps | crates/resp/src/parser.rs:171-1073 | whatever a call answers, depth stays within the limit and an open aggregate owns a level; a call panics if and only if a trailer CR was swallowed as data |
| RespRefinement.ParserAcceptsGrammar | crates/resp/src/parser.rs:171-1087 | a fresh parser returns v and leaves r if and only if the buffer is a frame of v in the grammar followed by r, for all bytes and limits |
| RespRefinement.FrameParses | crates/resp/src/parser.rs:171-1073 | every frame of the grammar followed by any bytes parses to its value, leaves those bytes and restores state and depth |
| RespRefinement.MarkerSound | crates/resp/src/parser.rs:171-1073 | what one call consumes is a frame of the value it returns |
| RespRefinement.PrefixNeedsMore | crates/resp/src/parser.rs:171-1073 | every proper prefix of a frame is answered with None, never with an error |
| RespErrors.RejectsExactly | crates/resp/src/parser.rs:171-1073 | a fresh parser answers an error if and only if the text of the buffer is refused by the relation of bad type bytes, terminators, numbers, lengths, format prefixes, nesting and elements, and leaves the state, depth and bytes it names |
| RespErrors.BulkExactly | crates/resp/src/parser.rs:331-417 | which bulk length lines and bulk data are refused, with which error |
| RespErrors.AggExactly | crates/resp/src/parser.rs:419-535 | which aggregate length lines are refused, with which error, and that an aggregate fails with its first bad element |
| RespRefinement.MapProgress | crates/resp/src/parser.rs:797-874 | an open map pairs each key with the value after it and closes after exactly the announced pairs |
| RespRefinement.ListProgress | crates/resp/src/parser.rs:477-535 | an open array, set or push keeps its elements in order and closes after exactly the announced number |
| RespGrammar.PairsAreFrames | crates/resp/src/encoder.rs:128-136 | pairs on the wire are the same byte strings as the flat list of keys and values |
| RespEncoder.EncodeTo | crates/resp/src/encoder.rs:27-158 | the encoder appends exactly the wire form to the buffer, for every value |
| RespRoundTrip.EncodeIsFrame | crates/resp/src/encoder.rs:27-158 | the encoding of a well-formed value is a frame of it in the grammar |
| RespStrict.StrictExactly | crates/resp/src/encoder.rs:27-158 | a byte string is the strict frame of a well-formed value, with `t` or `f`, no plus, no leading zeros and the null of its type, if and only if it is the encoding; strict frames are frames |
| RespStrict.StrictNumberExactly | crates/resp/src/encoder.rs:42-46 | the printed text of a number is its one text without plus and leading zeros |
| RespRoundTrip.FrameIsWellFormed | crates/resp/src/parser.rs:171-1073 | only values within the limits and without CR LF in line payloads have frames |
| RespRoundTrip.RoundTrip | crates/resp/src/encoder.rs:27-158 | parsing an encoding followed by any bytes returns the value, leaves exactly those bytes and restores idle state and depth |
| RespRoundTrip.RoundTripExactly | crates/resp/src/encoder.rs:27-158 | the round trip succeeds if and only if the value is well-formed |
| RespRoundTrip.CanonicalForm | crates/resp/src/parser.rs:221-233 | any accepted value, from a -1 length, a padded number or an odd boolean letter too, is within limits and its encoding parses to it again |
| RespRoundTrip.Pipeline | crates/resp/src/codec.rs:66-89 | concatenated encodings decode to the list in order and leave an empty buffer and an idle parser |
| RespRoundTrip.PrefixFree | crates/resp/src/codec.rs:66-89 | no frame is a proper prefix of another frame, and a frame belongs to one value |
| RespRoundTrip.EncodingsAreUnique | crates/resp/src/codec.rs:66-89 | lists of well-formed values with the same wire form are equal |
| RespRoundTrip.FrameAtLeast | crates/resp/src/encoder.rs:27-158 | no frame of a value is shorter than its encoding |
| RespRoundTrip.SizeBound | crates/resp/src/types.rs:212-237 | the encoded length never exceeds the estimate within the default limits and with integers of at most 12 characters |
| RespRoundTrip.SizeExactly | crates/resp/src/types.rs:212-237 | the estimate of every value is its encoded length and the slack of each of its parts |
| RespRoundTrip.SizeBoundIsTight | crates/resp/src/types.rs:212-237 | nulls meet the estimate exactly, an integer fits if and only if it prints in 12 characters, a header fits if and only if it counts below ten million, and 1,000,000 elements use it up |
| RespCodec.RespCodec.Decode | crates/resp/src/codec.rs:66-73 | decoding is one call of the parser on the source buffer |
| RespCodec.RespCodec.Encode | crates/resp/src/codec.rs:75-89 | encoding appends the wire form to the destination |
| RespStreaming.LineResumes | crates/resp/src/parser.rs:275-290 | kept bytes followed by new ones are read as one line unless a terminator was cut in two |
| RespStreaming.BulkDataResumes | crates/resp/src/parser.rs:394-417 | bulk data cut anywhere before its trailer gives the same outcome as in one buffer |
| RespStreaming.AggregateResumes | crates/resp/src/parser.rs:477-535 | an aggregate cut between direct elements, or between a key and its value, resumes as if it had arrived whole |
| RespStreaming.CutResumes | crates/resp/src/parser.rs:275-535 | from one clean cut to the next, calling again equals one call on the joined bytes |
| RespStreaming.StreamingEqualsOneShot | crates/resp/src/parser.rs:275-1070 | with any number of clean cuts every chunk but the last gives None and the last gives the value and leftover of one buffer |
| RespCuts.CutExactly | crates/resp/src/parser.rs:171-1073 | one cut leaves the answer unchanged if and only if it is clean or inside the trailer of an empty bulk string or error |
| RespCuts.TrailerCut | crates/resp/src/parser.rs:394-417 | a cut inside the trailer of non-empty bulk data makes the next call underflow |
| RespCuts.SplitTerminator | crates/resp/src/parser.rs:275-290 | a terminator cut in two is never found: no number is parsed and a text comes back longer than it was |
| RespCuts.MarkOnly | crates/resp/src/parser.rs:209-233 | a null or boolean that does not arrive whole loses its type byte |
| RespCuts.ForgottenElement | crates/resp/src/parser.rs:513-533 | after a cut inside an element no continuation of the frame yields the aggregate with the right leftover |
| RespCuts.FrameSuffix | crates/resp/src/parser.rs:171-1073 | no frame of a value ends in a shorter frame of the same value |
| RespInfix.FrameInfix | crates/resp/src/parser.rs:171-1073 | no frame of a value stands inside another frame of the same value but at its start |
| RespInfix.FramesInfix | crates/resp/src/parser.rs:477-535 | the same for the frames of a list of values |
| RespChunks.ElementsDoomed | crates/resp/src/parser.rs:513-533 | an aggregate that has lost bytes of an element is never completed with the right leftover, however the rest of its frame is cut |
| RespChunks.StreamsExactly | crates/resp/src/parser.rs:171-1073 | any frame, padded or not, cut anywhere inside into any chunks gives None until the last chunk and then the one-buffer answer if and only if the cuts are good |
| RespRuns.RunsStayValid | crates/resp/src/parser.rs:459-535 | over any sequence of chunks, errors included, depth stays within max_depth, no decrement underflows, a returned value gives back the depth of its aggregate, and panics are exactly the swallowed trailer CRs |
| RespRuns.NestingBound | crates/resp/src/parser.rs:477-535 | self-calls nest no deeper than the levels max_depth leaves |
| RespRuns.ForgottenAggregateKeepsItsLevel | crates/resp/src/parser.rs:459-535 | two headers and nothing after them leave the depth raised by two with one aggregate open, for all kinds, counts and depths |
| RespDepth.DepthAfterPrefix | crates/resp/src/parser.rs:459-535 | after a proper prefix of a frame the depth is raised by exactly the number of aggregates that the grammar has open at the cut |
| RespDepth.DepthBalancedExactly | crates/resp/src/parser.rs:459-535 | after a proper prefix of a frame the depth is what the state accounts for if and only if the cut is not past the header of an aggregate that is itself an element |
| RespDepth.ElementsBalance | crates/resp/src/parser.rs:477-535 | an unfinished call on an open aggregate raises the depth if and only if complete elements are followed by an unfinished one that opens an aggregate |
| RespDepth.CallBalancedExactly | crates/resp/src/parser.rs:171-1073 | from any valid state and buffer, a returned value keeps the depth in balance, and an unfinished call does if and only if it forgets no aggregate |
| RespDepth.RunBalancedExactly | crates/resp/src/parser.rs:171-1073 | over any run of calls without an error on a fresh parser, depth is accounted for by the state if and only if no call forgot an aggregate |
| InlineCommand.SplitInlineCommand | crates/resp/src/inline.rs:139-216 | the character loop computes the recursive tokenizer, unclosed quotes and empty lines included |
| InlineCommand.ParseCommand | crates/resp/src/inline.rs:79-113 | a line that does not end in CR LF is refused; otherwise the text before it is tokenized |
| InlineCommand.TokenizeExactly | crates/resp/src/inline.rs:139-216 | every line: its tokens if and only if it is written as blanks, bare and quoted parts with escapes kept apart; InvalidLength if and only if it ends inside quotes; EmptyCommand if and only if it is blank |
| InlineCommand.InlineRoundTrip | crates/resp/src/inline.rs:139-216 | tokens written with any mixture of bare text, either quote, plain characters and escapes (LF, TAB, CR, backslash, quotes, unknown ones) are read back exactly, empty tokens included |
| InlineCommand.CanonicalLine | crates/resp/src/inline.rs:139-216 | every non-empty token list is read back from its double-quoted line |
| LogKeys.LogKeyOrder | crates/storage/src/storage.rs:1202-1204 | byte order of the 20-digit keys is numeric order on all u64 |
| LogKeys.LogKeyForm | crates/storage/src/storage.rs:1202-1204 | a key is `log:` and the twenty digits of its index |
| LogKeys.ParseFormatLogKey | crates/storage/src/openraft_rocksdb.rs:1210-1221 | parsing a formatted key returns its index |
| LogKeys.MetaBelowLog | crates/storage/src/openraft_rocksdb.rs:117-118 | both metadata keys sort below every log key and are no log keys |
| RocksStore.StorageIterator.From | crates/storage/src/iterator.rs:31-33 | a seek leaves exactly the keys from the given one on |
| RocksStore.StorageIterator.StepForward | crates/storage/src/iterator.rs:43-67 | a step returns the least key left with its value and removes exactly that key |
| RocksStore.FindGreatest | crates/storage/src/storage.rs:264-268 | the key sought from the end is the greatest in byte order |
| LogStore.Storage.Write | crates/storage/src/storage.rs:426-442 | a write applies its operations in order, extends the write-ahead log, and moves the durable mark if and only if it touches a state family |
| LogStore.Storage.BatchWrite | crates/storage/src/storage.rs:936-981 | empty batches do nothing, batches over 100,000 operations are refused unchanged, others commit at once and sync if and only if some operation needs it |
| LogStore.Storage.GetLastLogIndexFromDb | crates/storage/src/storage.rs:253-299 | the index of the greatest key, nothing for an empty family, an error for a greatest key that is no log key |
| LogStore.Storage.GetCachedLastLogIndex | crates/storage/src/storage.rs:853-875 | the cache answers first; a read of the database fills it |
| LogStore.Storage.AppendLogEntry | crates/storage/src/storage.rs:567-627 | appends exactly the index after the last one, else names the expected index and changes nothing but the cache |
| LogStore.Storage.TruncateLogBefore | crates/storage/src/storage.rs:740-802 | one batch deletes indices 1 up to the bound, and the cached index is forgotten |
| LogStore.Storage.GetLogRange | crates/storage/src/storage.rs:659-709 | on any family the seek-and-step loop computes the ordered scan with its early end and its corrupt-key error; on log and metadata keys it returns exactly the live values |
| LogStore.RangeScanExact | crates/storage/src/storage.rs:659-709 | an ordered scan over log and metadata keys is the ascending list of values at the live indices of the range |
| LogStore.ScanFailsExactly | crates/storage/src/storage.rs:672-693 | a range scan fails if and only if the first key it cannot pass over has the shape of a log key without an index |
| LogStore.StepCovers | crates/storage/src/iterator.rs:43-67 | the next log key a cursor meets is the first live index, and nothing live is skipped |
| LogRuns.LastOfLog | crates/storage/src/storage.rs:253-299 | the last-index read is the end of the log, nothing on an empty family, and an error when only metadata keys are left |
| LogRuns.ReopenSucceedsExactly | crates/storage/src/storage.rs:205-222 | reopening succeeds if and only if neither surviving log family holds metadata keys only |
| LogRuns.DeletesEffect | crates/storage/src/storage.rs:764-790 | a truncation removes exactly the log keys of 1 to n from its family and touches no other family |
| LogRuns.WithoutRepresents | crates/storage/src/storage.rs:740-802 | what is left after a truncation is the log without the entries below the bound |
| LogRuns.StepSimulates | crates/storage/src/storage.rs:205-897 | append, truncation, last-index read, other writes, reopening and crash each give the abstract answer and keep the simulation |
| LogRuns.LogRunsRefine | crates/storage/src/storage.rs:205-897 | over every run with restarts and crashes answers are those of the abstract log, each family holds one gap-free interval from 1 or above, and cached and uncached last index agree |
| LogRuns.RangeReadsExact | crates/storage/src/storage.rs:659-709 | after every run the scan of a range read returns that range of the abstract log |
| RaftLog.PayloadRoundTrip | crates/storage/src/openraft_rocksdb.rs:131-193 | Blank and Normal payloads survive storage; a membership does if and only if its message does |
| RaftLog.PayloadForm | crates/storage/src/openraft_rocksdb.rs:160-193 | which bytes read as which payload: marker 1 Normal, 2 Membership or a decode failure, anything else and nothing at all Blank |
| RaftLog.PayloadWritten | crates/storage/src/openraft_rocksdb.rs:131-157 | an entry is written as its marker and its operation or membership message |
| RaftLog.BoundsMean | crates/storage/src/openraft_rocksdb.rs:433-443 | the indices the readers visit are exactly those above the lower and beneath the upper bound |
| RaftLog.ReadFailsExactly | crates/storage/src/openraft_rocksdb.rs:445-487 | a read fails if and only if an entry within the bounds does not decode |
| RaftLog.DecimalCodecIsFaithful | crates/storage/src/openraft_rocksdb.rs:236-250 | there is a codec that keeps log ids and under which every payload survives |
| RaftLog.FallbacksAgree | crates/storage/src/openraft_rocksdb.rs:363-405 | the two last-id fallbacks give every index the same log id |
| RaftLog.RaftLogStorage.GetLastLogId | crates/storage/src/openraft_rocksdb.rs:363-405 | the metadata id, or the index of the greatest key with term and node 0, or an error for undecodable metadata |
| RaftLog.RaftLogStorage.TryGetLogEntries | crates/storage/src/openraft_rocksdb.rs:428-490 | the lookup loop returns the stored entries of the range in order, the first decode failure, or the overflow of an excluded bound |
| RaftLog.RaftLogReader.TryGetLogEntries | crates/storage/src/openraft_rocksdb.rs:506-588 | the scan loop returns the ordered scan on any family, and the lookup reader's answer when stray keys are absent |
| RaftLog.ScanLog | crates/storage/src/openraft_rocksdb.rs:536-587 | the cursor loop computes the recursive scan over the keys from the start key on |
| RaftLog.ReadersAgree | crates/storage/src/openraft_rocksdb.rs:428-588 | both readers return the same entries, ids, decode failures and overflows for every range, whatever other keys are present, unless a stray key reads as an index |
| RaftLog.OpenReadsAgreeExactly | crates/storage/src/openraft_rocksdb.rs:428-588 | on every family the readers agree on everything from an index on if and only if no stray key follows or an undecodable entry makes both fail |
| RaftLog.ReadersAgreeExactly | crates/storage/src/openraft_rocksdb.rs:428-588 | where payloads decode, the readers agree on all ranges if and only if no stray key sorts at or after the first log key |
| RaftLog.UnpaddedKeyIsStray | crates/storage/src/openraft_rocksdb.rs:1215-1221 | the key `log:7` alone makes the readers disagree |
| RaftLog.RaftLogStorage.GetLogState | crates/storage/src/openraft_rocksdb.rs:593-617 | last purged and last id as stored, or an error for undecodable metadata |
| RaftLog.LogStateFailsExactly | crates/storage/src/openraft_rocksdb.rs:593-617 | the log state is an error if and only if one of the two metadata records is no log id |
| RaftLog.RaftLogStorage.Append | crates/storage/src/openraft_rocksdb.rs:683-740 | one batch of entries, then the last id, then the cached index; refused batches change nothing |
| RaftLog.RaftLogStorage.Purge | crates/storage/src/openraft_rocksdb.rs:756-779 | truncation through the id, then the id is recorded; a failed truncation records nothing |
| RaftLogRuns.AppendHolds | crates/storage/src/openraft_rocksdb.rs:683-740 | an append that continues the log succeeds and leaves the extended log and its last id |
| RaftLogRuns.PurgeHolds | crates/storage/src/openraft_rocksdb.rs:756-779 | a purge below the last index succeeds, removes exactly the entries through the id and keeps the last id |
| RaftLogRuns.AppendPurgeRuns | crates/storage/src/openraft_rocksdb.rs:593-784 | over every legal run nothing fails, the log state reports last purged and last appended, and readers return exactly the live entries within the bounds, or the overflow of an excluded u64::MAX or 0 |
| RaftLogRuns.LiveInExactly | crates/storage/src/openraft_rocksdb.rs:433-487 | an entry is among those returned if and only if it was appended, not purged, and its index is within the bounds |
| RaftLogRuns.OversizedAppend | crates/storage/src/storage.rs:942-949 | an append is refused, unchanged, if and only if it has more than 100,000 entries |
| RaftLogRuns.OneLeaderReads | crates/storage/src/openraft_rocksdb.rs:455-468 | over every legal run readers return the appended entries with their own ids if and only if the entries of the range share term and node with the last one |
| RaftLogRuns.TwoLeadersMisread | crates/storage/src/openraft_rocksdb.rs:455-468 | an entry of term 1 followed by one of term 2 is read back with term 2 |
| RaftLogRuns.RebuiltExactly | crates/storage/src/openraft_rocksdb.rs:569-580 | rebuilt log ids are exact if and only if all entries share term and node with the last one |
| RaftLogRuns.PurgeSucceedsExactly | crates/storage/src/storage.rs:277-283 | a purge succeeds if and only if an index is cached, an entry is left, or there is no metadata |
| RaftLogRuns.PurgeAfterPurgeAllFails | crates/storage/src/storage.rs:277-283 | after any legal run, purging the whole log succeeds and every further purge is answered with corrupted data |
| RaftLogCrashes.AppendSimulates | crates/storage/src/openraft_rocksdb.rs:683-740 | an append that continues the log succeeds, and a crash leaves the log before it, the entries without their last id, or both |
| RaftLogCrashes.PurgeSimulates | crates/storage/src/openraft_rocksdb.rs:756-779 | a purge below the last index succeeds whatever id is recorded, and a crash leaves the log before it, the deletes without the purged id, or both |
| RaftLogCrashes.RestartSimulates | crates/storage/src/storage.rs:205-222 | reopening any surviving prefix succeeds and caches the last index of the surviving log |
| RaftLogCrashes.CrashRunsRead | crates/storage/src/openraft_rocksdb.rs:593-784 | over every legal run of appends, purges and restarts nothing fails, the log state reports the recorded last id, and readers return exactly the surviving entries within the bounds |
| RaftLogCrashes.CrashedIdsExactly | crates/storage/src/openraft_rocksdb.rs:455-468 | over every legal run with restarts a range is read back with its own ids if and only if each entry is covered by the recorded id and leader, or comes after it and names no leader |
| RaftLogCrashes.LogStateExactly | crates/storage/src/openraft_rocksdb.rs:593-617 | over every legal run with restarts the log state reports the last surviving entry if and only if the last surviving append is complete, as the steps tell, or that entry names no leader and nothing was recorded |
| RaftLogCrashes.PurgeAllBlocksReopening | crates/storage/src/storage.rs:205-222 | after every legal run with restarts, a purge of the whole log succeeds, no purge succeeds after it, and the store cannot be reopened |
| StateMachines.StateMachine.Apply | crates/storage/src/state_machine.rs:44-61 | stale and undecodable entries change nothing; others change data and last applied index and leave the log metadata |
| StateMachines.StateMachine.ApplyWithLogId | crates/storage/src/state_machine.rs:64-74 | accepted entries also record term and leader |
| StateMachines.StateMachine.Restore | crates/storage/src/state_machine.rs:80-86 | a snapshot replaces all three fields; bytes that do not deserialize replace nothing |
| StateMachines.SnapshotCommutes | crates/storage/src/state_machine.rs:44-86 | a snapshot restored onto any machine and the rest of the run give data, last applied, log metadata and answers of the uncut run, at every cut |
| StateMachines.CallMoves | crates/storage/src/state_machine.rs:44-74 | which calls are accepted, refused as already applied or refused as undecodable; accepted ones move the index and record term and leader, others change nothing |
| StateMachines.ReplyMeans | crates/storage/src/operations.rs:68-82 | a delete answers "1" if and only if it changes the data, otherwise "0", and a set answers "OK" |
| StateMachines.AnswersExactly | crates/storage/src/operations.rs:68-82 | over every run an accepted delete answers "1" if and only if the last accepted write of its key was a set, or there is none and the key was there initially |
| StateMachines.LeftExactly | crates/storage/src/state_machine.rs:44-74 | what a run leaves under a key is what its last accepted write of the key says, or the initial value |
| StateMachines.MemApplyExactly | crates/storage/src/openraft_mem.rs:313-380 | a batch fails if and only if an entry of it is undecodable or does not move the index on |
| StateMachines.MemStopsAt | crates/storage/src/openraft_mem.rs:313-380 | a batch that fails leaves the machine as the entries before the first such one left it, with their fold as data |
| StateMachines.AppliedAll | crates/storage/src/openraft_mem.rs:313-380 | a batch taken in whole leaves the fold and the greatest index of its Normal entries |
| StateMachines.AppliedLog | crates/storage/src/openraft_mem.rs:313-380 | it records term and node of its last Normal entry; without one the machine is as before |
| StateMachines.MemAnswersExactly | crates/storage/src/openraft_mem.rs:313-380 | its answers: nothing for Blank and Membership, "OK" for a set, "1" or "0" for a delete as its key was there or not |
| StateMachines.LastMembershipExactly | crates/storage/src/openraft_mem.rs:313-380 | the membership recorded is that of the last membership entry of the batch, or the old one if there is none |
| StateMachines.AcceptedGrow | crates/storage/src/state_machine.rs:44-74 | over every run accepted indices grow strictly and the last of them is the last applied index |
| StateMachines.MemStateMachine.Apply | crates/storage/src/openraft_mem.rs:313-380 | entries are applied up to the first refused one; memberships are recorded only when none is refused |
| RocksMachine.RocksStateMachine.Apply | crates/storage/src/openraft_rocksdb.rs:980-1088 | each entry is its own write and stops the batch if it does not decode; the applied id is written last |
| RocksMachine.RocksApplyFolds | crates/storage/src/openraft_rocksdb.rs:988-1063 | a decodable batch moves the data family by the fold of its Normal entries |
| RocksMachine.RocksApplyExactly | crates/storage/src/openraft_rocksdb.rs:988-1027 | a batch fails if and only if the data group meets an undecodable operation, and then holds the fold of the entries before it |
| RocksMachine.RocksAnswersExactly | crates/storage/src/openraft_rocksdb.rs:988-1060 | the answers of a batch: "OK" for every Normal entry, nothing for others |
| RocksMachine.StateAfterBatch | crates/storage/src/openraft_rocksdb.rs:1028-1085 | after a batch, for either group, its state family holds the last membership and the id of the last entry, safe from a crash, and the other group's families are untouched |
| RocksMachine.WithMembershipsExactly | crates/storage/src/openraft_rocksdb.rs:1028-1042 | the membership record is that of the last membership entry, or the old one, and no other key changes |
| RocksMachine.MemApplyFolds | crates/storage/src/openraft_mem.rs:313-380 | a decodable batch with growing indices moves the in-memory map by the same fold |
| RocksMachine.MachinesAgree | crates/storage/src/openraft_mem.rs:313-380 | for every list with strictly growing indices, cut into batches in any way, both machines hold the fold of the Normal entries |
| RocksMachine.RepliesAgreeExactly | crates/storage/src/operations.rs:68-82 | the answers of the two machines agree on a batch if and only if it deletes nothing |
| CrashReplay.ReplayAdvances | crates/storage/src/openraft_rocksdb.rs:988-1063 | replaying an entry moves every key past that entry, even a key that an earlier attempt had already moved further |
| CrashReplay.StepKeeps | crates/storage/src/openraft_rocksdb.rs:980-1088 | a call, complete, failed or cut short by a crash, keeps every possible survivor between applied and attempted index, and never moves the applied index back |
| CrashReplay.AppliedNeverRegresses | crates/storage/src/openraft_rocksdb.rs:1063-1085 | over every run the applied index on disk never moves back |
| CrashReplay.CrashReplayConverges | crates/storage/src/openraft_rocksdb.rs:980-1088 | after any batches and crashes each key is as the log left it between applied and highest attempted index, unwritten keys are exactly the fold at the applied index, and the map is the fold once the two meet |
| CrashReplay.ReplayRestores | crates/storage/src/openraft_rocksdb.rs:980-1088 | after any run, one call that takes in everything attempted before restores exactly the fold |
| CrashReplay.OneCrashLeavesAFold | crates/storage/src/storage.rs:426-442 | one crash of a node that had caught up, whatever writes it loses, leaves the fold of the log at one index between applied and attempted |
| CrashReplay.CrashLeavesKeysAhead | crates/storage/src/column_family.rs:137-142 | after any run that had caught up, a crash after n decodable entries that loses nothing leaves the applied index and the fold n entries on, which is the fold at the applied index if and only if the entries leave it as it is |

## Left out

- Doubles: printing and parsing `f64` belongs to the standard library; the type byte `,` is answered with an error of its own.
- bincode and protobuf byte formats: `Codec` and `Decode` are parameters; `Faithful` states that log ids survive theirs.
- Votes and the conversions of memberships: field copying; a membership is kept as its message.
- Building and installing RocksDB snapshots, `create_snapshot`: file-system and checkpoint calls.
- `RocksDBLogStorage::truncate`: one call of `truncate_log_before`, which keeps the opposite end of the log from the in-memory truncation, so no agreement is claimed.
- crates/kv, `MemStorage`, crates/storage/src/types.rs, the buffer pool, command and option types: wrappers and field copying.
- Locks, async and memory allocation; UTF-8 validation: calls are sequential steps and text is a sequence of characters.
- I/O errors of RocksDB: reads and writes succeed; a crash loses unsynced writes instead.
- The caches of applied id, membership and vote in the RocksDB state machine: copies of what is written.
- `StorageIterator` stepping backward and reverse seeks: only the seek to the end is used by the modelled code.
- RespStreaming.StreamingEqualsOneShot: states clean cuts only; RespChunks.StreamsExactly adds the harmless trailer cut and the converse.
- RespParser.RespParser.Parse: a type byte `,` gives the error DoubleNotModelled instead of a double.
- RespParser.RespParser.StepMarker: the same.
- RespRuns.RunsStayValid: a run that holds a `,` frame meets that error where the source reads a double.
- RespRoundTrip.SizeBound: values with doubles are not covered, and larger integers exceed the estimate, as RespRoundTrip.SizeBoundIsTight shows.
- RaftLog.RaftLogStorage.TryGetLogEntries: the overflow of a bound is a result of its own, as in a build with overflow checks; without them the bound wraps around.
- RaftLog.RaftLogReader.TryGetLogEntries: the same.
- RaftLog.ReadersAgreeExactly: families with an undecodable entry are excluded, because stray keys may then copy the entries that bounded reads see; RaftLog.OpenReadsAgreeExactly covers them for reads without an upper bound.
- RaftLogRuns.AppendPurgeRuns: purges of the whole log are excluded; RaftLogRuns.PurgeAfterPurgeAllFails says what follows them.
- RaftLogCrashes.CrashRunsRead: one Raft group writes; the log family of the other group stays empty.
- CrashReplay.CrashReplayConverges: follows the data family; the membership record is followed for each batch by RocksMachine.StateAfterBatch, not over crashes.
