/** The RocksDB-backed Raft log and its two readers (crates/storage/src/openraft_rocksdb.rs). */
module RaftLog {
  import opened Bytes
  import opened Decimal
  import opened LogKeys
  import opened RocksStore
  import opened LogStore

  datatype LogId = LogId(term: u64, node: u64, index: u64)

  /** A membership is kept as the message it is sent as. */
  datatype Payload = Blank | Normal(operation: bytes) | Membership(message: bytes)

  datatype Entry = Entry(id: LogId, payload: Payload)

  /** The protobuf conversions, which are not part of this model. */
  datatype Codec = Codec(
    encodeId: LogId -> bytes,
    decodeId: bytes -> Option<LogId>,
    encodeMembership: (bytes, LogId) -> bytes,
    decodeMembership: bytes -> Option<bytes>)

  /** Log ids survive their encoding. */
  ghost predicate Faithful(c: Codec) {
    forall id :: c.decodeId(c.encodeId(id)) == Some(id)
  }

  /** A codec that keeps log ids: three numbers of twenty digits each. */
  function DecimalCodec(): (c: Codec) {
    Codec(
      (id: LogId) => Padded(id.term) + Padded(id.node) + Padded(id.index),
      (b: bytes) => ParseId(b),
      (message: bytes, _: LogId) => message,
      (b: bytes) => Some(b))
  }

  function ParseId(b: bytes): (r: Option<LogId>) {
    if |b| != 60 then None
    else
      match (ParseU64(b[..20]), ParseU64(b[20..40]), ParseU64(b[40..]))
      case (Some(term), Some(node), Some(index)) => Some(LogId(term, node, index))
      case _ => None
  }

  /** There are faithful codecs, and codecs under which every payload survives. */
  lemma {:induction false} DecimalCodecIsFaithful(e: Entry)
    ensures Faithful(DecimalCodec()) && Intact(DecimalCodec(), e)
  {
    var c := DecimalCodec();
    PayloadRoundTrip(c, e);
    forall id: LogId ensures c.decodeId(c.encodeId(id)) == Some(id) { IdRoundTrip(id); }
  }

  lemma {:induction false} IdRoundTrip(id: LogId)
    ensures ParseId(Padded(id.term) + Padded(id.node) + Padded(id.index)) == Some(id)
  {
    PaddedParses(id.term);
    PaddedParses(id.node);
    PaddedParses(id.index);
    hide Padded, ParseU64;
    var b := Padded(id.term) + Padded(id.node) + Padded(id.index);
    assert b[..20] == Padded(id.term) && b[20..40] == Padded(id.node) && b[40..] == Padded(id.index);
  }

  lemma {:induction false} PaddedParses(i: u64)
    ensures |Padded(i)| == 20 && ParseU64(Padded(i)) == Some(i)
  {
    PaddedValue(i);
    hide Padded, ValueOf;
    assert IsDigit(Padded(i)[0]);
  }

  // ----- Payloads -----

  /** `serialize_entry_payload`. */
  function SerializePayload(c: Codec, e: Entry): (data: bytes) {
    match e.payload
    case Normal(op) => [1] + op
    case Blank => [0]
    case Membership(m) => [2] + c.encodeMembership(m, e.id)
  }

  /** `deserialize_entry_payload`; `None` is a decode failure. */
  function DeserializePayload(c: Codec, data: bytes): (r: Option<Payload>) {
    if data == [] then Some(Blank)
    else if data[0] == 0 then Some(Blank)
    else if data[0] == 1 then Some(Normal(data[1..]))
    else if data[0] == 2 then
      match c.decodeMembership(data[1..])
      case None => None
      case Some(m) => Some(Membership(m))
    else Some(Blank)
  }

  /** The stored form of `e` reads back as its payload. */
  predicate Intact(c: Codec, e: Entry) {
    DeserializePayload(c, SerializePayload(c, e)) == Some(e.payload)
  }

  /** Blank and Normal payloads always survive; a membership does when its message does. */
  lemma {:induction false} PayloadRoundTrip(c: Codec, e: Entry)
    ensures Intact(c, e) <==>
            (e.payload.Membership? ==> c.decodeMembership(c.encodeMembership(e.payload.message, e.id)) == Some(e.payload.message))
  {
    if e.payload.Normal? { assert ([1] + e.payload.operation)[1..] == e.payload.operation; }
    if e.payload.Membership? {
      var body := c.encodeMembership(e.payload.message, e.id);
      assert ([2] + body)[1..] == body;
    }
  }

  /** The type marker of a stored payload: 1 for Normal, 2 for Membership, 0 for Blank, which unknown markers and nothing at all also mean. */
  lemma {:induction false} PayloadForm(c: Codec, data: bytes, p: Payload)
    ensures DeserializePayload(c, data) == Some(p) <==>
            match p
            case Normal(op) => data == [1] + op
            case Membership(m) => data != [] && data[0] == 2 && c.decodeMembership(data[1..]) == Some(m)
            case Blank => data == [] || data[0] !in {1, 2}
    ensures DeserializePayload(c, data) == None <==> data != [] && data[0] == 2 && c.decodeMembership(data[1..]) == None
  {
    if data != [] { assert data == [data[0]] + data[1..]; }
  }

  /** What is written for an entry. */
  lemma {:induction false} PayloadWritten(c: Codec, e: Entry)
    ensures var data := SerializePayload(c, e);
            && data != [] && data[0] == (match e.payload case Blank => 0 case Normal(_) => 1 case Membership(_) => 2)
            && (e.payload.Blank? ==> |data| == 1)
            && (e.payload.Normal? ==> data[1..] == e.payload.operation)
            && (e.payload.Membership? ==> data[1..] == c.encodeMembership(e.payload.message, e.id))
  {
  }

  // ----- Reading -----

  /** `Overflow` is a bound whose successor or predecessor is no `u64`. */
  datatype ReadResult = Entries(entries: seq<Entry>) | DecodeFailure | Overflow

  /** The point-lookup reader's last id: the metadata key, or the index of the greatest key. */
  ghost function LastForLookup(c: Codec, m: Family): (r: Option<LogId>) {
    if LAST_LOG_ID_KEY in m then c.decodeId(m[LAST_LOG_ID_KEY])
    else
      match LastIndexIn(m)
      case Index(i) => if i <= U64_MAX then Some(LogId(0, 0, i)) else None
      case _ => None
  }

  /** The scanning reader's last id: the metadata key or nothing. */
  function LastForScan(c: Codec, m: Family): (r: Option<LogId>) {
    if LAST_LOG_ID_KEY in m then c.decodeId(m[LAST_LOG_ID_KEY]) else None
  }

  /** Readers borrow term and node from the last id for every index up to it. */
  function IdFor(last: Option<LogId>, i: u64): (id: LogId) {
    if last.Some? && i <= last.value.index then LogId(last.value.term, last.value.node, i) else LogId(0, 0, i)
  }

  /** The stored entries at indices from `i` to `end`, ascending. */
  function ReadFrom(c: Codec, m: Family, last: Option<LogId>, i: nat, end: u64): (r: ReadResult)
    decreases end + 1 - i
  {
    if i > end then Entries([])
    else if LogKey(i) !in m then ReadFrom(c, m, last, i + 1, end)
    else
      match DeserializePayload(c, m[LogKey(i)])
      case None => DecodeFailure
      case Some(p) => Prepend([Entry(IdFor(last, i), p)], ReadFrom(c, m, last, i + 1, end))
  }

  function Prepend(es: seq<Entry>, r: ReadResult): (q: ReadResult) {
    match r
    case Entries(rest) => Entries(es + rest)
    case _ => r
  }

  /** The different fallbacks of the two readers give every entry the same id. */
  lemma {:induction false} FallbacksAgree(c: Codec, m: Family, i: u64)
    ensures IdFor(LastForLookup(c, m), i) == IdFor(LastForScan(c, m), i)
  {
  }

  lemma {:induction false} ReadFromIds(c: Codec, m: Family, last1: Option<LogId>, last2: Option<LogId>, i: nat, end: u64)
    requires forall j: u64 :: IdFor(last1, j) == IdFor(last2, j)
    ensures ReadFrom(c, m, last1, i, end) == ReadFrom(c, m, last2, i, end)
    decreases end + 1 - i
  {
    hide LogKey, DeserializePayload;
    if i <= end { ReadFromIds(c, m, last1, last2, i + 1, end); }
  }

  lemma {:induction false} ReadFromSkip(c: Codec, m: Family, last: Option<LogId>, i: nat, j: nat, end: u64)
    requires i <= j && forall k: nat :: i <= k < j ==> !Has(m, k)
    ensures j <= end ==> ReadFrom(c, m, last, i, end) == ReadFrom(c, m, last, j, end)
    ensures j > end ==> ReadFrom(c, m, last, i, end) == Entries([])
    decreases j - i
  {
    hide LogKey, DeserializePayload;
    if i < j {
      assert !Has(m, i);
      ReadFromSkip(c, m, last, i + 1, j, end);
    }
  }

  lemma {:induction false} ReadFromHit(c: Codec, m: Family, last: Option<LogId>, i: u64, end: u64)
    requires i <= end && LogKey(i) in m
    ensures ReadFrom(c, m, last, i, end) ==
            match DeserializePayload(c, m[LogKey(i)])
            case None => DecodeFailure
            case Some(p) => Prepend([Entry(IdFor(last, i), p)], ReadFrom(c, m, last, i as nat + 1, end))
  {
  }

  lemma {:induction false} PrependNothing(r: ReadResult)
    ensures Prepend([], r) == r
  {
    if r.Entries? { assert [] + r.entries == r.entries; }
  }

  lemma {:induction false} PrependTwice(a: seq<Entry>, b: seq<Entry>, r: ReadResult)
    ensures Prepend(a, Prepend(b, r)) == Prepend(a + b, r)
  {
    if r.Entries? { assert a + (b + r.entries) == a + b + r.entries; }
  }

  // ----- Ranges -----

  datatype Bound = Included(n: u64) | Excluded(n: u64) | Unbounded

  /** The source computes `n + 1` and `n - 1` of excluded bounds; otherwise that arithmetic overflows. */
  predicate BoundsFit(lower: Bound, upper: Bound) {
    (lower.Excluded? ==> lower.n < U64_MAX) && (upper.Excluded? ==> upper.n > 0)
  }

  function StartOf(lower: Bound): (i: u64)
    requires lower.Excluded? ==> lower.n < U64_MAX
  {
    match lower
    case Included(n) => n
    case Excluded(n) => n + 1
    case Unbounded => 1
  }

  function EndOf(upper: Bound): (i: u64)
    requires upper.Excluded? ==> upper.n > 0
  {
    match upper
    case Included(n) => n
    case Excluded(n) => n - 1
    case Unbounded => U64_MAX
  }

  /** `i` is not cut off by the lower bound of a range; logs start at 1. */
  predicate Above(lower: Bound, i: nat) {
    match lower
    case Included(n) => n <= i
    case Excluded(n) => n < i
    case Unbounded => 1 <= i
  }

  /** `i` is not cut off by the upper bound of a range. */
  predicate Beneath(upper: Bound, i: nat) {
    match upper
    case Included(n) => i <= n
    case Excluded(n) => i < n
    case Unbounded => true
  }

  /** The indices the readers visit are the indices within the bounds. */
  lemma {:induction false} BoundsMean(lower: Bound, upper: Bound, i: u64)
    requires BoundsFit(lower, upper)
    ensures StartOf(lower) <= i <= EndOf(upper) <==> Above(lower, i) && Beneath(upper, i)
  {
  }

  /** What both readers return. */
  function ReadRange(c: Codec, m: Family, lower: Bound, upper: Bound): (r: ReadResult) {
    if !BoundsFit(lower, upper) then Overflow
    else ReadFrom(c, m, LastForScan(c, m), StartOf(lower), EndOf(upper))
  }

  /** A read fails exactly when an entry within the bounds does not decode. */
  lemma {:induction false} ReadFailsExactly(c: Codec, m: Family, lower: Bound, upper: Bound)
    requires BoundsFit(lower, upper)
    ensures ReadRange(c, m, lower, upper) == DecodeFailure <==>
            exists i: nat :: Has(m, i) && Above(lower, i) && Beneath(upper, i) && DeserializePayload(c, m[LogKey(i)]).None?
    ensures ReadRange(c, m, lower, upper) != Overflow
  {
    hide LogKey, DeserializePayload, StartOf, EndOf, Above, Beneath, ReadFrom;
    ReadFromFails(c, m, LastForScan(c, m), StartOf(lower), EndOf(upper));
    forall i: nat | Has(m, i)
      ensures Above(lower, i) && Beneath(upper, i) <==> StartOf(lower) <= i <= EndOf(upper)
    {
      BoundsMean(lower, upper, i);
    }
  }

  lemma {:induction false} ReadFromFails(c: Codec, m: Family, last: Option<LogId>, i: nat, end: u64)
    ensures ReadFrom(c, m, last, i, end) == DecodeFailure <==>
            exists j: nat :: Has(m, j) && i <= j <= end && DeserializePayload(c, m[LogKey(j)]).None?
    ensures ReadFrom(c, m, last, i, end) != Overflow
    decreases end + 1 - i
  {
    hide LogKey, DeserializePayload, IdFor;
    if i <= end {
      ReadFromFails(c, m, last, i + 1, end);
      assert Has(m, i) <==> LogKey(i) in m;
    }
  }

  // ----- Appending and purging -----

  /** One put for each entry, in order. */
  function PutsFor(cf: ColumnFamily, c: Codec, es: seq<Entry>): (ops: seq<WriteOp>)
    ensures |ops| == |es|
    decreases |es|
  {
    if es == [] then []
    else
      var e := es[|es| - 1];
      PutsFor(cf, c, es[..|es| - 1]) + [Put(cf, LogKey(e.id.index), SerializePayload(c, e))]
  }

  /** `append`: one batch of entries, then the last id as metadata, then the cached index. */
  function AppendEntries(s: Store, cf: ColumnFamily, c: Codec, es: seq<Entry>): (r: (Store, Result<()>)) {
    if es == [] then (s, Ok(()))
    else if |es| > MAX_BATCH_OPERATIONS then (s, Err(BatchTooLarge(|es|)))
    else
      var last := es[|es| - 1].id;
      var t := Commit(Commit(s, PutsFor(cf, c, es)), [Put(cf, LAST_LOG_ID_KEY, c.encodeId(last))]);
      (t.(cache := t.cache[cf := last.index]), Ok(()))
  }

  /** `purge`: truncates through the given id, then records it. */
  ghost function PurgeThrough(s: Store, cf: ColumnFamily, c: Codec, id: LogId): (r: (Store, Result<()>)) {
    if id.index == U64_MAX then (s, Panic)
    else
      var (t, r) := TruncateLog(s, cf, id.index + 1);
      if !r.Ok? then (t, r) else (Commit(t, [Put(cf, LAST_PURGED_LOG_ID_KEY, c.encodeId(id))]), Ok(()))
  }

  datatype LogState = LogState(lastPurged: Option<LogId>, last: Option<LogId>)

  /** `get_log_state`. */
  ghost function LogStateOf(c: Codec, m: Family): (r: Result<LogState>) {
    if LAST_LOG_ID_KEY in m && c.decodeId(m[LAST_LOG_ID_KEY]).None? then Err(CorruptedData)
    else if LAST_PURGED_LOG_ID_KEY in m && c.decodeId(m[LAST_PURGED_LOG_ID_KEY]).None? then Err(CorruptedData)
    else
      Ok(LogState(if LAST_PURGED_LOG_ID_KEY in m then c.decodeId(m[LAST_PURGED_LOG_ID_KEY]) else None, LastForLookup(c, m)))
  }

  /** Metadata under `key` that is not the encoding of a log id. */
  predicate Garbled(c: Codec, m: Family, key: bytes) {
    key in m && c.decodeId(m[key]).None?
  }

  /** The log state is an error exactly when one of the two metadata records is garbled. */
  lemma {:induction false} LogStateFailsExactly(c: Codec, m: Family)
    ensures LogStateOf(c, m) == Err(CorruptedData) <==> Garbled(c, m, LAST_LOG_ID_KEY) || Garbled(c, m, LAST_PURGED_LOG_ID_KEY)
    ensures LogStateOf(c, m).Ok? || LogStateOf(c, m) == Err(CorruptedData)
  {
    hide LastForLookup, Ascii;
  }

  class RaftLogStorage {
    const storage: Storage
    const cf: ColumnFamily
    const codec: Codec

    constructor (storage: Storage, cf: ColumnFamily, codec: Codec)
      requires cf.IsLog()
      ensures this.storage == storage && this.cf == cf && this.codec == codec
    {
      this.storage, this.cf, this.codec := storage, cf, codec;
    }

    /** `get_last_log_id` with its fallback `find_last_log_entry`. */
    method GetLastLogId() returns (r: Result<Option<LogId>>)
      requires cf.IsLog()
      ensures var m := FamilyOf(storage.db, cf);
              r == if LAST_LOG_ID_KEY in m && codec.decodeId(m[LAST_LOG_ID_KEY]).None? then Err(CorruptedData)
                   else Ok(LastForLookup(codec, m))
    {
      hide LogKey, ParseLogKey;
      var data := storage.Get(cf, LAST_LOG_ID_KEY);
      if data.Some? {
        var id := codec.decodeId(data.value);
        return if id.None? then Err(CorruptedData) else Ok(id);
      }
      var iter := new StorageIterator.End(FamilyOf(storage.db, cf));
      if iter.at.None? { return Ok(None); }
      LastIndexOfGreatest(iter.family, iter.at.value);
      match ParseLogKey(iter.at.value)
      case None => return Ok(None);
      case Some(i) => return Ok(Some(LogId(0, 0, i)));
    }

    /** `RocksDBLogStorage::try_get_log_entries`: a lookup for every index of the range. */
    method TryGetLogEntries(lower: Bound, upper: Bound) returns (r: ReadResult)
      requires cf.IsLog()
      ensures r == ReadRange(codec, FamilyOf(storage.db, cf), lower, upper)
    {
      hide LogKey, DeserializePayload, LastForLookup;
      if !BoundsFit(lower, upper) { return Overflow; }
      var start, end := StartOf(lower), EndOf(upper);
      ghost var m := FamilyOf(storage.db, cf);
      var found := GetLastLogId();
      var last := if found.Ok? then found.value else None;
      ghost var scan := LastForScan(codec, m);
      assert forall j: u64 :: IdFor(last, j) == IdFor(scan, j) by { LookupIds(codec, m, last); }
      ReadFromIds(codec, m, last, scan, start, end);
      var entries: seq<Entry> := [];
      PrependNothing(ReadFrom(codec, m, last, start, end));
      var index: nat := start;
      while index <= end
        invariant start <= index
        invariant ReadFrom(codec, m, last, start, end) == Prepend(entries, ReadFrom(codec, m, last, index, end))
        decreases end + 1 - index
      {
        var value := storage.Get(cf, LogKey(index));
        if value.Some? {
          match DeserializePayload(codec, value.value) {
            case None => return DecodeFailure;
            case Some(p) =>
              var entry := Entry(IdFor(last, index), p);
              PrependTwice(entries, [entry], ReadFrom(codec, m, last, index + 1, end));
              entries := entries + [entry];
          }
        }
        index := index + 1;
      }
      assert entries + [] == entries;
      return Entries(entries);
    }

    /** `get_log_state`. */
    method GetLogState() returns (r: Result<LogState>)
      requires cf.IsLog()
      ensures r == LogStateOf(codec, FamilyOf(storage.db, cf))
    {
      hide LogKey, ParseLogKey, LastForLookup;
      var last := GetLastLogId();
      if last.Err? { return Err(last.error); }
      if last.Panic? { return Panic; }
      var data := storage.Get(cf, LAST_PURGED_LOG_ID_KEY);
      if data.None? { return Ok(LogState(None, last.value)); }
      var id := codec.decodeId(data.value);
      if id.None? { return Err(CorruptedData); }
      return Ok(LogState(id, last.value));
    }

    /** `append`. */
    method Append(entries: seq<Entry>) returns (r: Result<()>)
      modifies storage
      ensures (storage.View(), r) == AppendEntries(old(storage.View()), cf, codec, entries)
    {
      hide LogKey, SerializePayload, ApplyOps;
      var batch := BuildPuts(cf, codec, entries);
      r := storage.BatchWrite(batch);
      if r.Ok? && entries != [] {
        var last := entries[|entries| - 1].id;
        storage.PutKey(cf, LAST_LOG_ID_KEY, codec.encodeId(last));
        storage.UpdateCachedLastLogIndex(cf, last.index);
      }
    }

    /** `purge`. */
    method Purge(id: LogId) returns (r: Result<()>)
      modifies storage
      ensures (storage.View(), r) == PurgeThrough(old(storage.View()), cf, codec, id)
    {
      if id.index == U64_MAX { return Panic; }
      r := storage.TruncateLogBefore(cf, id.index + 1);
      if r.Ok? { storage.PutKey(cf, LAST_PURGED_LOG_ID_KEY, codec.encodeId(id)); }
    }
  }

  lemma {:induction false} LookupIds(c: Codec, m: Family, last: Option<LogId>)
    requires last == if LAST_LOG_ID_KEY in m && c.decodeId(m[LAST_LOG_ID_KEY]).None? then None else LastForLookup(c, m)
    ensures forall j: u64 :: IdFor(last, j) == IdFor(LastForScan(c, m), j)
  {
    forall j: u64 ensures IdFor(last, j) == IdFor(LastForScan(c, m), j) {
      FallbacksAgree(c, m, j);
    }
  }

  method BuildPuts(cf: ColumnFamily, c: Codec, entries: seq<Entry>) returns (batch: seq<WriteOp>)
    ensures batch == PutsFor(cf, c, entries)
  {
    hide LogKey, SerializePayload;
    batch := [];
    for i := 0 to |entries|
      invariant batch == PutsFor(cf, c, entries[..i])
    {
      var e := entries[i];
      assert entries[..i + 1][..i] == entries[..i];
      batch := batch + [Put(cf, LogKey(e.id.index), SerializePayload(c, e))];
    }
    assert entries[..|entries|] == entries;
  }

  /** The reader handed to replication: it scans with a cursor. */
  class RaftLogReader {
    const storage: Storage
    const cf: ColumnFamily
    const codec: Codec

    constructor (storage: Storage, cf: ColumnFamily, codec: Codec)
      requires cf.IsLog()
      ensures this.storage == storage && this.cf == cf && this.codec == codec
    {
      this.storage, this.cf, this.codec := storage, cf, codec;
    }

    /** `RocksDBLogReader::try_get_log_entries`: seek to the first key, then step. */
    method TryGetLogEntries(lower: Bound, upper: Bound) returns (r: ReadResult)
      requires cf.IsLog()
      ensures r == ScanOf(codec, FamilyOf(storage.db, cf), lower, upper)
      ensures Readable(FamilyOf(storage.db, cf)) ==> r == ReadRange(codec, FamilyOf(storage.db, cf), lower, upper)
    {
      hide LogKey, Readable, KeysFrom, StartOf, EndOf, Ascii, ReadRange, ScanEntries;
      var m := FamilyOf(storage.db, cf);
      if Readable(m) { ReadersAgree(codec, m, lower, upper); }
      var data := storage.Get(cf, LAST_LOG_ID_KEY);
      var last := if data.Some? then codec.decodeId(data.value) else None;
      if !BoundsFit(lower, upper) { return Overflow; }
      r := ScanLog(codec, m, last, StartOf(lower), EndOf(upper));
    }
  }

  /** The reader's cursor loop over a snapshot of the family. */
  method ScanLog(c: Codec, m: Family, last: Option<LogId>, start: u64, end: u64) returns (r: ReadResult)
    ensures r == ScanEntries(c, m, last, KeysFrom(m, LogKey(start)), end)
  {
    hide LogKey, ParseLogKey, DeserializePayload, Below, KeysFrom, IdFor, ScanEntries, Least;
    var entries: seq<Entry> := [];
    var iter := new StorageIterator.From(m, LogKey(start));
    ghost var whole := ScanEntries(c, m, last, iter.Left(), end);
    PrependNothing(whole);
    while iter.at.Some?
      invariant iter.family == m && iter.Valid() && iter.Left() <= m.Keys
      invariant whole == Prepend(entries, ScanEntries(c, m, last, iter.Left(), end))
      decreases |iter.Left()|
    {
      ghost var ks := iter.Left();
      iter.AtLeast();
      var item := iter.StepForward();
      var k := item.value.0;
      ScanStep(c, m, last, ks, k, end);
      assert entries + [] == entries;
      match ParseLogKey(k) {
        case None =>
        case Some(index) =>
          if index > end { return Entries(entries); }
          match DeserializePayload(c, item.value.1) {
            case None => return DecodeFailure;
            case Some(p) =>
              var entry := Entry(IdFor(last, index), p);
              PrependTwice(entries, [entry], ScanEntries(c, m, last, iter.Left(), end));
              entries := entries + [entry];
          }
      }
    }
    assert entries + [] == entries;
    ScanEnds(c, m, last, end);
    return Entries(entries);
  }

  // ----- Agreement of the two readers -----

  /** A scan that has the keys `ks` before it: keys that are no log keys are passed over. */
  ghost function ScanEntries(c: Codec, m: Family, last: Option<LogId>, ks: set<bytes>, end: u64): (r: ReadResult)
    requires ks <= m.Keys
    decreases |ks|
  {
    if ks == {} then Entries([])
    else
      var k := Least(ks);
      var rest := ks - {k};
      match ParseLogKey(k)
      case None => ScanEntries(c, m, last, rest, end)
      case Some(i) =>
        if i > end then Entries([])
        else
          match DeserializePayload(c, m[k])
          case None => DecodeFailure
          case Some(p) => Prepend([Entry(IdFor(last, i), p)], ScanEntries(c, m, last, rest, end))
  }

  lemma {:induction false} ScanEnds(c: Codec, m: Family, last: Option<LogId>, end: u64)
    ensures ScanEntries(c, m, last, {}, end) == Entries([])
  {
  }

  lemma {:induction false} ScanStep(c: Codec, m: Family, last: Option<LogId>, ks: set<bytes>, k: bytes, end: u64)
    requires ks <= m.Keys && IsLeast(ks, k)
    ensures ScanEntries(c, m, last, ks, end) ==
            match ParseLogKey(k)
            case None => ScanEntries(c, m, last, ks - {k}, end)
            case Some(i) =>
              if i > end then Entries([])
              else
                match DeserializePayload(c, m[k])
                case None => DecodeFailure
                case Some(p) => Prepend([Entry(IdFor(last, i), p)], ScanEntries(c, m, last, ks - {k}, end))
  {
    hide DeserializePayload, ParseLogKey, IdFor, Below;
    LeastIsUnique(ks, k, Least(ks));
  }

  /** What the scanning reader returns on any family. */
  ghost function ScanOf(c: Codec, m: Family, lower: Bound, upper: Bound): (r: ReadResult) {
    if !BoundsFit(lower, upper) then Overflow
    else ScanEntries(c, m, LastForScan(c, m), KeysFrom(m, LogKey(StartOf(lower))), EndOf(upper))
  }

  lemma {:induction false} ScanReads(c: Codec, m: Family, last: Option<LogId>, ks: set<bytes>, n: nat, end: u64)
    requires Covers(m, ks, n) && ks <= m.Keys
    ensures ScanEntries(c, m, last, ks, end) == ReadFrom(c, m, last, n, end)
    decreases |ks|
  {
    hide LogKey, ParseLogKey, DeserializePayload, Below, Ascii, Covers, IdFor, ReadFrom;
    if ks == {} {
      CoversNothing(m, n);
      ReadNothing(c, m, last, n, end);
    } else {
      var k := Least(ks);
      StepCovers(m, ks, n, k);
      if ParseLogKey(k).None? {
        ScanReads(c, m, last, ks - {k}, n, end);
      } else {
        var j := ParseLogKey(k).value;
        ReadFromSkip(c, m, last, n, j, end);
        if j <= end {
          ScanReads(c, m, last, ks - {k}, j + 1, end);
          ReadFromHit(c, m, last, j, end);
        }
      }
    }
  }

  lemma {:induction false} ReadNothing(c: Codec, m: Family, last: Option<LogId>, n: nat, end: u64)
    requires forall i: nat :: i >= n ==> !Has(m, i)
    ensures ReadFrom(c, m, last, n, end) == Entries([])
  {
    hide LogKey, DeserializePayload;
    var past: int := end;
    if n <= end { ReadFromSkip(c, m, last, n, past + 1, end); }
  }

  /** The seek-and-scan reader returns what the point-lookup reader returns. */
  lemma {:induction false} ReadersAgree(c: Codec, m: Family, lower: Bound, upper: Bound)
    requires Readable(m)
    ensures ScanOf(c, m, lower, upper) == ReadRange(c, m, lower, upper)
  {
    hide LogKey, Readable, Covers, ReadFrom, ScanEntries;
    if BoundsFit(lower, upper) {
      ReadableLater(m, StartOf(lower));
      SeekCovers(m, StartOf(lower));
      ScanReads(c, m, LastForScan(c, m), KeysFrom(m, LogKey(StartOf(lower))), StartOf(lower), EndOf(upper));
    }
  }

  /** Every payload stored under a key that reads as an index decodes. */
  predicate AllDecode(c: Codec, m: Family) {
    forall k :: k in m && ParseLogKey(k).Some? ==> DeserializePayload(c, m[k]).Some?
  }

  ghost function IndexKeys(ks: set<bytes>): (r: set<bytes>) {
    set k | k in ks && ParseLogKey(k).Some?
  }

  /** Every key of `ks` that reads as an index has a payload that decodes. */
  predicate DecodeIn(c: Codec, m: Family, ks: set<bytes>)
    requires ks <= m.Keys
  {
    forall k :: k in ks && ParseLogKey(k).Some? ==> DeserializePayload(c, m[k]).Some?
  }

  /** A scan without an end returns one entry for every key that reads as an index, unless one does not decode. */
  lemma {:induction false} ScanCounts(c: Codec, m: Family, last: Option<LogId>, ks: set<bytes>)
    requires ks <= m.Keys
    ensures var r := ScanEntries(c, m, last, ks, U64_MAX);
            if DecodeIn(c, m, ks) then r.Entries? && |r.entries| == |IndexKeys(ks)| else r == DecodeFailure
    decreases |ks|
  {
    hide LogKey, ParseLogKey, DeserializePayload, IdFor, Below;
    if ks != {} {
      var k := Least(ks);
      ScanCounts(c, m, last, ks - {k});
      assert DecodeIn(c, m, ks) <==>
             DecodeIn(c, m, ks - {k}) && (ParseLogKey(k).Some? ==> DeserializePayload(c, m[k]).Some?);
      if ParseLogKey(k).Some? {
        assert IndexKeys(ks) == IndexKeys(ks - {k}) + {k};
      } else {
        assert IndexKeys(ks) == IndexKeys(ks - {k});
      }
    }
  }

  /** The keys of `m` that a lookup can find, and those no reader takes for an index. */
  function Found(m: Family): (r: Family) {
    map k | k in m && (ParseLogKey(k).Some? ==> IsLogKey(k)) :: m[k]
  }

  lemma {:induction false} LookupsFindOnlyLogKeys(c: Codec, m: Family, last: Option<LogId>, i: nat, end: u64)
    ensures ReadFrom(c, Found(m), last, i, end) == ReadFrom(c, m, last, i, end)
    decreases end + 1 - i
  {
    hide LogKey, DeserializePayload, IdFor, ParseLogKey;
    if i <= end {
      LookupsFindOnlyLogKeys(c, m, last, i + 1, end);
      LogKeyIsLogKey(i);
    }
  }

  lemma {:induction false} FewerKeys(a: set<bytes>, b: set<bytes>)
    requires a <= b
    ensures |a| <= |b| && (|a| == |b| ==> a == b)
    decreases |a|
  {
    if a != {} {
      var x :| x in a;
      FewerKeys(a - {x}, b - {x});
      assert a == a - {x} + {x} && b == b - {x} + {x};
    }
  }

  /** Some entry from index `s` on does not decode. */
  ghost predicate BrokenFrom(c: Codec, m: Family, s: nat) {
    exists j: nat :: j >= s && Has(m, j) && DeserializePayload(c, m[LogKey(j)]).None?
  }

  /** What lookups find is what a scan would find if there were no stray keys. */
  lemma {:induction false} LookupsScanFound(c: Codec, m: Family, last: Option<LogId>, s: u64)
    ensures var a := KeysFrom(Found(m), LogKey(s));
            && ReadFrom(c, m, last, s, U64_MAX) == ScanEntries(c, Found(m), last, a, U64_MAX)
            && (DecodeIn(c, Found(m), a) <==> !BrokenFrom(c, m, s))
  {
    hide LogKey, ParseLogKey, Below, ScanEntries, ReadFrom, DeserializePayload;
    var f := Found(m);
    var a := KeysFrom(f, LogKey(s));
    SeekCovers(f, s);
    ScanReads(c, f, last, a, s, U64_MAX);
    LookupsFindOnlyLogKeys(c, m, last, s, U64_MAX);
    if BrokenFrom(c, m, s) {
      var j: nat :| j >= s && Has(m, j) && DeserializePayload(c, m[LogKey(j)]).None?;
      LogKeyIsLogKey(j);
      assert Has(f, j) && LogKey(j) in a;
    }
    if !DecodeIn(c, f, a) {
      var k :| k in a && ParseLogKey(k).Some? && DeserializePayload(c, f[k]).None?;
      assert Has(m, ParseLogKey(k).value);
    }
  }

  /**
    * Exactly when the readers agree on everything from an index on, for every family: when no stray key
    * follows, or when an entry that does not decode makes both of them fail.
    */
  lemma {:induction false} OpenReadsAgreeExactly(c: Codec, m: Family, s: u64)
    ensures ScanOf(c, m, Included(s), Unbounded) == ReadRange(c, m, Included(s), Unbounded) <==>
            ReadableFrom(m, s) || BrokenFrom(c, m, s)
  {
    hide LogKey, ParseLogKey, Below, ScanEntries, ReadFrom, DeserializePayload, BrokenFrom;
    var last, f := LastForScan(c, m), Found(m);
    var a, b := KeysFrom(f, LogKey(s)), KeysFrom(m, LogKey(s));
    LookupsScanFound(c, m, last, s);
    ScanCounts(c, m, last, b);
    ScanCounts(c, f, last, a);
    assert IndexKeys(a) <= IndexKeys(b);
    FewerKeys(IndexKeys(a), IndexKeys(b));
    if ReadableFrom(m, s) {
      SeekCovers(m, s);
      ScanReads(c, m, last, b, s, U64_MAX);
    } else {
      var stray :| stray in m && AtMost(LogKey(s), stray) && ParseLogKey(stray).Some? && !IsLogKey(stray);
      assert stray in IndexKeys(b) && stray !in IndexKeys(a);
    }
    if !DecodeIn(c, f, a) {
      var k :| k in a && ParseLogKey(k).Some? && DeserializePayload(c, f[k]).None?;
      assert k in b;
    }
  }

  /**
    * Where every payload decodes the readers return the same for every range if and only if no key at or
    * after the first log key reads as an index without being its log key.
    */
  lemma {:induction false} ReadersAgreeExactly(c: Codec, m: Family)
    requires AllDecode(c, m)
    ensures Readable(m) <==>
            forall lower, upper :: ScanOf(c, m, lower, upper) == ReadRange(c, m, lower, upper)
  {
    hide LogKey, ParseLogKey, Below, ScanOf, ReadRange, ReadableFrom, DeserializePayload;
    if Readable(m) {
      forall lower, upper ensures ScanOf(c, m, lower, upper) == ReadRange(c, m, lower, upper) {
        ReadersAgree(c, m, lower, upper);
      }
    }
    OpenReadsAgreeExactly(c, m, 0);
    assert !BrokenFrom(c, m, 0) by { NothingBroken(c, m); }
  }

  lemma {:induction false} NothingBroken(c: Codec, m: Family)
    requires AllDecode(c, m)
    ensures !BrokenFrom(c, m, 0)
  {
    hide LogKey, ParseLogKey, DeserializePayload;
    forall j: nat | Has(m, j) ensures DeserializePayload(c, m[LogKey(j)]).Some? { LogKeyIsLogKey(j); }
  }

  /** Such a key: an index without its padding. */
  lemma {:induction false} UnpaddedKeyIsStray()
    ensures !Readable(map[LOG_PREFIX + [55] := [0]])
  {
    var k: bytes, d: bytes := LOG_PREFIX + [55], [55];
    PaddedValue(0);
    hide Padded;
    assert k[4..] == d && d[..0] == [];
    assert ParseLogKey(k) == Some(7);
    assert |LogKey(7)| == 24 by { PaddedValue(7); }
    assert Padded(0)[0] == 48 by { ZeroPadding(); }
    assert Below(Padded(0), d);
    BelowAfterPrefix(LOG_PREFIX, Padded(0), d);
  }

  lemma {:induction false} ZeroPadding()
    ensures Padded(0)[0] == 48
  {
    assert FormatNat(0) == [48];
    FirstZero(19);
  }

  lemma {:induction false} FirstZero(n: nat)
    requires n > 0
    ensures Zeros(n) != [] && Zeros(n)[0] == 48
  {
    if n > 1 { FirstZero(n - 1); }
  }
}
