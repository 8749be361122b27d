/** Runs of appends and purges on the Raft log: what the log reports and what its readers return. */
module RaftLogRuns {
  import opened Bytes
  import opened Decimal
  import opened LogKeys
  import opened RocksStore
  import opened LogStore
  import opened LogRuns
  import opened RaftLog

  /** Everything appended so far, the first index not purged, and the id of the last purge. */
  datatype AbsRaft = AbsRaft(entries: seq<Entry>, first: nat, purged: Option<LogId>)
  {
    /** Entry `i` of the sequence has log index `i + 1`. */
    predicate Valid() {
      && |entries| <= U64_MAX
      && (forall i :: 0 <= i < |entries| ==> entries[i].id.index == i + 1)
      && 1 <= first && (if entries == [] then first == 1 else first <= |entries|)
    }

    function LastId(): (r: Option<LogId>) {
      if entries == [] then None else Some(entries[|entries| - 1].id)
    }
  }

  const EMPTY_RAFT := AbsRaft([], 1, None)

  function Stored(c: Codec, es: seq<Entry>): (vs: seq<bytes>) {
    seq(|es|, i requires 0 <= i < |es| => SerializePayload(c, es[i]))
  }

  /** The live part of the log as the family holds it. */
  function LiveLog(c: Codec, a: AbsRaft): (l: AbsLog)
    requires a.Valid()
    ensures l.Valid() && l.Next() == |a.entries| + 1
  {
    AbsLog(a.first, Stored(c, a.entries[a.first - 1..]))
  }

  ghost predicate MetaIs(c: Codec, m: Family, key: bytes, id: Option<LogId>) {
    if id.None? then key !in m else key in m && m[key] == c.encodeId(id.value)
  }

  ghost predicate Holds(s: Store, cf: ColumnFamily, c: Codec, a: AbsRaft) {
    && a.Valid()
    && var m := FamilyOf(s.db, cf);
    && Represents(m, LiveLog(c, a))
    && MetaIs(c, m, LAST_LOG_ID_KEY, a.LastId()) && MetaIs(c, m, LAST_PURGED_LOG_ID_KEY, a.purged)
    && (cf in s.cache ==> a.entries != [] && s.cache[cf] == |a.entries|)
  }

  datatype RaftOp = AppendBatch(entries: seq<Entry>) | PurgeTo(id: LogId)

  /** Appends continue the log within the batch limit; purges stay strictly below the last index. */
  predicate Legal(a: AbsRaft, op: RaftOp) {
    match op
    case AppendBatch(es) =>
      && |es| <= 100_000 && |a.entries| + |es| <= U64_MAX
      && forall i :: 0 <= i < |es| ==> es[i].id.index == |a.entries| + 1 + i
    case PurgeTo(id) => id.index < |a.entries|
  }

  function AbsStep(a: AbsRaft, op: RaftOp): (r: AbsRaft) {
    match op
    case AppendBatch(es) => a.(entries := a.entries + es)
    case PurgeTo(id) => a.(first := if id.index < a.first then a.first else id.index + 1, purged := Some(id))
  }

  ghost function Step(s: Store, cf: ColumnFamily, c: Codec, op: RaftOp): (r: (Store, Result<()>)) {
    match op
    case AppendBatch(es) => AppendEntries(s, cf, c, es)
    case PurgeTo(id) => PurgeThrough(s, cf, c, id)
  }

  // ----- Appending -----

  /** Metadata is invisible to the log. */
  lemma {:induction false} MetaPutRepresents(m: Family, a: AbsLog, key: bytes, value: bytes)
    requires Represents(m, a) && IsMetaKey(key)
    ensures Represents(m[key := value], a)
  {
    hide LogKey, ParseLogKey, IsLogKey, IsMetaKey;
    var r := m[key := value];
    forall i: nat | a.first <= i < a.Next() ensures Has(r, i) && r[LogKey(i)] == a.entries[i - a.first] {
      assert Has(m, i);
      LogKeyIsLogKey(i);
    }
  }

  /** Two families hold the same metadata. */
  predicate SameMeta(m: Family, r: Family) {
    && (LAST_LOG_ID_KEY in m <==> LAST_LOG_ID_KEY in r)
    && (LAST_PURGED_LOG_ID_KEY in m <==> LAST_PURGED_LOG_ID_KEY in r)
    && (LAST_LOG_ID_KEY in m ==> m[LAST_LOG_ID_KEY] == r[LAST_LOG_ID_KEY])
    && (LAST_PURGED_LOG_ID_KEY in m ==> m[LAST_PURGED_LOG_ID_KEY] == r[LAST_PURGED_LOG_ID_KEY])
  }

  lemma {:induction false} LogPutKeepsMeta(m: Family, i: nat, value: bytes)
    requires i <= U64_MAX
    ensures SameMeta(m, m[LogKey(i) := value])
  {
    LogKeyIsLogKey(i);
    hide LogKey;
  }

  lemma {:induction false} PutsRepresent(db: Db, cf: ColumnFamily, c: Codec, a: AbsLog, es: seq<Entry>)
    requires Represents(FamilyOf(db, cf), a) && a.Next() + |es| <= U64_MAX + 1
    requires forall i :: 0 <= i < |es| ==> es[i].id.index == a.Next() + i
    ensures var r := FamilyOf(ApplyOps(db, PutsFor(cf, c, es)), cf);
            Represents(r, AbsLog(a.first, a.entries + Stored(c, es))) && SameMeta(FamilyOf(db, cf), r)
    decreases |es|
  {
    hide Represents, LogKey, SerializePayload, SameMeta, Ascii, ApplyOp;
    if es == [] {
      assert a.entries + Stored(c, es) == a.entries;
      assert SameMeta(FamilyOf(db, cf), FamilyOf(db, cf)) by { SameMetaReflexive(FamilyOf(db, cf)); }
    } else {
      var n := |es| - 1;
      var init, e := es[..n], es[n];
      PutsRepresent(db, cf, c, a, init);
      var mid := ApplyOps(db, PutsFor(cf, c, init));
      var b := AbsLog(a.first, a.entries + Stored(c, init));
      var op := Put(cf, LogKey(e.id.index), SerializePayload(c, e));
      ApplySnoc(db, PutsFor(cf, c, init), op);
      ApplyOne(mid, op);
      PutRepresents(mid, cf, b, SerializePayload(c, e));
      PutFrame(mid, op);
      LogPutKeepsMeta(FamilyOf(mid, cf), e.id.index, SerializePayload(c, e));
      SameMetaTransitive(FamilyOf(db, cf), FamilyOf(mid, cf), FamilyOf(ApplyOps(db, PutsFor(cf, c, es)), cf));
      assert b.entries + [SerializePayload(c, e)] == a.entries + Stored(c, es);
    }
  }

  lemma {:induction false} SameMetaReflexive(m: Family)
    ensures SameMeta(m, m)
  {
  }

  lemma {:induction false} SameMetaTransitive(m: Family, n: Family, r: Family)
    requires SameMeta(m, n) && SameMeta(n, r)
    ensures SameMeta(m, r)
  {
  }

  lemma {:induction false} AppendHolds(s: Store, cf: ColumnFamily, c: Codec, a: AbsRaft, es: seq<Entry>)
    requires Holds(s, cf, c, a) && Legal(a, AppendBatch(es))
    ensures var (t, r) := AppendEntries(s, cf, c, es);
            r == Ok(()) && Holds(t, cf, c, AbsStep(a, AppendBatch(es)))
  {
    hide Represents, LogKey, SerializePayload, PutsFor, ApplyOps, IsMetaKey, Stored, Ascii, LiveLog, SameMeta;
    var b := AbsStep(a, AppendBatch(es));
    if es == [] {
      assert b == a;
    } else {
      PutsRepresent(s.db, cf, c, LiveLog(c, a), es);
      AppendedLive(c, a, es);
      RecordsLast(s.db, ApplyOps(s.db, PutsFor(cf, c, es)), cf, c, b, a.purged);
    }
  }

  /** A longer batch is refused and changes nothing. */
  lemma {:induction false} OversizedAppend(s: Store, cf: ColumnFamily, c: Codec, es: seq<Entry>)
    ensures |es| > 100_000 <==> AppendEntries(s, cf, c, es) == (s, Err(BatchTooLarge(|es|)))
  {
    if 0 < |es| <= 100_000 { assert AppendEntries(s, cf, c, es).1 == Ok(()); }
  }

  /** The metadata write of an append. */
  lemma {:induction false} RecordsLast(db: Db, mid: Db, cf: ColumnFamily, c: Codec, b: AbsRaft, purged: Option<LogId>)
    requires b.Valid() && b.entries != [] && Represents(FamilyOf(mid, cf), LiveLog(c, b))
    requires SameMeta(FamilyOf(db, cf), FamilyOf(mid, cf)) && MetaIs(c, FamilyOf(db, cf), LAST_PURGED_LOG_ID_KEY, purged)
    ensures var m := FamilyOf(ApplyOps(mid, [Put(cf, LAST_LOG_ID_KEY, c.encodeId(b.LastId().value))]), cf);
            && Represents(m, LiveLog(c, b))
            && MetaIs(c, m, LAST_LOG_ID_KEY, b.LastId()) && MetaIs(c, m, LAST_PURGED_LOG_ID_KEY, purged)
  {
    hide Represents, LogKey, ApplyOps, IsMetaKey, Stored, Ascii, LiveLog;
    var id := b.LastId().value;
    PutFrame(mid, Put(cf, LAST_LOG_ID_KEY, c.encodeId(id)));
    LastIdIsMeta();
    MetaPutRepresents(FamilyOf(mid, cf), LiveLog(c, b), LAST_LOG_ID_KEY, c.encodeId(id));
    MetaKeysDiffer();
  }

  lemma {:induction false} AppendedLive(c: Codec, a: AbsRaft, es: seq<Entry>)
    requires a.Valid() && Legal(a, AppendBatch(es)) && es != []
    ensures var b := AbsStep(a, AppendBatch(es));
            && b.Valid() && b.LastId() == Some(es[|es| - 1].id) && b.purged == a.purged
            && |b.entries| == es[|es| - 1].id.index
            && AbsLog(LiveLog(c, a).first, LiveLog(c, a).entries + Stored(c, es)) == LiveLog(c, b)
  {
    hide SerializePayload, Stored;
    var b := AbsStep(a, AppendBatch(es));
    assert b.entries[b.first - 1..] == a.entries[a.first - 1..] + es;
    StoredConcat(c, a.entries[a.first - 1..], es);
  }

  lemma {:induction false} StoredConcat(c: Codec, a: seq<Entry>, b: seq<Entry>)
    ensures Stored(c, a + b) == Stored(c, a) + Stored(c, b)
  {
    hide SerializePayload;
  }

  lemma {:induction false} LastIdIsMeta()
    ensures IsMetaKey(LAST_LOG_ID_KEY) && IsMetaKey(LAST_PURGED_LOG_ID_KEY)
  {
  }

  // ----- Purging -----

  lemma {:induction false} TruncateKeepsMeta(m: Family, n: nat)
    requires n <= U64_MAX
    ensures SameMeta(m, WithoutUpTo(m, n))
  {
    WithoutUpToKeys(m, n);
    MetaBelowLog(LAST_LOG_ID_KEY, 0);
    MetaBelowLog(LAST_PURGED_LOG_ID_KEY, 0);
    hide WithoutUpTo, LogKey, ParseLogKey;
  }

  /** The last index a store that holds a non-empty log reports. */
  lemma {:induction false} LastHeld(s: Store, cf: ColumnFamily, c: Codec, a: AbsRaft)
    requires Holds(s, cf, c, a) && cf.IsLog() && a.entries != []
    ensures CachedLast(s, cf).1 == Ok(Some(|a.entries|))
    ensures CachedLast(s, cf).0 == s.(cache := s.cache[cf := |a.entries|])
  {
    hide Represents, LastIndexIn, HasMeta, Stored;
    LastOfLog(FamilyOf(s.db, cf), LiveLog(c, a));
    assert LiveLog(c, a).entries != [] by { LiveIsNonEmpty(c, a); }
    if cf in s.cache { assert s.cache[cf := |a.entries|] == s.cache; }
  }

  lemma {:induction false} LiveIsNonEmpty(c: Codec, a: AbsRaft)
    requires a.Valid() && a.entries != []
    ensures LiveLog(c, a).entries != []
  {
    assert |a.entries[a.first - 1..]| > 0;
  }

  lemma {:induction false} PurgeHolds(s: Store, cf: ColumnFamily, c: Codec, a: AbsRaft, id: LogId)
    requires Holds(s, cf, c, a) && cf.IsLog() && Legal(a, PurgeTo(id))
    ensures var (t, r) := PurgeThrough(s, cf, c, id);
            r == Ok(()) && Holds(t, cf, c, AbsStep(a, PurgeTo(id)))
  {
    hide Represents, LogKey, ApplyOps, IsMetaKey, CachedLast, DeletesUpTo, WithoutUpTo, AbsTruncate, Stored;
    var b := AbsStep(a, PurgeTo(id));
    LastHeld(s, cf, c, a);
    var s1 := CachedLast(s, cf).0;
    var n := id.index;
    var m := FamilyOf(s.db, cf);
    LiveIsNonEmpty(c, a);
    WithoutRepresents(m, LiveLog(c, a), n + 1);
    DeletesEffect(s1.db, cf, n);
    TruncateKeepsMeta(m, n);
    TruncatedLive(c, a, id);
    var mid := ApplyOps(s1.db, DeletesUpTo(cf, n));
    var op := Put(cf, LAST_PURGED_LOG_ID_KEY, c.encodeId(id));
    PutFrame(mid, op);
    LastIdIsMeta();
    MetaPutRepresents(FamilyOf(mid, cf), LiveLog(c, b), LAST_PURGED_LOG_ID_KEY, c.encodeId(id));
    MetaKeysDiffer();
  }

  lemma {:induction false} TruncatedLive(c: Codec, a: AbsRaft, id: LogId)
    requires a.Valid() && Legal(a, PurgeTo(id))
    ensures AbsStep(a, PurgeTo(id)).Valid()
    ensures AbsTruncate(LiveLog(c, a), id.index + 1) == LiveLog(c, AbsStep(a, PurgeTo(id)))
  {
    var b := AbsStep(a, PurgeTo(id));
    if id.index >= a.first {
      var es, fs := a.entries[a.first - 1..], a.entries[b.first - 1..];
      assert fs == es[b.first - a.first..];
      assert Stored(c, fs) == Stored(c, es)[b.first - a.first..];
    }
  }

  /**
    * When a purge is answered with success. After the whole log has been purged only metadata keys are
    * left; then, with nothing cached, the next purge reads a metadata key as the last entry and fails.
    */
  lemma {:induction false} PurgeSucceedsExactly(s: Store, cf: ColumnFamily, c: Codec, a: AbsLog, id: LogId)
    requires cf.IsLog() && Represents(FamilyOf(s.db, cf), a) && id.index < U64_MAX
    requires cf in s.cache ==> s.cache[cf] <= U64_MAX
    ensures PurgeThrough(s, cf, c, id).1 == Ok(()) <==> cf in s.cache || a.entries != [] || !HasMeta(FamilyOf(s.db, cf))
  {
    hide Represents, LogKey, ApplyOps, LastIndexIn, DeletesUpTo, HasMeta;
    LastOfLog(FamilyOf(s.db, cf), a);
    assert a.Next() <= U64_MAX + 1 by { RepresentsValid(FamilyOf(s.db, cf), a); }
  }

  lemma {:induction false} RepresentsValid(m: Family, a: AbsLog)
    requires Represents(m, a)
    ensures a.Valid()
  {
  }

  // ----- Reading -----

  /** The entries with indices from `i` to `end` that are still in the log. */
  function Slice(a: AbsRaft, i: nat, end: u64): (es: seq<Entry>)
    requires a.Valid()
  {
    var lo := if i < a.first then a.first - 1 else if i > |a.entries| then |a.entries| else i - 1;
    var hi := if end >= |a.entries| then |a.entries| else end;
    if lo <= hi then a.entries[lo..hi] else []
  }

  /** Entries as the readers rebuild their ids. */
  function Rebuilt(last: Option<LogId>, es: seq<Entry>): (r: seq<Entry>) {
    seq(|es|, i requires 0 <= i < |es| => Entry(IdFor(last, es[i].id.index), es[i].payload))
  }

  lemma {:induction false} ReadsBack(c: Codec, m: Family, a: AbsRaft, last: Option<LogId>, i: nat, end: u64)
    requires a.Valid() && Represents(m, LiveLog(c, a))
    requires forall j :: 0 <= j < |a.entries| ==> Intact(c, a.entries[j])
    ensures ReadFrom(c, m, last, i, end) == Entries(Rebuilt(last, Slice(a, i, end)))
    decreases end + 1 - i
  {
    hide LogKey, DeserializePayload, SerializePayload, Represents, Slice, Stored;
    if i <= end {
      ReadsBack(c, m, a, last, i + 1, end);
      RepresentsHas(m, LiveLog(c, a), i);
      if a.first <= i <= |a.entries| {
        var e := a.entries[i - 1];
        StoredAt(c, m, a, i);
        assert Intact(c, e);
        RebuiltCons(last, e, Slice(a, i + 1, end));
      }
    }
    SliceStep(a, i, end);
  }

  /** A slice begins with the entry at `i` when that one is live. */
  lemma {:induction false} SliceStep(a: AbsRaft, i: nat, end: u64)
    requires a.Valid()
    ensures Slice(a, i, end) ==
            if i > end then []
            else if a.first <= i <= |a.entries| then [a.entries[i - 1]] + Slice(a, i + 1, end)
            else Slice(a, i + 1, end)
  {
  }

  lemma {:induction false} RebuiltCons(last: Option<LogId>, e: Entry, es: seq<Entry>)
    ensures Rebuilt(last, [e] + es) == [Entry(IdFor(last, e.id.index), e.payload)] + Rebuilt(last, es)
  {
  }

  /** The live entries among the first `n` whose index lies within the bounds. */
  function LiveUpTo(a: AbsRaft, lower: Bound, upper: Bound, n: nat): (es: seq<Entry>)
    requires n <= |a.entries|
  {
    if n == 0 then []
    else
      LiveUpTo(a, lower, upper, n - 1) +
      (if a.first <= n && Above(lower, n) && Beneath(upper, n) then [a.entries[n - 1]] else [])
  }

  /** The entries of a range: appended, not purged, and within the bounds. */
  function LiveIn(a: AbsRaft, lower: Bound, upper: Bound): (es: seq<Entry>) {
    LiveUpTo(a, lower, upper, |a.entries|)
  }

  lemma {:induction false} LiveUpToSlice(a: AbsRaft, lower: Bound, upper: Bound, n: nat)
    requires a.Valid() && BoundsFit(lower, upper) && n <= |a.entries|
    ensures var i, end := StartOf(lower), EndOf(upper);
            var lo := if i < a.first then a.first - 1 else if i > |a.entries| then |a.entries| else i - 1;
            var hi := if end >= n then n else end;
            LiveUpTo(a, lower, upper, n) == if lo <= hi then a.entries[lo..hi] else []
  {
    hide StartOf, EndOf, Above, Beneath;
    if n > 0 {
      LiveUpToSlice(a, lower, upper, n - 1);
      BoundsMean(lower, upper, n);
    }
  }

  lemma {:induction false} LiveIsSlice(a: AbsRaft, lower: Bound, upper: Bound)
    requires a.Valid() && BoundsFit(lower, upper)
    ensures LiveIn(a, lower, upper) == Slice(a, StartOf(lower), EndOf(upper))
  {
    hide LiveUpTo;
    LiveUpToSlice(a, lower, upper, |a.entries|);
  }

  /** An entry is returned exactly when it is live and within the bounds. */
  lemma {:induction false} LiveInExactly(a: AbsRaft, lower: Bound, upper: Bound, e: Entry)
    requires a.Valid()
    ensures e in LiveIn(a, lower, upper) <==>
            e in a.entries && a.first <= e.id.index && Above(lower, e.id.index) && Beneath(upper, e.id.index)
  {
    LiveUpToExactly(a, lower, upper, |a.entries|, e);
    assert a.entries[..|a.entries|] == a.entries;
  }

  lemma {:induction false} LiveUpToExactly(a: AbsRaft, lower: Bound, upper: Bound, n: nat, e: Entry)
    requires a.Valid() && n <= |a.entries|
    ensures e in LiveUpTo(a, lower, upper, n) <==>
            e in a.entries[..n] && a.first <= e.id.index && Above(lower, e.id.index) && Beneath(upper, e.id.index)
  {
    hide Above, Beneath;
    if n > 0 {
      LiveUpToExactly(a, lower, upper, n - 1, e);
      assert a.entries[..n] == a.entries[..n - 1] + [a.entries[n - 1]];
    }
  }

  lemma {:induction false} EmptySlice(a: AbsRaft, i: nat, end: u64)
    requires a.Valid() && a.entries == []
    ensures Slice(a, i, end) == []
  {
  }

  lemma {:induction false} SliceMembers(a: AbsRaft, i: nat, end: u64)
    requires a.Valid()
    ensures forall e :: e in Slice(a, i, end) ==> e in a.entries && e.id.index <= |a.entries|
  {
  }

  lemma {:induction false} StoredAt(c: Codec, m: Family, a: AbsRaft, i: nat)
    requires a.Valid() && Represents(m, LiveLog(c, a)) && a.first <= i <= |a.entries|
    ensures LogKey(i) in m && m[LogKey(i)] == SerializePayload(c, a.entries[i - 1])
  {
    hide LogKey, SerializePayload, IsMetaKey, ParseLogKey;
    assert Has(m, i) && m[LogKey(i)] == LiveLog(c, a).entries[i - a.first];
  }

  /** Rebuilt ids are the original ids exactly when term and node of the last id are everyone's. */
  lemma {:induction false} RebuiltExactly(last: LogId, es: seq<Entry>)
    requires forall j :: 0 <= j < |es| ==> es[j].id.index <= last.index
    ensures Rebuilt(Some(last), es) == es <==>
            forall j :: 0 <= j < |es| ==> es[j].id.term == last.term && es[j].id.node == last.node
  {
    var r := Rebuilt(Some(last), es);
    if r == es {
      forall j | 0 <= j < |es| ensures es[j].id.term == last.term && es[j].id.node == last.node {
        assert r[j] == es[j];
      }
    }
  }

  // ----- Whole runs -----

  function AbsRun(a: AbsRaft, ops: seq<RaftOp>): (r: AbsRaft)
    decreases |ops|
  {
    if ops == [] then a else AbsRun(AbsStep(a, ops[0]), ops[1..])
  }

  predicate LegalRun(a: AbsRaft, ops: seq<RaftOp>)
    decreases |ops|
  {
    ops != [] ==> Legal(a, ops[0]) && LegalRun(AbsStep(a, ops[0]), ops[1..])
  }

  ghost function Run(s: Store, cf: ColumnFamily, c: Codec, ops: seq<RaftOp>): (r: (Store, bool))
    decreases |ops|
  {
    if ops == [] then (s, true)
    else
      var (t, r) := Step(s, cf, c, ops[0]);
      var (u, ok) := Run(t, cf, c, ops[1..]);
      (u, r == Ok(()) && ok)
  }

  lemma {:induction false} RunHolds(s: Store, cf: ColumnFamily, c: Codec, a: AbsRaft, ops: seq<RaftOp>)
    requires Holds(s, cf, c, a) && cf.IsLog() && LegalRun(a, ops)
    ensures Run(s, cf, c, ops).1 && Holds(Run(s, cf, c, ops).0, cf, c, AbsRun(a, ops))
    decreases |ops|
  {
    hide Holds, AppendEntries, PurgeThrough, Legal;
    if ops != [] {
      match ops[0] {
        case AppendBatch(es) => AppendHolds(s, cf, c, a, es);
        case PurgeTo(id) => PurgeHolds(s, cf, c, a, id);
      }
      RunHolds(Step(s, cf, c, ops[0]).0, cf, c, AbsStep(a, ops[0]), ops[1..]);
    }
  }

  lemma {:induction false} EmptyHolds(cf: ColumnFamily, c: Codec)
    ensures Holds(EMPTY_STORE, cf, c, EMPTY_RAFT)
  {
  }

  /**
    * Over every legal run of appends and purges from an empty store no operation fails, `get_log_state`
    * reports the last purged and the last appended id, and both readers return exactly the entries of
    * the range that were appended and not purged, payloads intact, with term and node of the last id.
    */
  lemma {:induction false} AppendPurgeRuns(cf: ColumnFamily, c: Codec, ops: seq<RaftOp>, lower: Bound, upper: Bound)
    requires cf.IsLog() && Faithful(c) && LegalRun(EMPTY_RAFT, ops)
    requires forall e :: e in AbsRun(EMPTY_RAFT, ops).entries ==> Intact(c, e)
    ensures var (s, ok) := Run(EMPTY_STORE, cf, c, ops);
            var a, m := AbsRun(EMPTY_RAFT, ops), FamilyOf(s.db, cf);
            && ok && a.Valid() && Canonical(m)
            && LogStateOf(c, m) == Ok(LogState(a.purged, a.LastId()))
            && ReadRange(c, m, lower, upper) ==
               if lower == Excluded(U64_MAX) || upper == Excluded(0) then Overflow
               else Entries(Rebuilt(a.LastId(), LiveIn(a, lower, upper)))
  {
    EmptyHolds(cf, c);
    RunHolds(EMPTY_STORE, cf, c, EMPTY_RAFT, ops);
    hide Run, AbsRun, LegalRun;
    HeldLog(Run(EMPTY_STORE, cf, c, ops).0, cf, c, AbsRun(EMPTY_RAFT, ops), lower, upper);
  }

  lemma {:induction false} HeldLog(s: Store, cf: ColumnFamily, c: Codec, a: AbsRaft, lower: Bound, upper: Bound)
    requires Holds(s, cf, c, a) && Faithful(c)
    requires forall e :: e in a.entries ==> Intact(c, e)
    ensures var m := FamilyOf(s.db, cf);
            && Canonical(m)
            && LogStateOf(c, m) == Ok(LogState(a.purged, a.LastId()))
            && ReadRange(c, m, lower, upper) ==
               if lower == Excluded(U64_MAX) || upper == Excluded(0) then Overflow
               else Entries(Rebuilt(a.LastId(), LiveIn(a, lower, upper)))
  {
    hide Represents, LogKey, ReadFrom, Slice, LiveIn, Rebuilt, Stored, Intact, Ascii, Canonical, LogStateOf;
    var m := FamilyOf(s.db, cf);
    RepresentsCanonical(m, LiveLog(c, a));
    HeldState(s, cf, c, a);
    if BoundsFit(lower, upper) {
      ReadsBack(c, m, a, a.LastId(), StartOf(lower), EndOf(upper));
      LiveIsSlice(a, lower, upper);
    }
  }

  lemma {:induction false} HeldState(s: Store, cf: ColumnFamily, c: Codec, a: AbsRaft)
    requires Holds(s, cf, c, a) && Faithful(c)
    ensures var m := FamilyOf(s.db, cf);
            LogStateOf(c, m) == Ok(LogState(a.purged, a.LastId())) && LastForScan(c, m) == a.LastId()
  {
    hide Represents, LogKey, LastIndexIn, Stored, Ascii;
    LastOfLog(FamilyOf(s.db, cf), LiveLog(c, a));
    LiveIsEmpty(c, a);
  }

  lemma {:induction false} LiveIsEmpty(c: Codec, a: AbsRaft)
    requires a.Valid()
    ensures a.entries == [] ==> LiveLog(c, a).entries == []
  {
  }

  /**
    * Over every legal run, readers return the appended entries themselves exactly when the entries of the
    * range share term and node with the last entry of the log, as they do when one leader wrote it.
    */
  lemma {:induction false} OneLeaderReads(cf: ColumnFamily, c: Codec, ops: seq<RaftOp>, lower: Bound, upper: Bound)
    requires cf.IsLog() && Faithful(c) && LegalRun(EMPTY_RAFT, ops) && BoundsFit(lower, upper)
    requires forall e :: e in AbsRun(EMPTY_RAFT, ops).entries ==> Intact(c, e)
    ensures var a := AbsRun(EMPTY_RAFT, ops);
            a.Valid() &&
            var es := LiveIn(a, lower, upper);
            ReadRange(c, FamilyOf(Run(EMPTY_STORE, cf, c, ops).0.db, cf), lower, upper) == Entries(es) <==>
            forall e :: e in es ==> SameLeader(e.id, a.LastId())
  {
    hide Run, AbsRun, LegalRun, ReadRange, Slice, Intact, LiveIn;
    AppendPurgeRuns(cf, c, ops, lower, upper);
    var a := AbsRun(EMPTY_RAFT, ops);
    var es := LiveIn(a, lower, upper);
    LiveIsSlice(a, lower, upper);
    SliceMembers(a, StartOf(lower), EndOf(upper));
    if a.entries == [] {
      EmptySlice(a, StartOf(lower), EndOf(upper));
      assert Rebuilt(None, es) == es;
    } else {
      forall j | 0 <= j < |es| ensures es[j].id.index <= a.LastId().value.index {
        assert es[j] in es;
      }
      RebuiltExactly(a.LastId().value, es);
      assert (forall e :: e in es ==> SameLeader(e.id, a.LastId())) <==> (forall j :: 0 <= j < |es| ==> SameLeader(es[j].id, a.LastId()));
    }
  }

  predicate SameLeader(id: LogId, last: Option<LogId>) {
    last.Some? && id.term == last.value.term && id.node == last.value.node
  }

  // ----- Inputs on which the readers and the purge fail -----

  /** Two leaders wrote one entry each: reading both back changes the first one's term. */
  lemma {:induction false} TwoLeadersMisread(cf: ColumnFamily, c: Codec)
    requires cf.IsLog() && Faithful(c)
    ensures var es := [Entry(LogId(1, 1, 1), Blank), Entry(LogId(2, 1, 2), Blank)];
            ReadRange(c, FamilyOf(Run(EMPTY_STORE, cf, c, [AppendBatch(es)]).0.db, cf), Included(1), Included(2)) ==
            Entries([Entry(LogId(2, 1, 1), Blank), Entry(LogId(2, 1, 2), Blank)])
  {
    hide Run, ReadRange, LogKey, Intact, LiveIn, Rebuilt, AbsRun, LegalRun, AbsRaft.Valid, Faithful;
    var es := [Entry(LogId(1, 1, 1), Blank), Entry(LogId(2, 1, 2), Blank)];
    TwoLeaders(es);
    forall e | e in es ensures Intact(c, e) { PayloadRoundTrip(c, e); }
    AppendPurgeRuns(cf, c, [AppendBatch(es)], Included(1), Included(2));
  }

  lemma {:induction false} TwoLeaders(es: seq<Entry>)
    requires es == [Entry(LogId(1, 1, 1), Blank), Entry(LogId(2, 1, 2), Blank)]
    ensures LegalRun(EMPTY_RAFT, [AppendBatch(es)])
    ensures var a := AbsRun(EMPTY_RAFT, [AppendBatch(es)]);
            && a == AbsRaft(es, 1, None) && a.Valid() && LiveIn(a, Included(1), Included(2)) == es
            && Rebuilt(a.LastId(), es) == [Entry(LogId(2, 1, 1), Blank), Entry(LogId(2, 1, 2), Blank)]
  {
    assert [AppendBatch(es)][1..] == [] && EMPTY_RAFT.entries + es == es;
    var a := AbsRaft(es, 1, None);
    assert AbsRun(EMPTY_RAFT, [AppendBatch(es)]) == AbsRun(a, []);
    LiveIsSlice(a, Included(1), Included(2));
    assert Slice(a, 1, 2) == es;
  }

  /** What a purge of the whole log leaves: metadata keys and nothing else, and nothing cached. */
  lemma {:induction false} PurgeAllLeavesMeta(s: Store, cf: ColumnFamily, c: Codec, l: AbsLog, id: LogId)
    requires cf.IsLog() && Represents(FamilyOf(s.db, cf), l) && l.entries != []
    requires l.Next() - 1 <= id.index < U64_MAX && CachedLast(s, cf).1 == Ok(Some(l.Next() - 1))
    ensures var (t, r) := PurgeThrough(s, cf, c, id);
            && r == Ok(()) && cf !in t.cache
            && Represents(FamilyOf(t.db, cf), EMPTY_LOG) && HasMeta(FamilyOf(t.db, cf))
  {
    hide Represents, LogKey, ApplyOps, IsMetaKey, CachedLast, DeletesUpTo, WithoutUpTo;
    CachedLastFrame(s, cf);
    var n := l.Next() - 1;
    var m := FamilyOf(s.db, cf);
    WithoutRepresents(m, l, id.index + 1);
    DeletesEffect(s.db, cf, n);
    var mid := ApplyOps(s.db, DeletesUpTo(cf, n));
    PutFrame(mid, Put(cf, LAST_PURGED_LOG_ID_KEY, c.encodeId(id)));
    LastIdIsMeta();
    MetaPutRepresents(FamilyOf(mid, cf), EMPTY_LOG, LAST_PURGED_LOG_ID_KEY, c.encodeId(id));
  }

  /** After any legal run that appended something, purging the whole log makes every further purge fail. */
  lemma {:induction false} PurgeAfterPurgeAllFails(cf: ColumnFamily, c: Codec, ops: seq<RaftOp>, id: LogId, again: LogId)
    requires cf.IsLog() && LegalRun(EMPTY_RAFT, ops) && AbsRun(EMPTY_RAFT, ops).entries != []
    requires |AbsRun(EMPTY_RAFT, ops).entries| <= id.index < U64_MAX && again.index < U64_MAX
    ensures var s := Run(EMPTY_STORE, cf, c, ops).0;
            var (t, r) := PurgeThrough(s, cf, c, id);
            r == Ok(()) && PurgeThrough(t, cf, c, again).1 == Err(CorruptedData)
  {
    hide Run, AbsRun, LegalRun, Represents, HasMeta, PurgeThrough, MetaIs, CachedLast, Stored;
    EmptyHolds(cf, c);
    RunHolds(EMPTY_STORE, cf, c, EMPTY_RAFT, ops);
    var s, a := Run(EMPTY_STORE, cf, c, ops).0, AbsRun(EMPTY_RAFT, ops);
    LastHeld(s, cf, c, a);
    LiveIsNonEmpty(c, a);
    PurgeAllLeavesMeta(s, cf, c, LiveLog(c, a), id);
    PurgeOfMetaFails(PurgeThrough(s, cf, c, id).0, cf, c, again);
  }

  lemma {:induction false} PurgeOfMetaFails(s: Store, cf: ColumnFamily, c: Codec, id: LogId)
    requires cf.IsLog() && cf !in s.cache && Represents(FamilyOf(s.db, cf), EMPTY_LOG) && HasMeta(FamilyOf(s.db, cf))
    requires id.index < U64_MAX
    ensures PurgeThrough(s, cf, c, id).1 == Err(CorruptedData)
  {
    hide Represents, HasMeta, LastIndexIn;
    LastOfLog(FamilyOf(s.db, cf), EMPTY_LOG);
  }

  lemma {:induction false} CachedLastFrame(s: Store, cf: ColumnFamily)
    ensures var t := CachedLast(s, cf).0; t.db == s.db && t.wal == s.wal && t.synced == s.synced
  {
  }

  /** Two databases agree outside one family. */
  ghost predicate SameElsewhere(a: Db, b: Db, cf: ColumnFamily) {
    forall other: ColumnFamily :: other != cf ==> FamilyOf(a, other) == FamilyOf(b, other)
  }

  lemma {:induction false} TruncateFrame(s: Store, cf: ColumnFamily, before: u64)
    requires s.Valid()
    ensures var t := TruncateLog(s, cf, before).0; t.Valid() && SameElsewhere(t.db, s.db, cf)
  {
    hide CachedLast, ApplyOps, DeletesUpTo, FamilyOf, WithoutUpTo, Contents, LogKey;
    CachedLastFrame(s, cf);
    var (s1, last) := CachedLast(s, cf);
    if cf.IsLog() && last.Ok? && last.value.Some? && last.value.value <= U64_MAX {
      var n := last.value.value;
      var upTo := if before > n then n else if before == 0 then 0 else before - 1;
      DeletesEffect(s1.db, cf, upTo);
      CommitValid(s1, DeletesUpTo(cf, upTo));
    }
  }

  /** A purge leaves the other families alone. */
  lemma {:induction false} PurgeFrame(s: Store, cf: ColumnFamily, c: Codec, id: LogId)
    requires s.Valid()
    ensures var t := PurgeThrough(s, cf, c, id).0; t.Valid() && SameElsewhere(t.db, s.db, cf)
  {
    hide TruncateLog, ApplyOps, FamilyOf, Contents, Ascii;
    if id.index < U64_MAX {
      TruncateFrame(s, cf, id.index + 1);
      var t := TruncateLog(s, cf, id.index + 1).0;
      var op := Put(cf, LAST_PURGED_LOG_ID_KEY, c.encodeId(id));
      PutFrame(t.db, op);
      CommitValid(t, [op]);
    }
  }
}
