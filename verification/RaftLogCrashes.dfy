/**
  * Runs of appends, purges and restarts on the Raft log. An append is two writes, its entries and then
  * the last id; a purge is two writes, the deletes and then the purged id. A crash keeps any prefix of
  * the writes since the last synced one, so it can fall between the two.
  */
module RaftLogCrashes {
  import opened Bytes
  import opened Decimal
  import opened LogKeys
  import opened RocksStore
  import opened LogStore
  import opened LogRuns
  import opened RaftLog
  import opened RaftLogRuns

  /** The log and the last id recorded in its metadata, which may be that of an earlier entry. */
  datatype Snap = Snap(raft: AbsRaft, recorded: Option<LogId>)
  {
    predicate Valid() {
      && raft.Valid() && (raft.purged.Some? ==> raft.entries != [])
      && (recorded.Some? ==>
            1 <= recorded.value.index <= |raft.entries| && raft.entries[recorded.value.index - 1].id == recorded.value)
    }

    /** The last id `get_log_state` reports: the recorded one, or the greatest index without a leader. */
    function Reported(): (r: Option<LogId>)
      requires Valid()
    {
      if recorded.Some? then recorded else if raft.entries == [] then None else Some(LogId(0, 0, |raft.entries|))
    }
  }

  /** The log after every write so far, and how many writes are safe from a crash. */
  datatype NodeLog = NodeLog(history: seq<Snap>, synced: nat)
  {
    function Now(): (x: Snap)
      requires history != []
    {
      history[|history| - 1]
    }
  }

  const NEW_LOG := NodeLog([Snap(EMPTY_RAFT, None)], 0)

  datatype LogStep = Batch(op: RaftOp) | Reopened(keep: nat)

  predicate LegalStep(t: NodeLog, st: LogStep)
    requires t.history != []
  {
    match st
    case Batch(op) => Legal(t.Now().raft, op)
    case Reopened(keep) => t.synced <= keep < |t.history|
  }

  /** The log between the two writes of an operation, and after them. */
  function Halfway(x: Snap, op: RaftOp): (y: Snap) {
    match op
    case AppendBatch(es) => x.(raft := x.raft.(entries := x.raft.entries + es))
    case PurgeTo(id) => x.(raft := RaftLogRuns.AbsStep(x.raft, op).(purged := x.raft.purged))
  }

  function Whole(x: Snap, op: RaftOp): (y: Snap) {
    var raft := RaftLogRuns.AbsStep(x.raft, op);
    match op
    case AppendBatch(es) => Snap(raft, if es == [] then x.recorded else Some(es[|es| - 1].id))
    case PurgeTo(_) => Snap(raft, x.recorded)
  }

  function NodeStep(t: NodeLog, st: LogStep): (r: NodeLog)
    requires t.history != [] && LegalStep(t, st)
    ensures r.history != []
  {
    match st
    case Batch(op) =>
      if op.AppendBatch? && op.entries == [] then t
      else t.(history := t.history + [Halfway(t.Now(), op)] + [Whole(t.Now(), op)])
    case Reopened(keep) => NodeLog(t.history[..keep + 1], keep)
  }

  ghost function StoreStep(s: Store, cf: ColumnFamily, c: Codec, st: LogStep): (r: (Store, Result<()>)) {
    match st
    case Batch(op) => RaftLogRuns.Step(s, cf, c, op)
    case Reopened(keep) => if keep <= |s.wal| then Reopen(s, keep) else (s, Ok(()))
  }

  // ----- The simulation -----

  ghost predicate FamilyIs(m: Family, c: Codec, x: Snap) {
    && x.Valid() && Represents(m, LiveLog(c, x.raft))
    && MetaIs(c, m, LAST_LOG_ID_KEY, x.recorded) && MetaIs(c, m, LAST_PURGED_LOG_ID_KEY, x.raft.purged)
  }

  predicate OthersEmpty(db: Db, cf: ColumnFamily) {
    forall other: ColumnFamily :: other != cf && other.IsLog() ==> FamilyOf(db, other) == map[]
  }

  ghost predicate DbIs(db: Db, cf: ColumnFamily, c: Codec, x: Snap) {
    FamilyIs(FamilyOf(db, cf), c, x) && OthersEmpty(db, cf)
  }

  ghost predicate HistoryIs(wal: seq<seq<WriteOp>>, history: seq<Snap>, cf: ColumnFamily, c: Codec)
    requires |history| == |wal| + 1
  {
    forall p :: 0 <= p <= |wal| ==> DbIs(Contents(wal[..p]), cf, c, history[p])
  }

  predicate CacheIs(cache: map<ColumnFamily, nat>, cf: ColumnFamily, x: Snap) {
    forall other :: other in cache ==> other == cf && x.raft.entries != [] && cache[other] == |x.raft.entries|
  }

  ghost predicate Simulates(s: Store, cf: ColumnFamily, c: Codec, t: NodeLog) {
    && s.Valid() && cf.IsLog() && t.synced == s.synced && |t.history| == |s.wal| + 1
    && HistoryIs(s.wal, t.history, cf, c) && CacheIs(s.cache, cf, t.Now())
  }

  lemma {:induction false} NowIs(s: Store, cf: ColumnFamily, c: Codec, t: NodeLog)
    requires Simulates(s, cf, c, t)
    ensures DbIs(s.db, cf, c, t.Now())
  {
    hide DbIs;
    assert s.wal[..|s.wal|] == s.wal;
    assert DbIs(Contents(s.wal[..|s.wal|]), cf, c, t.history[|s.wal|]);
  }

  lemma {:induction false} PushHistory(wal: seq<seq<WriteOp>>, history: seq<Snap>, cf: ColumnFamily, c: Codec, ops: seq<WriteOp>, x: Snap)
    requires |history| == |wal| + 1 && HistoryIs(wal, history, cf, c) && DbIs(ApplyOps(Contents(wal), ops), cf, c, x)
    ensures HistoryIs(wal + [ops], history + [x], cf, c)
  {
    hide DbIs, ApplyOps;
    var w := wal + [ops];
    forall p | 0 <= p <= |w| ensures DbIs(Contents(w[..p]), cf, c, (history + [x])[p]) {
      if p <= |wal| {
        assert w[..p] == wal[..p];
      } else {
        assert w[..p] == w && w[..|w| - 1] == wal;
      }
    }
  }

  /** One write, and the snapshot it leads to. */
  lemma {:induction false} WriteSimulates(s: Store, cf: ColumnFamily, c: Codec, t: NodeLog, ops: seq<WriteOp>, x: Snap, cache: map<ColumnFamily, nat>)
    requires Simulates(s, cf, c, t) && !BatchRequiresFsync(ops) && DbIs(ApplyOps(s.db, ops), cf, c, x) && CacheIs(cache, cf, x)
    ensures Simulates(Commit(s, ops).(cache := cache), cf, c, t.(history := t.history + [x]))
  {
    hide DbIs, ApplyOps, HistoryIs, BatchRequiresFsync, CacheIs, Contents;
    PushHistory(s.wal, t.history, cf, c, ops, x);
    CommitValid(s, ops);
  }

  // ----- Appending -----

  lemma {:induction false} PutsFrame(db: Db, cf: ColumnFamily, c: Codec, es: seq<Entry>)
    ensures SameElsewhere(ApplyOps(db, PutsFor(cf, c, es)), db, cf)
    decreases |es|
  {
    hide LogKey, SerializePayload, FamilyOf, ApplyOp;
    if es != [] {
      var init, e := es[..|es| - 1], es[|es| - 1];
      PutsFrame(db, cf, c, init);
      var op := Put(cf, LogKey(e.id.index), SerializePayload(c, e));
      ApplySnoc(db, PutsFor(cf, c, init), op);
      var mid := ApplyOps(db, PutsFor(cf, c, init));
      ApplyOne(mid, op);
      PutFrame(mid, op);
    }
  }

  lemma {:induction false} PutsNeedNoFsync(cf: ColumnFamily, c: Codec, es: seq<Entry>)
    requires cf.IsLog()
    ensures !BatchRequiresFsync(PutsFor(cf, c, es))
    decreases |es|
  {
    hide LogKey, SerializePayload;
    if es != [] {
      PutsNeedNoFsync(cf, c, es[..|es| - 1]);
      var ops := PutsFor(cf, c, es);
      forall i | 0 <= i < |ops| ensures !ops[i].cf.RequiresFsync() {
        if i < |ops| - 1 { assert ops[i] == PutsFor(cf, c, es[..|es| - 1])[i]; }
      }
    }
  }

  lemma {:induction false} SameMetaIs(c: Codec, m: Family, r: Family, x: Snap)
    requires SameMeta(m, r) && MetaIs(c, m, LAST_LOG_ID_KEY, x.recorded) && MetaIs(c, m, LAST_PURGED_LOG_ID_KEY, x.raft.purged)
    ensures MetaIs(c, r, LAST_LOG_ID_KEY, x.recorded) && MetaIs(c, r, LAST_PURGED_LOG_ID_KEY, x.raft.purged)
  {
    hide Ascii;
  }

  lemma {:induction false} OthersStayEmpty(a: Db, b: Db, cf: ColumnFamily)
    requires OthersEmpty(b, cf) && SameElsewhere(a, b, cf)
    ensures OthersEmpty(a, cf)
  {
  }

  /** The entries of an append arrive before its last id. */
  lemma {:induction false} AppendHalfway(db: Db, cf: ColumnFamily, c: Codec, x: Snap, es: seq<Entry>)
    requires DbIs(db, cf, c, x) && es != [] && Legal(x.raft, AppendBatch(es))
    ensures DbIs(ApplyOps(db, PutsFor(cf, c, es)), cf, c, Halfway(x, AppendBatch(es)))
  {
    hide Represents, PutsFor, ApplyOps, LiveLog, SameMeta, MetaIs, FamilyOf, OthersEmpty, SameElsewhere, Stored;
    PutsRepresent(db, cf, c, LiveLog(c, x.raft), es);
    AppendedLive(c, x.raft, es);
    var r := ApplyOps(db, PutsFor(cf, c, es));
    SameMetaIs(c, FamilyOf(db, cf), FamilyOf(r, cf), x);
    PutsFrame(db, cf, c, es);
    OthersStayEmpty(r, db, cf);
  }

  /** Writing one metadata key. */
  lemma {:induction false} MetaWrite(db: Db, cf: ColumnFamily, c: Codec, x: Snap, y: Snap, key: bytes, id: LogId)
    requires DbIs(db, cf, c, x) && y.Valid() && LiveLog(c, y.raft) == LiveLog(c, x.raft)
    requires || (key == LAST_LOG_ID_KEY && y.recorded == Some(id) && y.raft.purged == x.raft.purged)
             || (key == LAST_PURGED_LOG_ID_KEY && y.raft.purged == Some(id) && y.recorded == x.recorded)
    ensures DbIs(ApplyOps(db, [Put(cf, key, c.encodeId(id))]), cf, c, y)
  {
    hide Represents, ApplyOps, LiveLog, IsMetaKey, Ascii, FamilyOf, OthersEmpty;
    var op := Put(cf, key, c.encodeId(id));
    PutFrame(db, op);
    LastIdIsMeta();
    MetaKeysDiffer();
    MetaPutRepresents(FamilyOf(db, cf), LiveLog(c, x.raft), key, c.encodeId(id));
    OthersStayEmpty(ApplyOps(db, [op]), db, cf);
  }

  lemma {:induction false} AppendSimulates(s: Store, cf: ColumnFamily, c: Codec, t: NodeLog, es: seq<Entry>)
    requires Simulates(s, cf, c, t) && Legal(t.Now().raft, AppendBatch(es))
    ensures var (u, r) := AppendEntries(s, cf, c, es);
            r == Ok(()) && Simulates(u, cf, c, NodeStep(t, Batch(AppendBatch(es))))
  {
    hide DbIs, ApplyOps, HistoryIs, PutsFor, Contents, Ascii, LiveLog, Store.Valid;
    if es != [] {
      var x, op := t.Now(), AppendBatch(es);
      var half, all := Halfway(x, op), Whole(x, op);
      var last := es[|es| - 1].id;
      NowIs(s, cf, c, t);
      AppendHalfway(s.db, cf, c, x, es);
      PutsNeedNoFsync(cf, c, es);
      var s1 := Commit(s, PutsFor(cf, c, es));
      WholeAppendValid(s.db, cf, c, x, es);
      MetaWrite(s1.db, cf, c, half, all, LAST_LOG_ID_KEY, last);
      AppendedCache(s.cache, cf, x, es);
      WriteSimulates(s, cf, c, t, PutsFor(cf, c, es), half, map[]);
      var t1 := t.(history := t.history + [half]);
      MetaNeedsNoFsync(cf, LAST_LOG_ID_KEY, c.encodeId(last));
      WriteSimulates(s1.(cache := map[]), cf, c, t1, [Put(cf, LAST_LOG_ID_KEY, c.encodeId(last))], all, s.cache[cf := last.index]);
      assert t1.history + [all] == t.history + [half] + [all];
    }
  }

  lemma {:induction false} MetaNeedsNoFsync(cf: ColumnFamily, key: bytes, value: bytes)
    requires cf.IsLog()
    ensures !BatchRequiresFsync([Put(cf, key, value)])
  {
  }

  lemma {:induction false} WholeAppendValid(db: Db, cf: ColumnFamily, c: Codec, x: Snap, es: seq<Entry>)
    requires DbIs(db, cf, c, x) && es != [] && Legal(x.raft, AppendBatch(es))
    ensures var op := AppendBatch(es);
            && Whole(x, op).Valid() && Halfway(x, op).raft == Whole(x, op).raft
            && Whole(x, op).recorded == Some(es[|es| - 1].id)
  {
    hide Represents, LiveLog, MetaIs, OthersEmpty;
  }

  lemma {:induction false} AppendedCache(cache: map<ColumnFamily, nat>, cf: ColumnFamily, x: Snap, es: seq<Entry>)
    requires CacheIs(cache, cf, x) && es != [] && Legal(x.raft, AppendBatch(es))
    ensures CacheIs(map[], cf, Halfway(x, AppendBatch(es)))
    ensures CacheIs(cache[cf := es[|es| - 1].id.index], cf, Whole(x, AppendBatch(es)))
  {
  }

  // ----- Purging -----

  /** The last index is that of the last entry, recorded or not. */
  lemma {:induction false} LastOfSnap(s: Store, cf: ColumnFamily, c: Codec, x: Snap)
    requires cf.IsLog() && FamilyIs(FamilyOf(s.db, cf), c, x) && CacheIs(s.cache, cf, x) && x.raft.entries != []
    ensures CachedLast(s, cf) == (s.(cache := map[cf := |x.raft.entries|]), Ok(Some(|x.raft.entries|)))
  {
    hide Represents, LastIndexIn, MetaIs, LiveLog, HasMeta;
    LastOfLog(FamilyOf(s.db, cf), LiveLog(c, x.raft));
    LiveIsNonEmpty(c, x.raft);
    assert forall other :: other in s.cache ==> other == cf;
    assert s.cache[cf := |x.raft.entries|] == map[cf := |x.raft.entries|];
    if cf in s.cache { assert s.cache == map[cf := |x.raft.entries|]; }
  }

  /** The deletes of a purge arrive before its purged id. */
  lemma {:induction false} PurgeHalfway(db: Db, cf: ColumnFamily, c: Codec, x: Snap, id: LogId)
    requires DbIs(db, cf, c, x) && Legal(x.raft, PurgeTo(id))
    ensures DbIs(ApplyOps(db, DeletesUpTo(cf, id.index)), cf, c, Halfway(x, PurgeTo(id)))
    ensures Whole(x, PurgeTo(id)).Valid()
    ensures LiveLog(c, Whole(x, PurgeTo(id)).raft) == LiveLog(c, Halfway(x, PurgeTo(id)).raft)
  {
    hide Represents, ApplyOps, DeletesUpTo, WithoutUpTo, AbsTruncate, SameMeta, MetaIs, FamilyOf, OthersEmpty, Stored;
    var m, n := FamilyOf(db, cf), id.index;
    LiveIsNonEmpty(c, x.raft);
    WithoutRepresents(m, LiveLog(c, x.raft), n + 1);
    DeletesEffect(db, cf, n);
    TruncateKeepsMeta(m, n);
    TruncatedLive(c, x.raft, id);
    var r := ApplyOps(db, DeletesUpTo(cf, n));
    SameMetaIs(c, m, FamilyOf(r, cf), x);
    OthersStayEmpty(r, db, cf);
  }

  lemma {:induction false} PurgeSimulates(s: Store, cf: ColumnFamily, c: Codec, t: NodeLog, id: LogId)
    requires Simulates(s, cf, c, t) && Legal(t.Now().raft, PurgeTo(id))
    ensures var (u, r) := PurgeThrough(s, cf, c, id);
            r == Ok(()) && Simulates(u, cf, c, NodeStep(t, Batch(PurgeTo(id))))
  {
    hide FamilyIs, ApplyOps, HistoryIs, Contents, Ascii, LiveLog, Store.Valid, CachedLast, DeletesUpTo, FamilyOf, OthersEmpty;
    var x, op := t.Now(), PurgeTo(id);
    var half, all := Halfway(x, op), Whole(x, op);
    NowIs(s, cf, c, t);
    LogFits(s.db, cf, c, x);
    LastOfSnap(s, cf, c, x);
    PurgeHalfway(s.db, cf, c, x, id);
    var ops := DeletesUpTo(cf, id.index);
    DeletesNeedNoFsync(cf, id.index);
    WriteSimulates(s, cf, c, t, ops, half, map[]);
    var s1 := Commit(s, ops).(cache := map[]);
    var t1 := t.(history := t.history + [half]);
    MetaWrite(s1.db, cf, c, half, all, LAST_PURGED_LOG_ID_KEY, id);
    MetaNeedsNoFsync(cf, LAST_PURGED_LOG_ID_KEY, c.encodeId(id));
    WriteSimulates(s1, cf, c, t1, [Put(cf, LAST_PURGED_LOG_ID_KEY, c.encodeId(id))], all, map[]);
    assert t1.history + [all] == t.history + [half] + [all];
    assert map[cf := |x.raft.entries|] - {cf} == map[];
  }

  lemma {:induction false} LogFits(db: Db, cf: ColumnFamily, c: Codec, x: Snap)
    requires DbIs(db, cf, c, x)
    ensures x.Valid() && |x.raft.entries| <= U64_MAX
  {
  }

  // ----- Restarting -----

  lemma {:induction false} WarmIs(s: Store, cf: ColumnFamily, c: Codec, x: Snap)
    requires DbIs(s.db, cf, c, x) && cf.IsLog() && CacheIs(s.cache, cf, x)
    ensures forall other: ColumnFamily :: other.IsLog() ==>
              var (u, r) := Warm(s, other);
              r == Ok(()) && CacheIs(u.cache, cf, x) && u == s.(cache := u.cache)
  {
    hide Represents, LastIndexIn, MetaIs, LiveLog;
    LastOfLog(FamilyOf(s.db, cf), LiveLog(c, x.raft));
    NoMetaWhenEmpty(s.db, cf, c, x);
    forall other: ColumnFamily | other.IsLog()
      ensures var (u, r) := Warm(s, other); r == Ok(()) && CacheIs(u.cache, cf, x) && u == s.(cache := u.cache)
    {
      if other != cf { assert LastIndexIn(FamilyOf(s.db, other)) == NoEntry by { EmptyHasNoLast(); } }
    }
  }

  lemma {:induction false} EmptyHasNoLast()
    ensures LastIndexIn(map[]) == NoEntry
  {
  }

  lemma {:induction false} NoMetaWhenEmpty(db: Db, cf: ColumnFamily, c: Codec, x: Snap)
    requires DbIs(db, cf, c, x)
    ensures LiveLog(c, x.raft).entries == [] ==> !HasMeta(FamilyOf(db, cf))
    ensures LiveLog(c, x.raft).entries == [] <==> x.raft.entries == []
  {
    hide Represents, Ascii, OthersEmpty;
    if x.raft.entries != [] { LiveIsNonEmpty(c, x.raft); }
  }

  lemma {:induction false} RestartSimulates(s: Store, cf: ColumnFamily, c: Codec, t: NodeLog, keep: nat)
    requires Simulates(s, cf, c, t) && LegalStep(t, Reopened(keep))
    ensures var (u, r) := Reopen(s, keep);
            r == Ok(()) && Simulates(u, cf, c, NodeStep(t, Reopened(keep)))
  {
    hide DbIs, Contents, Warm;
    var k, h := Crash(s, keep), t.history[..keep + 1];
    var v := NodeLog(h, keep);
    assert HistoryIs(k.wal, h, cf, c) by {
      forall p | 0 <= p <= keep ensures DbIs(Contents(k.wal[..p]), cf, c, h[p]) {
        assert k.wal[..p] == s.wal[..p];
      }
    }
    assert Simulates(k, cf, c, v);
    NowIs(k, cf, c, v);
    WarmIs(k, cf, c, v.Now());
    WarmIs(Warm(k, SystemRaftLog).0, cf, c, v.Now());
  }

  // ----- Whole runs -----

  predicate LegalSteps(t: NodeLog, steps: seq<LogStep>)
    requires t.history != []
    decreases |steps|
  {
    steps != [] ==> LegalStep(t, steps[0]) && LegalSteps(NodeStep(t, steps[0]), steps[1..])
  }

  function NodeRun(t: NodeLog, steps: seq<LogStep>): (r: NodeLog)
    requires t.history != [] && LegalSteps(t, steps)
    ensures r.history != []
    decreases |steps|
  {
    if steps == [] then t else NodeRun(NodeStep(t, steps[0]), steps[1..])
  }

  ghost function StoreRun(s: Store, cf: ColumnFamily, c: Codec, steps: seq<LogStep>): (r: (Store, bool))
    decreases |steps|
  {
    if steps == [] then (s, true)
    else
      var (t, r) := StoreStep(s, cf, c, steps[0]);
      var (u, ok) := StoreRun(t, cf, c, steps[1..]);
      (u, r == Ok(()) && ok)
  }

  lemma {:induction false} StepSimulates(s: Store, cf: ColumnFamily, c: Codec, t: NodeLog, st: LogStep)
    requires Simulates(s, cf, c, t) && LegalStep(t, st)
    ensures var (u, r) := StoreStep(s, cf, c, st);
            r == Ok(()) && Simulates(u, cf, c, NodeStep(t, st))
  {
    hide NodeStep, AppendEntries, PurgeThrough, Reopen, HistoryIs, CacheIs, Store.Valid;
    match st
    case Batch(AppendBatch(es)) => AppendSimulates(s, cf, c, t, es);
    case Batch(PurgeTo(id)) => PurgeSimulates(s, cf, c, t, id);
    case Reopened(keep) => RestartSimulates(s, cf, c, t, keep);
  }

  lemma {:induction false} RunSimulates(s: Store, cf: ColumnFamily, c: Codec, t: NodeLog, steps: seq<LogStep>)
    requires t.history != [] && Simulates(s, cf, c, t) && LegalSteps(t, steps)
    ensures StoreRun(s, cf, c, steps).1 && Simulates(StoreRun(s, cf, c, steps).0, cf, c, NodeRun(t, steps))
    decreases |steps|
  {
    hide Simulates, StoreStep, NodeStep, LegalStep;
    if steps != [] {
      StepSimulates(s, cf, c, t, steps[0]);
      RunSimulates(StoreStep(s, cf, c, steps[0]).0, cf, c, NodeStep(t, steps[0]), steps[1..]);
    }
  }

  lemma {:induction false} NewLogSimulates(cf: ColumnFamily, c: Codec)
    requires cf.IsLog()
    ensures Simulates(EMPTY_STORE, cf, c, NEW_LOG)
  {
    assert EMPTY_STORE.wal[..0] == [];
  }

  /**
    * Over every legal run of appends, purges and restarts, a crash between the two writes of an
    * operation included, nothing fails. `get_log_state` reports the purged id and the recorded last id,
    * and both readers return exactly the entries of the range that survived and were not purged; entries
    * after the recorded one carry no term and no node.
    */
  lemma {:induction false} CrashRunsRead(cf: ColumnFamily, c: Codec, steps: seq<LogStep>, lower: Bound, upper: Bound)
    requires cf.IsLog() && Faithful(c) && LegalSteps(NEW_LOG, steps)
    requires forall e :: e in NodeRun(NEW_LOG, steps).Now().raft.entries ==> Intact(c, e)
    ensures var (s, ok) := StoreRun(EMPTY_STORE, cf, c, steps);
            var x, m := NodeRun(NEW_LOG, steps).Now(), FamilyOf(s.db, cf);
            && ok && x.Valid() && Canonical(m)
            && LogStateOf(c, m) == Ok(LogState(x.raft.purged, x.Reported()))
            && ReadRange(c, m, lower, upper) ==
               if lower == Excluded(U64_MAX) || upper == Excluded(0) then Overflow
               else Entries(Rebuilt(x.recorded, LiveIn(x.raft, lower, upper)))
  {
    hide Simulates, StoreRun, NodeRun, LegalSteps, FamilyIs, ReadRange, LogStateOf, Rebuilt, LiveIn, Canonical, Faithful;
    NewLogSimulates(cf, c);
    RunSimulates(EMPTY_STORE, cf, c, NEW_LOG, steps);
    var s, t := StoreRun(EMPTY_STORE, cf, c, steps).0, NodeRun(NEW_LOG, steps);
    NowIs(s, cf, c, t);
    LogFits(s.db, cf, c, t.Now());
    SnapReads(FamilyOf(s.db, cf), c, t.Now(), lower, upper);
  }

  lemma {:induction false} SnapReads(m: Family, c: Codec, x: Snap, lower: Bound, upper: Bound)
    requires FamilyIs(m, c, x) && x.Valid() && Faithful(c) && forall e :: e in x.raft.entries ==> Intact(c, e)
    ensures Canonical(m) && LogStateOf(c, m) == Ok(LogState(x.raft.purged, x.Reported()))
    ensures ReadRange(c, m, lower, upper) ==
            if lower == Excluded(U64_MAX) || upper == Excluded(0) then Overflow
               else Entries(Rebuilt(x.recorded, LiveIn(x.raft, lower, upper)))
  {
    hide Represents, LogKey, ReadFrom, Slice, LiveIn, Rebuilt, Stored, Intact, Ascii, Canonical, LogStateOf;
    RepresentsCanonical(m, LiveLog(c, x.raft));
    SnapState(m, c, x);
    if BoundsFit(lower, upper) {
      ReadsBack(c, m, x.raft, x.recorded, StartOf(lower), EndOf(upper));
      LiveIsSlice(x.raft, lower, upper);
    }
  }

  lemma {:induction false} SnapState(m: Family, c: Codec, x: Snap)
    requires FamilyIs(m, c, x) && Faithful(c)
    ensures LogStateOf(c, m) == Ok(LogState(x.raft.purged, x.Reported())) && LastForScan(c, m) == x.recorded
  {
    hide Represents, LogKey, LastIndexIn, Stored, Ascii;
    LastOfLog(m, LiveLog(c, x.raft));
    LiveIsEmpty(c, x.raft);
    if x.raft.entries != [] { LiveIsNonEmpty(c, x.raft); }
  }

  // ----- Ids after a crash -----

  /** Readers rebuild `id` as it was: through the recorded id, or because it names no leader. */
  predicate Rebuilds(recorded: Option<LogId>, id: LogId) {
    if recorded.Some? && id.index <= recorded.value.index then SameLeader(id, recorded) else id.term == 0 && id.node == 0
  }

  /** `id` lies in the recorded part of the log and under the recorded leader. */
  predicate Covered(recorded: Option<LogId>, id: LogId) {
    recorded.Some? && id.index <= recorded.value.index && SameLeader(id, recorded)
  }

  lemma {:induction false} SurvivingIdsExactly(last: Option<LogId>, es: seq<Entry>)
    ensures Rebuilt(last, es) == es <==> forall e :: e in es ==> Rebuilds(last, e.id)
  {
    var r := Rebuilt(last, es);
    if r == es {
      forall e | e in es ensures Rebuilds(last, e.id) {
        var j :| 0 <= j < |es| && es[j] == e;
        assert r[j] == es[j];
      }
    }
    if forall e :: e in es ==> Rebuilds(last, e.id) {
      forall j | 0 <= j < |es| ensures r[j] == es[j] { assert es[j] in es; }
    }
  }

  /**
    * Over every legal run with restarts, readers return the surviving entries of a range with their own
    * ids if and only if each of them lies in the recorded part of the log and under the recorded leader,
    * or lies after it and names no leader. Where every entry names one, only the first can be.
    */
  lemma {:induction false} CrashedIdsExactly(cf: ColumnFamily, c: Codec, steps: seq<LogStep>, lower: Bound, upper: Bound)
    requires cf.IsLog() && Faithful(c) && LegalSteps(NEW_LOG, steps) && BoundsFit(lower, upper)
    requires forall e :: e in NodeRun(NEW_LOG, steps).Now().raft.entries ==> Intact(c, e)
    ensures var x, m := NodeRun(NEW_LOG, steps).Now(), FamilyOf(StoreRun(EMPTY_STORE, cf, c, steps).0.db, cf);
            && x.Valid()
            && var es := LiveIn(x.raft, lower, upper);
            && (ReadRange(c, m, lower, upper) == Entries(es) <==> forall e :: e in es ==> Rebuilds(x.recorded, e.id))
            && ((forall e :: e in es ==> e.id.term != 0 || e.id.node != 0) ==>
                  (ReadRange(c, m, lower, upper) == Entries(es) <==> forall e :: e in es ==> Covered(x.recorded, e.id)))
  {
    hide StoreRun, NodeRun, LegalSteps, ReadRange, LiveIn, Intact, Rebuilt, Faithful, AbsRaft.Valid;
    CrashRunsRead(cf, c, steps, lower, upper);
    var x := NodeRun(NEW_LOG, steps).Now();
    SurvivingIdsExactly(x.recorded, LiveIn(x.raft, lower, upper));
  }

  /** One mark for every write, computed from the steps alone: is the last append up to there complete? */
  function MarkStep(marks: seq<bool>, st: LogStep): (r: seq<bool>)
    requires marks != []
    ensures r != []
  {
    var last := marks[|marks| - 1];
    match st
    case Batch(AppendBatch(es)) => if es == [] then marks else marks + [false] + [true]
    case Batch(PurgeTo(_)) => marks + [last] + [last]
    case Reopened(keep) => if keep < |marks| then marks[..keep + 1] else marks
  }

  function MarkRun(marks: seq<bool>, steps: seq<LogStep>): (r: seq<bool>)
    requires marks != []
    ensures r != []
    decreases |steps|
  {
    if steps == [] then marks else MarkRun(MarkStep(marks, steps[0]), steps[1..])
  }

  /** The last append of the run that survived did so with its last id. */
  predicate LastAppendComplete(steps: seq<LogStep>) {
    var marks := MarkRun([true], steps);
    marks[|marks| - 1]
  }

  predicate Told(t: NodeLog, marks: seq<bool>) {
    && t.history != [] && |marks| == |t.history|
    && forall p :: 0 <= p < |marks| ==>
         t.history[p].Valid() && (marks[p] <==> t.history[p].recorded == t.history[p].raft.LastId())
  }

  lemma {:induction false} CrashedAppend(x: Snap, es: seq<Entry>)
    requires x.Valid() && es != [] && Legal(x.raft, AppendBatch(es))
    ensures var half, all := Halfway(x, AppendBatch(es)), Whole(x, AppendBatch(es));
            && half.Valid() && half.recorded != half.raft.LastId()
            && all.Valid() && all.recorded == all.raft.LastId()
  {
  }

  lemma {:induction false} PurgedSnap(x: Snap, id: LogId)
    requires x.Valid() && Legal(x.raft, PurgeTo(id))
    ensures var half, all := Halfway(x, PurgeTo(id)), Whole(x, PurgeTo(id));
            && half.Valid() && half.recorded == x.recorded && half.raft.LastId() == x.raft.LastId()
            && all.Valid() && all.recorded == x.recorded && all.raft.LastId() == x.raft.LastId()
  {
  }

  lemma {:induction false} StepTells(t: NodeLog, marks: seq<bool>, st: LogStep)
    requires Told(t, marks) && LegalStep(t, st)
    ensures Told(NodeStep(t, st), MarkStep(marks, st))
  {
    hide Snap.Valid, Legal, Halfway, Whole, AbsRaft.LastId;
    match st
    case Batch(AppendBatch(es)) => if es != [] { CrashedAppend(t.Now(), es); }
    case Batch(PurgeTo(id)) => PurgedSnap(t.Now(), id);
    case Reopened(_) =>
  }

  lemma {:induction false} RunTells(t: NodeLog, marks: seq<bool>, steps: seq<LogStep>)
    requires Told(t, marks) && LegalSteps(t, steps)
    ensures Told(NodeRun(t, steps), MarkRun(marks, steps))
    decreases |steps|
  {
    hide NodeStep, MarkStep, LegalStep;
    if steps != [] {
      StepTells(t, marks, steps[0]);
      RunTells(NodeStep(t, steps[0]), MarkStep(marks, steps[0]), steps[1..]);
    }
  }

  /** Nothing was ever recorded, and the last entry names no leader. */
  predicate Unled(x: Snap) {
    x.recorded.None? && x.raft.entries != [] && x.raft.LastId().value.term == 0 && x.raft.LastId().value.node == 0
  }

  lemma {:induction false} ReportedExactly(x: Snap)
    requires x.Valid()
    ensures x.Reported() == x.raft.LastId() <==> x.recorded == x.raft.LastId() || Unled(x)
  {
  }

  /**
    * Over every legal run with restarts, the log state reports the last entry that survived if and only
    * if the last append that survived is complete, or that entry names no leader and nothing was recorded.
    */
  lemma {:induction false} LogStateExactly(cf: ColumnFamily, c: Codec, steps: seq<LogStep>)
    requires cf.IsLog() && Faithful(c) && LegalSteps(NEW_LOG, steps)
    ensures var x := NodeRun(NEW_LOG, steps).Now();
            var state := LogStateOf(c, FamilyOf(StoreRun(EMPTY_STORE, cf, c, steps).0.db, cf));
            && state.Ok? && state.value.lastPurged == x.raft.purged
            && (state.value.last == x.raft.LastId() <==> LastAppendComplete(steps) || Unled(x))
            && (x.raft.entries != [] && (x.raft.LastId().value.term != 0 || x.raft.LastId().value.node != 0) ==>
                  (state.value.last == x.raft.LastId() <==> LastAppendComplete(steps)))
  {
    hide Simulates, StoreRun, NodeRun, LegalSteps, FamilyIs, LogStateOf, Faithful, MarkRun, Snap.Valid;
    NewLogSimulates(cf, c);
    RunSimulates(EMPTY_STORE, cf, c, NEW_LOG, steps);
    var s, t := StoreRun(EMPTY_STORE, cf, c, steps).0, NodeRun(NEW_LOG, steps);
    NowIs(s, cf, c, t);
    LogFits(s.db, cf, c, t.Now());
    SnapState(FamilyOf(s.db, cf), c, t.Now());
    NewLogTold();
    RunTells(NEW_LOG, [true], steps);
    ReportedExactly(t.Now());
  }

  lemma {:induction false} NewLogTold()
    ensures Told(NEW_LOG, [true])
  {
  }

  // ----- After a purge of the whole log -----

  /**
    * After every legal run with restarts that left an entry, a purge of the whole log succeeds; then no
    * purge succeeds any more, and the store cannot be reopened even if nothing is lost.
    */
  lemma {:induction false} PurgeAllBlocksReopening(cf: ColumnFamily, c: Codec, steps: seq<LogStep>, id: LogId, again: LogId)
    requires cf.IsLog() && LegalSteps(NEW_LOG, steps) && NodeRun(NEW_LOG, steps).Now().raft.entries != []
    requires |NodeRun(NEW_LOG, steps).Now().raft.entries| <= id.index < U64_MAX && again.index < U64_MAX
    ensures var (t, r) := PurgeThrough(StoreRun(EMPTY_STORE, cf, c, steps).0, cf, c, id);
            && r == Ok(()) && PurgeThrough(t, cf, c, again).1 == Err(CorruptedData)
            && t.Valid() && Reopen(t, |t.wal|).1 == Err(CorruptedData)
  {
    hide StoreRun, NodeRun, LegalSteps, HistoryIs, PurgeThrough, Represents, HasMeta, Reopen, CachedLast, MetaIs, Store.Valid;
    NewLogSimulates(cf, c);
    RunSimulates(EMPTY_STORE, cf, c, NEW_LOG, steps);
    var s, x := StoreRun(EMPTY_STORE, cf, c, steps).0, NodeRun(NEW_LOG, steps).Now();
    NowIs(s, cf, c, NodeRun(NEW_LOG, steps));
    LastOfSnap(s, cf, c, x);
    LiveIsNonEmpty(c, x.raft);
    PurgeAllLeavesMeta(s, cf, c, LiveLog(c, x.raft), id);
    PurgeFrame(s, cf, c, id);
    var t := PurgeThrough(s, cf, c, id).0;
    PurgeOfMetaFails(t, cf, c, again);
    OthersStayEmpty(t.db, s.db, cf);
    MetaOnlyBlocks(t, cf);
  }

  lemma {:induction false} MetaOnlyBlocks(s: Store, cf: ColumnFamily)
    requires s.Valid() && cf.IsLog() && OthersEmpty(s.db, cf)
    requires Represents(FamilyOf(s.db, cf), EMPTY_LOG) && HasMeta(FamilyOf(s.db, cf))
    ensures Reopen(s, |s.wal|).1 == Err(CorruptedData)
  {
    hide Represents, HasMeta, LastIndexIn, Contents;
    assert s.wal[..|s.wal|] == s.wal;
    LastOfLog(FamilyOf(s.db, cf), EMPTY_LOG);
    EmptyHasNoLast();
  }
}
