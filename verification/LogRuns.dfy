/**
  * Runs of log operations. A log family stands for one gap-free sequence of entries; the store refines
  * the abstract log over every run of appends, truncations, last-index reads, restarts and crashes.
  */
module LogRuns {
  import opened Bytes
  import opened Decimal
  import opened LogKeys
  import opened RocksStore
  import opened LogStore

  /** Entries at consecutive indices from `first`; an empty log starts again at 1. */
  datatype AbsLog = AbsLog(first: nat, entries: seq<bytes>)
  {
    predicate Valid() {
      first >= 1 && first + |entries| <= U64_MAX + 1 && (entries == [] ==> first == 1)
    }

    function Next(): (i: nat) {
      first + |entries|
    }
  }

  const EMPTY_LOG := AbsLog(1, [])

  predicate LogPart(a: AbsLog, k: bytes) {
    IsLogKey(k) && a.first <= ParseLogKey(k).value < a.Next()
  }

  /** The log keys of `m` hold exactly the entries of `a`; any other key is a metadata key. */
  ghost predicate Represents(m: Family, a: AbsLog) {
    && a.Valid()
    && (forall k :: k in m ==> LogPart(a, k) || IsMetaKey(k))
    && (forall i: nat :: a.first <= i < a.Next() ==> Has(m, i) && m[LogKey(i)] == a.entries[i - a.first])
  }

  lemma {:induction false} RepresentsHas(m: Family, a: AbsLog, i: nat)
    requires Represents(m, a)
    ensures Has(m, i) <==> a.first <= i < a.Next()
  {
    hide LogKey, ParseLogKey, Below, Ascii;
    if Has(m, i) {
      ParseFormatLogKey(i);
      if IsMetaKey(LogKey(i)) { MetaBelowLog(LogKey(i), i); }
    }
  }

  lemma {:induction false} RepresentsCanonical(m: Family, a: AbsLog)
    requires Represents(m, a)
    ensures Canonical(m)
  {
  }

  predicate HasMeta(m: Family) {
    LAST_LOG_ID_KEY in m || LAST_PURGED_LOG_ID_KEY in m
  }

  /** The last index read from the database. With metadata keys only, the read is an error. */
  lemma {:induction false} LastOfLog(m: Family, a: AbsLog)
    requires Represents(m, a)
    ensures LastIndexIn(m) ==
            if a.entries != [] then Index(a.Next() - 1) else if HasMeta(m) then Corrupt else NoEntry
  {
    hide LogKey, ParseLogKey, Below, Ascii;
    if a.entries != [] {
      var k := LogKey(a.Next() - 1);
      assert Has(m, a.Next() - 1);
      forall y | y in m.Keys ensures AtMost(y, k) {
        if IsMetaKey(y) {
          MetaBelowLog(y, a.Next() - 1);
        } else {
          LogKeyOrder(ParseLogKey(y).value, a.Next() - 1);
        }
      }
      ParseFormatLogKey(a.Next() - 1);
      LastIndexOfGreatest(m, k);
    } else if HasMeta(m) {
      GreatestExists(m.Keys);
      var g :| IsGreatest(m.Keys, g);
      MetaBelowLog(g, 0);
      LastIndexOfGreatest(m, g);
    } else {
      assert forall k :: k !in m;
    }
  }

  /** Metadata keys and no entry. */
  predicate MetaOnly(m: Family) {
    HasMeta(m) && forall k :: k in m ==> IsMetaKey(k)
  }

  lemma {:induction false} CorruptExactly(m: Family)
    requires Canonical(m)
    ensures LastIndexIn(m) == Corrupt <==> MetaOnly(m)
  {
    hide LogKey, ParseLogKey, Below, Ascii;
    if m != map[] {
      assert m.Keys != {};
      GreatestExists(m.Keys);
      var g :| IsGreatest(m.Keys, g);
      LastIndexOfGreatest(m, g);
      if IsMetaKey(g) {
        MetaBelowLog(g, 0);
        forall k | k in m ensures IsMetaKey(k) {
          if IsLogKey(k) {
            MetaBelowLog(g, ParseLogKey(k).value);
            AtMostExcludesBelow(k, g);
          }
        }
      }
      if MetaOnly(m) { assert g in m; MetaBelowLog(g, 0); }
    }
  }

  /** A store can be reopened exactly when neither surviving log family holds metadata keys only. */
  lemma {:induction false} ReopenSucceedsExactly(s: Store, keep: nat)
    requires keep <= |s.wal|
    requires var db := Crash(s, keep).db; Canonical(FamilyOf(db, SystemRaftLog)) && Canonical(FamilyOf(db, DataRaftLog))
    ensures var db := Crash(s, keep).db;
            Reopen(s, keep).1 == Ok(()) <==>
            !MetaOnly(FamilyOf(db, SystemRaftLog)) && !MetaOnly(FamilyOf(db, DataRaftLog))
  {
    hide Canonical, MetaOnly, LastIndexIn, Contents;
    var db := Crash(s, keep).db;
    CorruptExactly(FamilyOf(db, SystemRaftLog));
    CorruptExactly(FamilyOf(db, DataRaftLog));
  }

  // ----- Abstract operations -----

  function AbsAppend(a: AbsLog, index: nat, entry: bytes): (r: (AbsLog, Result<()>)) {
    if a.entries != [] && a.Next() > U64_MAX then (a, Panic)
    else if index != a.Next() then (a, Err(InvalidLogIndex(a.Next(), index)))
    else (AbsLog(a.first, a.entries + [entry]), Ok(()))
  }

  /** Drops the entries below `before`; a log left empty starts again at 1. */
  function AbsTruncate(a: AbsLog, before: nat): (r: AbsLog) {
    if before <= a.first then a
    else if before >= a.Next() then EMPTY_LOG
    else AbsLog(before, a.entries[before - a.first..])
  }

  /** The entries at indices in `[from, until)`. */
  function AbsRange(a: AbsLog, from: nat, until: nat): (vs: seq<bytes>) {
    var lo := if from <= a.first then 0 else if from >= a.Next() then |a.entries| else from - a.first;
    var hi := if until <= a.first then 0 else if until >= a.Next() then |a.entries| else until - a.first;
    if lo <= hi then a.entries[lo..hi] else []
  }

  // ----- One operation on one family -----

  lemma {:induction false} PutRepresents(db: Db, cf: ColumnFamily, a: AbsLog, entry: bytes)
    requires Represents(FamilyOf(db, cf), a) && a.Next() <= U64_MAX
    ensures Represents(FamilyOf(ApplyOps(db, [Put(cf, LogKey(a.Next()), entry)]), cf), AbsLog(a.first, a.entries + [entry]))
  {
    hide LogKey, ParseLogKey, Below, Ascii;
    var n := a.Next();
    var m := FamilyOf(db, cf);
    var b := AbsLog(a.first, a.entries + [entry]);
    ApplyOne(db, Put(cf, LogKey(n), entry));
    var m' := m[LogKey(n) := entry];
    ParseFormatLogKey(n);
    forall k | k in m' ensures LogPart(b, k) || IsMetaKey(k) {
      if k != LogKey(n) { assert LogPart(a, k) || IsMetaKey(k); }
    }
    forall i: nat | b.first <= i < b.Next() ensures Has(m', i) && m'[LogKey(i)] == b.entries[i - b.first] {
      if i < n {
        assert Has(m, i);
        if LogKey(i) == LogKey(n) { LogKeyInjective(i, n); }
      }
    }
  }

  /** The family without the log keys of indices 1 to `n`. */
  function WithoutUpTo(m: Family, n: nat): (r: Family) {
    if n == 0 then m else WithoutUpTo(m, n - 1) - {LogKey(n)}
  }

  lemma {:induction false} WithoutUpToKeys(m: Family, n: nat)
    requires n <= U64_MAX
    ensures var r := WithoutUpTo(m, n);
            && (forall k :: k in r ==> k in m && r[k] == m[k])
            && (forall k :: k in m && k !in r ==> IsLogKey(k) && 1 <= ParseLogKey(k).value <= n)
            && (forall i: nat :: 1 <= i <= n ==> LogKey(i) !in r)
  {
    hide LogKey, ParseLogKey, Below, Ascii;
    if n > 0 {
      WithoutUpToKeys(m, n - 1);
      ParseFormatLogKey(n);
    }
  }

  lemma {:induction false} DeleteFrame(db: Db, cf: ColumnFamily, k: bytes)
    ensures var r := ApplyOp(db, Delete(cf, k));
            && FamilyOf(r, cf) == FamilyOf(db, cf) - {k}
            && forall other :: other != cf ==> FamilyOf(r, other) == FamilyOf(db, other)
  {
  }

  /** What a truncation batch does to the database. */
  lemma {:induction false} DeletesEffect(db: Db, cf: ColumnFamily, n: nat)
    requires n <= U64_MAX
    ensures var r := ApplyOps(db, DeletesUpTo(cf, n));
            && FamilyOf(r, cf) == WithoutUpTo(FamilyOf(db, cf), n)
            && forall other :: other != cf ==> FamilyOf(r, other) == FamilyOf(db, other)
  {
    hide LogKey, ParseLogKey, Below, Ascii, FamilyOf, ApplyOp;
    if n > 0 {
      DeletesEffect(db, cf, n - 1);
      ApplySnoc(db, DeletesUpTo(cf, n - 1), Delete(cf, LogKey(n)));
      DeleteFrame(ApplyOps(db, DeletesUpTo(cf, n - 1)), cf, LogKey(n));
    }
  }

  /** The last index a truncation deletes when `last` is the greatest index. */
  function DeleteBound(last: nat, before: nat): (n: nat) {
    if before > last then last else if before == 0 then 0 else before - 1
  }

  lemma {:induction false} StillThere(r: Family, k: bytes, a: AbsLog, n: nat)
    requires LogPart(a, k) && a.first >= 1 && k in r
    requires forall j: nat :: 1 <= j <= n ==> LogKey(j) !in r
    ensures ParseLogKey(k).Some? && ParseLogKey(k).value > n
  {
    hide LogKey, ParseLogKey, IsMetaKey;
    assert LogKey(ParseLogKey(k).value) in r;
  }

  lemma {:induction false} WithoutRepresents(m: Family, a: AbsLog, before: nat)
    requires Represents(m, a) && a.entries != []
    ensures Represents(WithoutUpTo(m, DeleteBound(a.Next() - 1, before)), AbsTruncate(a, before))
  {
    hide LogKey, ParseLogKey, IsLogKey, IsMetaKey, WithoutUpTo;
    var n := DeleteBound(a.Next() - 1, before);
    WithoutUpToKeys(m, n);
    var r := WithoutUpTo(m, n);
    var b := AbsTruncate(a, before);
    forall k | k in r ensures LogPart(b, k) || IsMetaKey(k) {
      assert LogPart(a, k) || IsMetaKey(k);
      if LogPart(a, k) { StillThere(r, k, a, n); }
    }
    forall i: nat | b.first <= i < b.Next() ensures Has(r, i) && r[LogKey(i)] == b.entries[i - b.first] {
      assert Has(m, i);
      LogKeyIsLogKey(i);
    }
  }

  /** A range read of the family is a range of the abstract log. */
  lemma {:induction false} RangeOfLog(m: Family, a: AbsLog, from: nat, until: nat)
    requires Represents(m, a)
    ensures LiveValues(m, from, until) == AbsRange(a, from, until)
    decreases until
  {
    hide LogKey, ParseLogKey, Below, Ascii;
    if until > from {
      RangeOfLog(m, a, from, until - 1);
      RepresentsHas(m, a, until - 1);
      if a.first <= until - 1 < a.Next() {
        assert m[LogKey(until - 1)] == a.entries[until - 1 - a.first];
      }
    }
  }

  // ----- Runs -----

  datatype LogOp =
    | Append(cf: ColumnFamily, index: u64, entry: bytes)
    | Truncate(cf: ColumnFamily, before: u64)
    | LastIndexOf(cf: ColumnFamily)
    | WriteElsewhere(cf: ColumnFamily, key: bytes, value: bytes) // a put outside the log families
    | Restart(keep: nat)                                         // reopen with the first `keep` batches

  datatype Answer = Done(result: Result<()>) | Last(last: Result<Option<nat>>)

  ghost function Step(s: Store, op: LogOp): (r: (Store, Answer)) {
    match op
    case Append(cf, i, e) => var (t, r) := AppendLog(s, cf, i, e); (t, Done(r))
    case Truncate(cf, b) => var (t, r) := TruncateLog(s, cf, b); (t, Done(r))
    case LastIndexOf(cf) => var (t, r) := CachedLast(s, cf); (t, Last(r))
    case WriteElsewhere(cf, k, v) =>
      if cf.IsLog() then (s, Done(Err(InvalidColumnFamily))) else (Commit(s, [Put(cf, k, v)]), Done(Ok(())))
    case Restart(keep) =>
      if s.synced <= keep <= |s.wal| then var (t, r) := Reopen(s, keep); (t, Done(r)) else (s, Done(Ok(())))
  }

  ghost function Run(s: Store, ops: seq<LogOp>): (r: (Store, seq<Answer>))
    decreases |ops|
  {
    if ops == [] then (s, [])
    else
      var (t, a) := Step(s, ops[0]);
      var (u, rest) := Run(t, ops[1..]);
      (u, [a] + rest)
  }

  datatype AbsDb = AbsDb(system: AbsLog, data: AbsLog)
  {
    function Of(cf: ColumnFamily): (a: AbsLog) {
      if cf.SystemRaftLog? then system else data
    }

    function With(cf: ColumnFamily, a: AbsLog): (r: AbsDb) {
      if cf.SystemRaftLog? then AbsDb(a, data) else AbsDb(system, a)
    }
  }

  /** The logs after every write so far, and how many writes are safe from a crash. */
  datatype AbsStore = AbsStore(history: seq<AbsDb>, synced: nat)
  {
    function Now(): (d: AbsDb)
      requires history != []
    {
      history[|history| - 1]
    }

    function Push(d: AbsDb): (r: AbsStore) {
      AbsStore(history + [d], synced)
    }
  }

  const EMPTY_ABS := AbsStore([AbsDb(EMPTY_LOG, EMPTY_LOG)], 0)

  function AbsStep(t: AbsStore, op: LogOp): (r: (AbsStore, Answer))
    requires t.history != []
    ensures r.0.history != []
  {
    match op
    case Append(cf, i, e) =>
      if cf !in {SystemRaftLog, DataRaftLog} then (t, Done(Err(InvalidColumnFamily)))
      else
        var (a, r) := AbsAppend(t.Now().Of(cf), i, e);
        if r.Ok? then (t.Push(t.Now().With(cf, a)), Done(r)) else (t, Done(r))
    case Truncate(cf, b) =>
      if cf !in {SystemRaftLog, DataRaftLog} then (t, Done(Err(InvalidColumnFamily)))
      else if t.Now().Of(cf).entries == [] then (t, Done(Ok(())))
      else (t.Push(t.Now().With(cf, AbsTruncate(t.Now().Of(cf), b))), Done(Ok(())))
    case LastIndexOf(cf) =>
      if cf !in {SystemRaftLog, DataRaftLog} then (t, Last(Err(InvalidColumnFamily)))
      else
        var a := t.Now().Of(cf);
        (t, Last(Ok(if a.entries == [] then None else Some(a.Next() - 1))))
    case WriteElsewhere(cf, _, _) =>
      if cf in {SystemRaftLog, DataRaftLog} then (t, Done(Err(InvalidColumnFamily)))
      else
        var u := t.Push(t.Now());
        (if cf in {SystemRaftState, DataRaftState} then u.(synced := |t.history|) else u, Done(Ok(())))
    case Restart(keep) =>
      if t.synced <= keep < |t.history| then (AbsStore(t.history[..keep + 1], keep), Done(Ok(()))) else (t, Done(Ok(())))
  }

  function AbsRun(t: AbsStore, ops: seq<LogOp>): (r: (AbsStore, seq<Answer>))
    requires t.history != []
    ensures r.0.history != []
    decreases |ops|
  {
    if ops == [] then (t, [])
    else
      var (u, a) := AbsStep(t, ops[0]);
      var (w, rest) := AbsRun(u, ops[1..]);
      (w, [a] + rest)
  }

  // ----- The simulation -----

  ghost predicate FamilyShows(db: Db, cf: ColumnFamily, a: AbsLog) {
    Represents(FamilyOf(db, cf), a) && !HasMeta(FamilyOf(db, cf))
  }

  ghost predicate Shows(db: Db, d: AbsDb) {
    FamilyShows(db, SystemRaftLog, d.system) && FamilyShows(db, DataRaftLog, d.data)
  }

  /** Every prefix of the write-ahead log shows the abstract logs of its time. */
  ghost predicate HistoryShown(wal: seq<seq<WriteOp>>, history: seq<AbsDb>)
    requires |history| == |wal| + 1
  {
    forall p :: 0 <= p <= |wal| ==> Shows(Contents(wal[..p]), history[p])
  }

  /** A cached index is the greatest index of its log. */
  predicate CacheShown(cache: map<ColumnFamily, nat>, d: AbsDb) {
    forall cf :: cf in cache ==> cf.IsLog() && d.Of(cf).entries != [] && cache[cf] == d.Of(cf).Next() - 1
  }

  ghost predicate Simulates(s: Store, t: AbsStore) {
    && s.Valid() && t.synced == s.synced && |t.history| == |s.wal| + 1
    && HistoryShown(s.wal, t.history) && CacheShown(s.cache, t.Now())
  }

  lemma {:induction false} NowShown(s: Store, t: AbsStore)
    requires Simulates(s, t)
    ensures Shows(s.db, t.Now())
  {
    assert s.wal[..|s.wal|] == s.wal;
    assert Shows(Contents(s.wal[..|s.wal|]), t.history[|s.wal|]);
  }

  lemma {:induction false} PushShown(wal: seq<seq<WriteOp>>, history: seq<AbsDb>, ops: seq<WriteOp>, d: AbsDb)
    requires |history| == |wal| + 1 && HistoryShown(wal, history) && Shows(ApplyOps(Contents(wal), ops), d)
    ensures HistoryShown(wal + [ops], history + [d])
  {
    hide Shows, ApplyOps;
    var w := wal + [ops];
    forall p | 0 <= p <= |w| ensures Shows(Contents(w[..p]), (history + [d])[p]) {
      if p <= |wal| {
        assert w[..p] == wal[..p];
      } else {
        assert w[..p] == w && w[..|w| - 1] == wal;
      }
    }
  }

  /** Reading the last index agrees with the abstract log and keeps the cache right. */
  lemma {:induction false} LastShown(s: Store, t: AbsStore, cf: ColumnFamily)
    requires Simulates(s, t) && cf.IsLog()
    ensures var (u, r) := CachedLast(s, cf);
            var a := t.Now().Of(cf);
            && Simulates(u, t) && u.db == s.db && u.wal == s.wal && u.synced == s.synced
            && r == Ok(if a.entries == [] then None else Some(a.Next() - 1))
  {
    hide Represents, LastIndexIn, Contents, HistoryShown;
    NowShown(s, t);
    LastOfLog(FamilyOf(s.db, cf), t.Now().Of(cf));
  }

  lemma {:induction false} AppendShown(s: Store, t: AbsStore, cf: ColumnFamily, index: u64, entry: bytes)
    requires Simulates(s, t) && cf.IsLog()
    ensures var (u, r) := AppendLog(s, cf, index, entry);
            var (w, q) := AbsStep(t, Append(cf, index, entry));
            Simulates(u, w) && Done(r) == q
  {
    hide Represents, LastIndexIn, Contents, HistoryShown, LogKey, CachedLast, HasMeta;
    LastShown(s, t, cf);
    var s1 := CachedLast(s, cf).0;
    var a := t.Now().Of(cf);
    NowShown(s, t);
    AbsLogBound(s.db, cf, a);
    if a.Next() <= U64_MAX && index == a.Next() {
      AppendedShown(s1, t, cf, entry);
    }
  }

  lemma {:induction false} AppendedShown(s: Store, t: AbsStore, cf: ColumnFamily, entry: bytes)
    requires Simulates(s, t) && cf.IsLog() && t.Now().Of(cf).Next() <= U64_MAX
    ensures var a := t.Now().Of(cf);
            Simulates(Appended(s, cf, a.Next(), entry), t.Push(t.Now().With(cf, AbsLog(a.first, a.entries + [entry]))))
  {
    hide Represents, Contents, HistoryShown, LogKey, Ascii;
    var a := t.Now().Of(cf);
    var op := Put(cf, LogKey(a.Next()), entry);
    NowShown(s, t);
    PutRepresents(s.db, cf, a, entry);
    PutFrame(s.db, op);
    LogKeyIsLogKey(a.Next());
    assert !BatchRequiresFsync([op]);
    PushShown(s.wal, t.history, [op], t.Now().With(cf, AbsLog(a.first, a.entries + [entry])));
    CommitValid(s, [op]);
  }

  /** A put changes one key of one family. */
  lemma {:induction false} PutFrame(db: Db, op: WriteOp)
    requires op.Put?
    ensures var r := ApplyOps(db, [op]);
            && FamilyOf(r, op.cf) == FamilyOf(db, op.cf)[op.key := op.value]
            && forall other :: other != op.cf ==> FamilyOf(r, other) == FamilyOf(db, other)
  {
    OneOpFrame(db, op);
  }

  lemma {:induction false} TruncateShown(s: Store, t: AbsStore, cf: ColumnFamily, before: u64)
    requires Simulates(s, t) && cf.IsLog()
    ensures var (u, r) := TruncateLog(s, cf, before);
            var (w, q) := AbsStep(t, Truncate(cf, before));
            Simulates(u, w) && Done(r) == q
  {
    hide Represents, LastIndexIn, Contents, HistoryShown, LogKey, CachedLast, HasMeta, DeletesUpTo;
    LastShown(s, t, cf);
    var s1 := CachedLast(s, cf).0;
    var a := t.Now().Of(cf);
    NowShown(s, t);
    if a.entries != [] {
      assert a.Next() - 1 <= U64_MAX by { AbsLogBound(s.db, cf, a); }
      DeletedShown(s1, t, cf, before);
    }
  }

  lemma {:induction false} AbsLogBound(db: Db, cf: ColumnFamily, a: AbsLog)
    requires FamilyShows(db, cf, a)
    ensures a.Valid()
  {
  }

  lemma {:induction false} DeletedShown(s: Store, t: AbsStore, cf: ColumnFamily, before: u64)
    requires Simulates(s, t) && cf.IsLog() && t.Now().Of(cf).entries != [] && t.Now().Of(cf).Next() - 1 <= U64_MAX
    ensures var a := t.Now().Of(cf);
            var c := Commit(s, DeletesUpTo(cf, DeleteBound(a.Next() - 1, before)));
            Simulates(c.(cache := c.cache - {cf}), t.Push(t.Now().With(cf, AbsTruncate(a, before))))
  {
    hide Represents, Contents, HistoryShown, LogKey, WithoutUpTo, ParseLogKey, IsLogKey, DeletesUpTo, AbsTruncate;
    var a := t.Now().Of(cf);
    var n := DeleteBound(a.Next() - 1, before);
    var ops := DeletesUpTo(cf, n);
    NowShown(s, t);
    WithoutRepresents(FamilyOf(s.db, cf), a, before);
    WithoutUpToKeys(FamilyOf(s.db, cf), n);
    DeletesEffect(s.db, cf, n);
    DeletesNeedNoFsync(cf, n);
    PushShown(s.wal, t.history, ops, t.Now().With(cf, AbsTruncate(a, before)));
    CommitValid(s, ops);
  }

  lemma {:induction false} ElsewhereShown(s: Store, t: AbsStore, cf: ColumnFamily, key: bytes, value: bytes)
    requires Simulates(s, t) && !cf.IsLog()
    ensures Simulates(Commit(s, [Put(cf, key, value)]), AbsStep(t, WriteElsewhere(cf, key, value)).0)
  {
    hide Represents, Contents, HistoryShown, HasMeta;
    var op := Put(cf, key, value);
    NowShown(s, t);
    PutFrame(s.db, op);
    assert [op][0] == op;
    PushShown(s.wal, t.history, [op], t.Now());
    CommitValid(s, [op]);
  }

  /** Reopening shows the abstract logs of the surviving prefix, with a warm cache. */
  lemma {:induction false} RestartShown(s: Store, t: AbsStore, keep: nat)
    requires Simulates(s, t) && s.synced <= keep <= |s.wal|
    ensures var (u, r) := Reopen(s, keep);
            Simulates(u, AbsStore(t.history[..keep + 1], keep)) && r == Ok(())
  {
    hide Represents, LastIndexIn, Contents, HasMeta;
    var c, h := Crash(s, keep), t.history[..keep + 1];
    var u := AbsStore(h, keep);
    assert HistoryShown(c.wal, h) by {
      forall p | 0 <= p <= keep ensures Shows(Contents(c.wal[..p]), h[p]) {
        assert c.wal[..p] == s.wal[..p];
      }
    }
    assert Simulates(c, u);
    NowShown(c, u);
    LastOfLog(FamilyOf(c.db, SystemRaftLog), u.Now().system);
    LastOfLog(FamilyOf(c.db, DataRaftLog), u.Now().data);
  }

  /** One operation gives the abstract answer and keeps the simulation. */
  lemma {:induction false} StepSimulates(s: Store, t: AbsStore, op: LogOp)
    requires Simulates(s, t)
    ensures Simulates(Step(s, op).0, AbsStep(t, op).0) && Step(s, op).1 == AbsStep(t, op).1
  {
    hide Simulates, AppendLog, TruncateLog, Reopen;
    match op
    case Append(cf, i, e) => if cf.IsLog() { AppendShown(s, t, cf, i, e); } else { NotALog(s, t, op); }
    case Truncate(cf, b) => if cf.IsLog() { TruncateShown(s, t, cf, b); } else { NotALog(s, t, op); }
    case LastIndexOf(cf) => if cf.IsLog() { LastShown(s, t, cf); } else { NotALog(s, t, op); }
    case WriteElsewhere(cf, k, v) => if !cf.IsLog() { ElsewhereShown(s, t, cf, k, v); }
    case Restart(keep) => RestartStep(s, t, keep);
  }

  lemma {:induction false} NotALog(s: Store, t: AbsStore, op: LogOp)
    requires Simulates(s, t) && (op.Append? || op.Truncate? || op.LastIndexOf?) && !op.cf.IsLog()
    ensures Step(s, op).0 == s && AbsStep(t, op).0 == t && Step(s, op).1 == AbsStep(t, op).1
  {
  }

  lemma {:induction false} RestartStep(s: Store, t: AbsStore, keep: nat)
    requires Simulates(s, t)
    ensures Simulates(Step(s, Restart(keep)).0, AbsStep(t, Restart(keep)).0)
    ensures Step(s, Restart(keep)).1 == AbsStep(t, Restart(keep)).1
  {
    hide Simulates, Reopen;
    SimulatedShape(s, t);
    if s.synced <= keep <= |s.wal| { RestartShown(s, t, keep); }
  }

  lemma {:induction false} RunSimulates(s: Store, t: AbsStore, ops: seq<LogOp>)
    requires Simulates(s, t)
    ensures Simulates(Run(s, ops).0, AbsRun(t, ops).0) && Run(s, ops).1 == AbsRun(t, ops).1
    decreases |ops|
  {
    hide Simulates, Step, AbsStep;
    if ops != [] {
      SimulatedShape(s, t);
      StepSimulates(s, t, ops[0]);
      RunSimulates(Step(s, ops[0]).0, AbsStep(t, ops[0]).0, ops[1..]);
    }
  }

  lemma {:induction false} SimulatedShape(s: Store, t: AbsStore)
    requires Simulates(s, t)
    ensures |t.history| == |s.wal| + 1 && t.synced == s.synced
  {
  }

  lemma {:induction false} EmptySimulates()
    ensures Simulates(EMPTY_STORE, EMPTY_ABS)
  {
    var wal: seq<seq<WriteOp>> := [];
    forall p | 0 <= p <= |wal| ensures Shows(Contents(wal[..p]), EMPTY_ABS.history[p]) {
      assert wal[..p] == [];
    }
  }

  /**
    * Every run from an empty store, with restarts and crashes anywhere, answers like the abstract log;
    * at its end each log family holds exactly the entries of one gap-free interval, and the cached last
    * index answers what the database would.
    */
  lemma {:induction false} LogRunsRefine(ops: seq<LogOp>)
    ensures var (s, answers) := Run(EMPTY_STORE, ops);
            var (t, expected) := AbsRun(EMPTY_ABS, ops);
            && answers == expected
            && forall cf: ColumnFamily :: cf in {SystemRaftLog, DataRaftLog} ==>
                 && Represents(FamilyOf(s.db, cf), t.Now().Of(cf))
                 && CachedLast(s, cf).1 == CachedLast(s.(cache := map[]), cf).1
                 && CachedLast(s, cf).1.Ok?
  {
    hide Simulates, Run, AbsRun, Represents, CachedLast;
    EmptySimulates();
    RunSimulates(EMPTY_STORE, EMPTY_ABS, ops);
    var s, t := Run(EMPTY_STORE, ops).0, AbsRun(EMPTY_ABS, ops).0;
    forall cf: ColumnFamily | cf in {SystemRaftLog, DataRaftLog}
      ensures Represents(FamilyOf(s.db, cf), t.Now().Of(cf))
      ensures CachedLast(s, cf).1 == CachedLast(s.(cache := map[]), cf).1 && CachedLast(s, cf).1.Ok?
    {
      SimulatedFamily(s, t, cf);
    }
  }

  lemma {:induction false} SimulatedFamily(s: Store, t: AbsStore, cf: ColumnFamily)
    requires Simulates(s, t) && cf.IsLog()
    ensures Represents(FamilyOf(s.db, cf), t.Now().Of(cf))
    ensures CachedLast(s, cf).1 == CachedLast(s.(cache := map[]), cf).1 && CachedLast(s, cf).1.Ok?
  {
    hide Represents, LastIndexIn, Contents, HistoryShown, HasMeta;
    NowShown(s, t);
    LastOfLog(FamilyOf(s.db, cf), t.Now().Of(cf));
  }

  /** After every run a range read returns that range of the abstract log. */
  lemma {:induction false} RangeReadsExact(ops: seq<LogOp>, cf: ColumnFamily, from: u64, until: nat)
    requires cf in {SystemRaftLog, DataRaftLog}
    ensures var m := FamilyOf(Run(EMPTY_STORE, ops).0.db, cf);
            ScanRange(m, KeysFrom(m, LogKey(from)), until) == Ok(AbsRange(AbsRun(EMPTY_ABS, ops).0.Now().Of(cf), from, until))
  {
    hide Run, AbsRun, Represents, LiveValues, AbsRange, ScanRange, LogKey, KeysFrom, Canonical;
    LogRunsRefine(ops);
    var m, a := FamilyOf(Run(EMPTY_STORE, ops).0.db, cf), AbsRun(EMPTY_ABS, ops).0.Now().Of(cf);
    RepresentsCanonical(m, a);
    RangeOfLog(m, a, from, until);
    RangeScanExact(m, from, until);
  }
}
