/** Raft log operations of the store (crates/storage/src/storage.rs): meaning and implementation. */
module LogStore {
  import opened Bytes
  import opened Decimal
  import opened LogKeys
  import opened RocksStore

  datatype Error =
    | InvalidColumnFamily
    | InvalidLogIndex(expected: nat, got: nat)
    | CorruptedData
    | BatchTooLarge(operations: nat)

  /** `Panic` stands for a `u64` overflow. */
  datatype Result<+T> = Ok(value: T) | Err(error: Error) | Panic

  const MAX_BATCH_OPERATIONS: nat := 100_000

  // ----- Meaning -----

  datatype LastIndex = NoEntry | Index(i: nat) | Corrupt

  lemma {:induction false} GreatestExists(ks: set<bytes>)
    requires ks != {}
    ensures exists k :: IsGreatest(ks, k)
    decreases |ks|
  {
    var x :| x in ks;
    var rest := ks - {x};
    if rest == {} {
      assert forall y :: y in ks ==> y == x || y in rest;
      assert IsGreatest(ks, x);
    } else {
      GreatestExists(rest);
      var g :| IsGreatest(rest, g);
      BelowTotal(x, g);
      if AtMost(x, g) {
        assert IsGreatest(ks, g);
      } else {
        forall y | y in ks ensures AtMost(y, x) { if y != x { AtMostTransitive(y, g, x); } }
        assert IsGreatest(ks, x);
      }
    }
  }

  /** `get_last_log_index_from_db`: the index in the greatest key of the family. */
  ghost function LastIndexIn(m: Family): (r: LastIndex) {
    if m == map[] then NoEntry
    else
      GreatestExists(m.Keys);
      var k :| IsGreatest(m.Keys, k);
      match ParseLogKey(k)
      case None => Corrupt
      case Some(i) => Index(i)
  }

  lemma {:induction false} LastIndexOfGreatest(m: Family, k: bytes)
    requires IsGreatest(m.Keys, k)
    ensures LastIndexIn(m) == match ParseLogKey(k) case None => Corrupt case Some(i) => Index(i)
  {
    GreatestIsUnique(m.Keys, k);
  }

  lemma {:induction false} GreatestIsUnique(ks: set<bytes>, k: bytes)
    requires IsGreatest(ks, k)
    ensures forall g :: IsGreatest(ks, g) ==> g == k
  {
    forall g | IsGreatest(ks, g) ensures g == k {
      AtMostAntisymmetric(k, g);
    }
  }

  /** `get_cached_last_log_index`: the cache first, then the database, which fills the cache. */
  ghost function CachedLast(s: Store, cf: ColumnFamily): (r: (Store, Result<Option<nat>>)) {
    if cf in s.cache then (s, Ok(Some(s.cache[cf])))
    else if !cf.IsLog() then (s, Err(InvalidColumnFamily))
    else
      match LastIndexIn(FamilyOf(s.db, cf))
      case NoEntry => (s, Ok(None))
      case Index(i) => (s.(cache := s.cache[cf := i]), Ok(Some(i)))
      case Corrupt => (s, Err(CorruptedData))
  }

  /** `append_log_entry`. */
  ghost function AppendLog(s: Store, cf: ColumnFamily, index: nat, entry: bytes): (r: (Store, Result<()>))
    requires index <= U64_MAX
  {
    if !cf.IsLog() then (s, Err(InvalidColumnFamily))
    else
      var (s1, last) := CachedLast(s, cf);
      match last
      case Err(e) => (s1, Err(e))
      case Panic => (s1, Panic)
      case Ok(Some(n)) =>
        if n >= U64_MAX then (s1, Panic)
        else if index != n + 1 then (s1, Err(InvalidLogIndex(n + 1, index)))
        else (Appended(s1, cf, index, entry), Ok(()))
      case Ok(None) =>
        if index != 1 then (s1, Err(InvalidLogIndex(1, index)))
        else (Appended(s1, cf, index, entry), Ok(()))
  }

  function Appended(s: Store, cf: ColumnFamily, index: nat, entry: bytes): (r: Store)
    requires index <= U64_MAX
  {
    var t := Commit(s, [Put(cf, LogKey(index), entry)]);
    t.(cache := t.cache[cf := index])
  }

  /** One delete for each index from 1 to `n`. */
  function DeletesUpTo(cf: ColumnFamily, n: nat): (ops: seq<WriteOp>)
    requires n <= U64_MAX
  {
    if n == 0 then [] else DeletesUpTo(cf, n - 1) + [Delete(cf, LogKey(n))]
  }

  /** `truncate_log_before`: deletes from index 1 up, in one batch, and forgets the cached index. */
  ghost function TruncateLog(s: Store, cf: ColumnFamily, before: nat): (r: (Store, Result<()>))
    requires before <= U64_MAX
  {
    if !cf.IsLog() then (s, Err(InvalidColumnFamily))
    else
      var (s1, last) := CachedLast(s, cf);
      match last
      case Err(e) => (s1, Err(e))
      case Panic => (s1, Panic)
      case Ok(None) => (s1, Ok(()))
      case Ok(Some(n)) =>
        if n > U64_MAX then (s1, Panic)
        else
          var t := Commit(s1, DeletesUpTo(cf, if before > n then n else if before == 0 then 0 else before - 1));
          (t.(cache := t.cache - {cf}), Ok(()))
  }

  /** The values stored at indices in `[from, until)`, ascending. */
  function LiveValues(m: Family, from: nat, until: nat): (vs: seq<bytes>)
    decreases until
  {
    if until <= from then []
    else
      LiveValues(m, from, until - 1) +
      (if until - 1 <= U64_MAX && LogKey(until - 1) in m then [m[LogKey(until - 1)]] else [])
  }

  /** `warm_up_index_cache` for one family. */
  ghost function Warm(s: Store, cf: ColumnFamily): (r: (Store, Result<()>)) {
    match LastIndexIn(FamilyOf(s.db, cf))
    case NoEntry => (s, Ok(()))
    case Index(i) => (s.(cache := s.cache[cf := i]), Ok(()))
    case Corrupt => (s, Err(CorruptedData))
  }

  /** `Storage::new` on the files a shutdown or a crash left: an empty cache, then the warm-up. */
  ghost function Reopen(s: Store, keep: nat): (r: (Store, Result<()>))
    requires keep <= |s.wal|
  {
    var (s1, r1) := Warm(Crash(s, keep), SystemRaftLog);
    if !r1.Ok? then (s1, r1) else Warm(s1, DataRaftLog)
  }

  // ----- Families whose keys are log keys and metadata keys -----

  predicate IsLogKey(k: bytes) {
    ParseLogKey(k).Some? && k == LogKey(ParseLogKey(k).value)
  }

  lemma {:induction false} LogKeyIsLogKey(i: nat)
    requires i <= U64_MAX
    ensures IsLogKey(LogKey(i)) && ParseLogKey(LogKey(i)) == Some(i) && !IsMetaKey(LogKey(i))
  {
    ParseFormatLogKey(i);
    if IsMetaKey(LogKey(i)) { MetaBelowLog(LogKey(i), i); }
  }

  predicate Canonical(m: Family) {
    forall k :: k in m ==> IsLogKey(k) || IsMetaKey(k)
  }

  predicate Has(m: Family, i: nat) {
    i <= U64_MAX && LogKey(i) in m
  }

  // ----- Range scans -----

  /**
    * `get_log_range` from a cursor that has the keys `ks` before it: a key of another shape ends the
    * scan, a log prefix without an index is an error.
    */
  ghost function ScanRange(m: Family, ks: set<bytes>, end: nat): (r: Result<seq<bytes>>)
    requires ks <= m.Keys
    decreases |ks|
  {
    if ks == {} then Ok([])
    else
      var k := Least(ks);
      if |k| < 24 || k[..4] != LOG_PREFIX then Ok([])
      else
        match ParseU64(k[4..24])
        case None => Err(CorruptedData)
        case Some(i) => if i >= end then Ok([]) else Ahead([m[k]], ScanRange(m, ks - {k}, end))
  }

  function Ahead(vs: seq<bytes>, r: Result<seq<bytes>>): (q: Result<seq<bytes>>) {
    if r.Ok? then Ok(vs + r.value) else r
  }

  lemma {:induction false} AheadTwice(a: seq<bytes>, b: seq<bytes>, r: Result<seq<bytes>>)
    ensures Ahead(a, Ahead(b, r)) == Ahead(a + b, r)
    ensures Ahead([], r) == r
  {
    if r.Ok? {
      assert a + (b + r.value) == a + b + r.value;
      assert [] + r.value == r.value;
    }
  }

  /** A key the scan takes for a log entry: `log:` and at least twenty more bytes. */
  predicate Shaped(k: bytes) {
    |k| >= 24 && k[0] == 'l' as byte && k[1] == 'o' as byte && k[2] == 'g' as byte && k[3] == ':' as byte
  }

  lemma {:induction false} ShapedPrefix(k: bytes)
    ensures Shaped(k) <==> |k| >= 24 && k[..4] == LOG_PREFIX
  {
    if |k| >= 24 { assert k[..4] == [k[0], k[1], k[2], k[3]]; }
  }

  /** The scan passes over `k` and goes on. */
  ghost predicate Passes(k: bytes, end: nat) {
    Shaped(k) && exists i: nat :: IndexText(k[4..24], i) && i < end
  }

  /** The scan stops at `k` with an error. */
  ghost predicate Breaks(k: bytes) {
    Shaped(k) && forall i: nat :: !IndexText(k[4..24], i)
  }

  /** A range scan fails exactly when the first key it cannot pass over is a log entry without an index. */
  lemma {:induction false} ScanFailsExactly(m: Family, ks: set<bytes>, end: nat)
    requires ks <= m.Keys
    ensures ScanRange(m, ks, end).Ok? || ScanRange(m, ks, end) == Err(CorruptedData)
    ensures ScanRange(m, ks, end).Err? <==>
            exists k :: k in ks && Breaks(k) && forall y :: y in ks && Below(y, k) ==> Passes(y, end)
    decreases |ks|
  {
    hide Below, LogKey, IndexText;
    if ks != {} {
      var k := Least(ks);
      ShapedPrefix(k);
      ScanFailsExactly(m, ks - {k}, end);
      forall y | y in ks && y != k ensures Below(k, y) && !Below(y, k) {
        assert AtMost(k, y);
        AtMostExcludesBelow(k, y);
      }
      BelowIrreflexive(k);
      if Passes(k, end) {
        forall x | x in ks && Breaks(x) ensures x != k { BreaksOrPasses(k, end); }
      }
    }
  }

  lemma {:induction false} BreaksOrPasses(k: bytes, end: nat)
    ensures !(Breaks(k) && Passes(k, end))
  {
    hide IndexText;
  }

  /** Every key from the log key of `from` on that reads as an index is the log key of that index. */
  predicate ReadableFrom(m: Family, from: nat) {
    forall k :: k in m && AtMost(LogKey(from), k) && ParseLogKey(k).Some? ==> IsLogKey(k)
  }

  predicate Readable(m: Family) {
    ReadableFrom(m, 0)
  }

  lemma {:induction false} ReadableLater(m: Family, from: u64)
    requires Readable(m)
    ensures ReadableFrom(m, from)
  {
    hide LogKey, ParseLogKey, Below;
    forall k | k in m && AtMost(LogKey(from), k) && ParseLogKey(k).Some? ensures IsLogKey(k) {
      if from > 0 { LogKeyOrder(0, from); }
      AtMostTransitive(LogKey(0), LogKey(from), k);
    }
  }

  lemma {:induction false} CanonicalIsReadable(m: Family)
    requires Canonical(m)
    ensures Readable(m)
  {
    hide LogKey, Below;
    forall k | k in m && ParseLogKey(k).Some? ensures IsLogKey(k) {
      if IsMetaKey(k) { MetaBelowLog(k, 0); }
    }
  }

  /** The keys `ks` before a cursor hold every log key of `m` from index `n` on and none below. */
  ghost predicate Covers(m: Family, ks: set<bytes>, n: nat) {
    && ks <= m.Keys
    && (forall k :: k in ks && ParseLogKey(k).Some? ==> IsLogKey(k) && ParseLogKey(k).value >= n)
    && (forall i: nat :: i >= n && Has(m, i) ==> LogKey(i) in ks)
  }

  /** Seeking to a log key covers the log from its index on. */
  lemma {:induction false} SeekCovers(m: Family, from: nat)
    requires from <= U64_MAX && ReadableFrom(m, from)
    ensures Covers(m, KeysFrom(m, LogKey(from)), from)
  {
    hide LogKey, ParseLogKey, Below, Ascii;
    var ks := KeysFrom(m, LogKey(from));
    forall k | k in ks && ParseLogKey(k).Some? ensures IsLogKey(k) && ParseLogKey(k).value >= from {
      LogKeyOrder(ParseLogKey(k).value, from);
      AtMostExcludesBelow(LogKey(from), k);
    }
    forall i: nat | i >= from && Has(m, i) ensures LogKey(i) in ks {
      LogKeyOrder(from, i);
    }
  }

  /** The next key of a covering cursor: no log key, or the first live index. */
  lemma {:induction false} StepCovers(m: Family, ks: set<bytes>, n: nat, k: bytes)
    requires Covers(m, ks, n) && IsLeast(ks, k)
    ensures ParseLogKey(k).None? ==> Covers(m, ks - {k}, n)
    ensures ParseLogKey(k).Some? ==>
              var j := ParseLogKey(k).value;
              && j >= n && k == LogKey(j) && Has(m, j)
              && (forall i: nat :: n <= i < j ==> !Has(m, i))
              && Covers(m, ks - {k}, j + 1)
  {
    hide LogKey, ParseLogKey, Below, Ascii;
    if ParseLogKey(k).None? {
      forall i: nat | i >= n && Has(m, i) ensures LogKey(i) in ks - {k} {
        ParseFormatLogKey(i);
      }
    } else {
      var j := ParseLogKey(k).value;
      forall i: nat | n <= i < j ensures !Has(m, i) {
        if Has(m, i) {
          LogKeyOrder(i, j);
          AtMostExcludesBelow(k, LogKey(i));
        }
      }
      forall y | y in ks - {k} && ParseLogKey(y).Some? ensures ParseLogKey(y).value >= j + 1 {
        LogKeyOrder(ParseLogKey(y).value, j);
        AtMostExcludesBelow(k, y);
      }
      forall i: nat | i >= j + 1 && Has(m, i) ensures LogKey(i) in ks - {k} {
        if LogKey(i) == LogKey(j) { LogKeyInjective(i, j); }
      }
    }
  }

  lemma {:induction false} LiveValuesNone(m: Family, from: nat, until: nat)
    requires forall i: nat :: from <= i < until ==> !Has(m, i)
    ensures LiveValues(m, from, until) == []
    decreases until
  {
    hide LogKey;
    if until > from {
      assert !Has(m, until - 1);
      LiveValuesNone(m, from, until - 1);
    }
  }

  lemma {:induction false} LiveValuesFirst(m: Family, from: nat, j: nat, until: nat)
    requires from <= j < until && Has(m, j) && forall i: nat :: from <= i < j ==> !Has(m, i)
    ensures LiveValues(m, from, until) == [m[LogKey(j)]] + LiveValues(m, j + 1, until)
    decreases until
  {
    hide LogKey;
    if until == j + 1 {
      LiveValuesNone(m, from, j);
    } else {
      LiveValuesFirst(m, from, j, until - 1);
    }
  }

  /** A log key has the shape the scan looks for. */
  lemma {:induction false} LogKeyShape(j: nat)
    requires j <= U64_MAX
    ensures var k := LogKey(j); |k| == 24 && k[..4] == LOG_PREFIX && ParseU64(k[4..24]) == Some(j)
  {
    PaddedValue(j);
    ParseFormatLogKey(j);
    assert LogKey(j)[4..24] == LogKey(j)[4..];
  }

  lemma {:induction false} ScanReadsRange(m: Family, ks: set<bytes>, n: nat, end: nat)
    requires Covers(m, ks, n) && forall k :: k in ks ==> IsLogKey(k)
    ensures ScanRange(m, ks, end) == Ok(LiveValues(m, n, end))
    decreases |ks|
  {
    hide LogKey, ParseLogKey, Below, Ascii, LiveValues, Covers;
    assert ks <= m.Keys by { CoversKeys(m, ks, n); }
    if ks == {} {
      assert forall i: nat :: n <= i < end ==> !Has(m, i) by { CoversNothing(m, n); }
      LiveValuesNone(m, n, end);
    } else {
      var k := Least(ks);
      StepCovers(m, ks, n, k);
      var j := ParseLogKey(k).value;
      LogKeyShape(j);
      if j >= end {
        LiveValuesNone(m, n, end);
      } else {
        ScanReadsRange(m, ks - {k}, j + 1, end);
        LiveValuesFirst(m, n, j, end);
      }
    }
  }

  lemma {:induction false} CoversKeys(m: Family, ks: set<bytes>, n: nat)
    requires Covers(m, ks, n)
    ensures ks <= m.Keys
  {
  }

  lemma {:induction false} CoversNothing(m: Family, n: nat)
    requires Covers(m, {}, n)
    ensures forall i: nat :: i >= n ==> !Has(m, i)
  {
  }

  /** On a family of log keys and metadata keys a range scan returns exactly the live values of the range. */
  lemma {:induction false} RangeScanExact(m: Family, start: nat, end: nat)
    requires Canonical(m) && start <= U64_MAX
    ensures ScanRange(m, KeysFrom(m, LogKey(start)), end) == Ok(LiveValues(m, start, end))
  {
    hide LogKey, ParseLogKey, Below, Ascii;
    CanonicalIsReadable(m);
    ReadableLater(m, start);
    SeekCovers(m, start);
    var ks := KeysFrom(m, LogKey(start));
    forall k | k in ks ensures IsLogKey(k) {
      if IsMetaKey(k) {
        MetaBelowLog(k, start);
        AtMostExcludesBelow(LogKey(start), k);
      }
    }
    ScanReadsRange(m, ks, start, end);
  }

  // ----- Implementation -----

  /** crates/storage/src/storage.rs. */
  class Storage {
    var db: Db
    var cache: map<ColumnFamily, nat>
    var wal: seq<seq<WriteOp>>
    var synced: nat

    ghost function View(): (s: Store)
      reads this
    {
      Store(db, cache, wal, synced)
    }

    constructor ()
      ensures View() == EMPTY_STORE
    {
      db, cache, wal, synced := map[], map[], [], 0;
    }

    /** One RocksDB write with its sync option. */
    method Write(ops: seq<WriteOp>, sync: bool)
      requires sync == BatchRequiresFsync(ops)
      modifies this
      ensures View() == Commit(old(View()), ops)
    {
      var next := ApplyInOrder(db, ops);
      db := next;
      wal := wal + [ops];
      if sync { synced := |wal|; }
    }

    method Get(cf: ColumnFamily, key: bytes) returns (r: Option<bytes>)
      ensures r == var m := FamilyOf(db, cf); if key in m then Some(m[key]) else None
    {
      var m := FamilyOf(db, cf);
      r := if key in m then Some(m[key]) else None;
    }

    method PutKey(cf: ColumnFamily, key: bytes, value: bytes)
      modifies this
      ensures View() == Commit(old(View()), [Put(cf, key, value)])
    {
      var op := Put(cf, key, value);
      assert [op][0] == op;
      Write([op], cf.RequiresFsync());
    }

    method DeleteKey(cf: ColumnFamily, key: bytes)
      modifies this
      ensures View() == Commit(old(View()), [Delete(cf, key)])
    {
      var op := Delete(cf, key);
      assert [op][0] == op;
      Write([op], cf.RequiresFsync());
    }

    /** `batch_write`: nothing for an empty batch, an error for an oversized one. */
    method BatchWrite(ops: seq<WriteOp>) returns (r: Result<()>)
      modifies this
      ensures |ops| == 0 ==> r == Ok(()) && View() == old(View())
      ensures |ops| > MAX_BATCH_OPERATIONS ==> r == Err(BatchTooLarge(|ops|)) && View() == old(View())
      ensures 0 < |ops| <= MAX_BATCH_OPERATIONS ==> r == Ok(()) && View() == Commit(old(View()), ops)
    {
      if ops == [] { return Ok(()); }
      if |ops| > MAX_BATCH_OPERATIONS { return Err(BatchTooLarge(|ops|)); }
      var sync := false;
      for i := 0 to |ops|
        invariant sync <==> exists j :: 0 <= j < i && ops[j].cf.RequiresFsync()
      {
        if ops[i].cf.RequiresFsync() { sync := true; }
      }
      Write(ops, sync);
      return Ok(());
    }

    method GetLastLogIndexFromDb(cf: ColumnFamily) returns (r: Result<Option<nat>>)
      ensures r == if !cf.IsLog() then Err(InvalidColumnFamily)
                   else match LastIndexIn(FamilyOf(db, cf))
                     case NoEntry => Ok(None)
                     case Index(i) => Ok(Some(i))
                     case Corrupt => Err(CorruptedData)
    {
      if !cf.IsLog() { return Err(InvalidColumnFamily); }
      var iter := new StorageIterator.End(FamilyOf(db, cf));
      if iter.at.None? { return Ok(None); }
      LastIndexOfGreatest(iter.family, iter.at.value);
      match ParseLogKey(iter.at.value)
      case None => return Err(CorruptedData);
      case Some(i) => return Ok(Some(i));
    }

    method GetCachedLastLogIndex(cf: ColumnFamily) returns (r: Result<Option<nat>>)
      modifies this`cache
      ensures (View(), r) == CachedLast(old(View()), cf)
    {
      if cf in cache { return Ok(Some(cache[cf])); }
      r := GetLastLogIndexFromDb(cf);
      if r.Ok? && r.value.Some? { cache := cache[cf := r.value.value]; }
    }

    method UpdateCachedLastLogIndex(cf: ColumnFamily, index: nat)
      modifies this`cache
      ensures View() == old(View()).(cache := old(cache)[cf := index])
    {
      cache := cache[cf := index];
    }

    method AppendLogEntry(cf: ColumnFamily, index: nat, entry: bytes) returns (r: Result<()>)
      requires index <= U64_MAX
      modifies this
      ensures (View(), r) == AppendLog(old(View()), cf, index, entry)
    {
      if !cf.IsLog() { return Err(InvalidColumnFamily); }
      var last := GetCachedLastLogIndex(cf);
      match last {
        case Err(e) => return Err(e);
        case Panic => return Panic;
        case Ok(None) =>
          if index != 1 { return Err(InvalidLogIndex(1, index)); }
        case Ok(Some(n)) =>
          if n >= U64_MAX { return Panic; }
          if index != n + 1 { return Err(InvalidLogIndex(n + 1, index)); }
      }
      PutKey(cf, LogKey(index), entry);
      UpdateCachedLastLogIndex(cf, index);
      return Ok(());
    }

    method TruncateLogBefore(cf: ColumnFamily, before: nat) returns (r: Result<()>)
      requires before <= U64_MAX
      modifies this
      ensures (View(), r) == TruncateLog(old(View()), cf, before)
    {
      if !cf.IsLog() { return Err(InvalidColumnFamily); }
      var last := GetCachedLastLogIndex(cf);
      match last
      case Err(e) => return Err(e);
      case Panic => return Panic;
      case Ok(None) => return Ok(());
      case Ok(Some(n)) =>
        if n > U64_MAX { return Panic; }
        var upTo := if before > n then n else if before == 0 then 0 else before - 1;
        var batch := BuildDeletes(cf, upTo);
        DeletesNeedNoFsync(cf, upTo);
        Write(batch, false);
        cache := cache - {cf};
        return Ok(());
    }

    /** `get_log_range`: seek, then step while the index is below `end`. */
    method GetLogRange(cf: ColumnFamily, start: nat, end: nat) returns (r: Result<seq<bytes>>)
      requires start <= U64_MAX && end <= U64_MAX
      ensures !cf.IsLog() ==> r == Err(InvalidColumnFamily)
      ensures cf.IsLog() ==> r == ScanRange(FamilyOf(db, cf), KeysFrom(FamilyOf(db, cf), LogKey(start)), end)
      ensures cf.IsLog() && Canonical(FamilyOf(db, cf)) ==> r == Ok(LiveValues(FamilyOf(db, cf), start, end))
    {
      hide LogKey, ParseLogKey, Below, Ascii, Canonical, KeysFrom;
      if !cf.IsLog() { return Err(InvalidColumnFamily); }
      var m := FamilyOf(db, cf);
      if Canonical(m) { RangeScanExact(m, start, end); }
      var entries: seq<bytes> := [];
      var iter := new StorageIterator.From(m, LogKey(start));
      ghost var whole := ScanRange(m, iter.Left(), end);
      AheadTwice([], [], whole);
      while iter.at.Some?
        invariant iter.family == m && iter.Valid() && iter.Left() <= m.Keys
        invariant whole == Ahead(entries, ScanRange(m, iter.Left(), end))
        decreases |iter.Left()|
      {
        var k := iter.at.value;
        iter.AtLeast();
        LeastIsUnique(iter.Left(), k, Least(iter.Left()));
        assert entries + [] == entries;
        if |k| < 24 || k[..4] != LOG_PREFIX { return Ok(entries); }
        var index := ParseU64(k[4..24]);
        if index.None? { return Err(CorruptedData); }
        if index.value >= end { return Ok(entries); }
        AheadTwice(entries, [m[k]], ScanRange(m, iter.Left() - {k}, end));
        entries := entries + [m[k]];
        var _ := iter.StepForward();
      }
      assert entries + [] == entries;
      return Ok(entries);
    }
  }

  method ApplyInOrder(db: Db, ops: seq<WriteOp>) returns (next: Db)
    ensures next == ApplyOps(db, ops)
  {
    next := db;
    for i := 0 to |ops|
      invariant next == ApplyOps(db, ops[..i])
    {
      ApplySnoc(db, ops[..i], ops[i]);
      assert ops[..i + 1] == ops[..i] + [ops[i]];
      next := ApplyOp(next, ops[i]);
    }
    assert ops[..|ops|] == ops;
  }

  method BuildDeletes(cf: ColumnFamily, n: nat) returns (batch: seq<WriteOp>)
    requires n <= U64_MAX
    ensures batch == DeletesUpTo(cf, n)
  {
    batch := [];
    for index := 1 to n + 1
      invariant batch == DeletesUpTo(cf, index - 1)
    {
      batch := batch + [Delete(cf, LogKey(index))];
    }
  }

  lemma {:induction false} DeletesNeedNoFsync(cf: ColumnFamily, n: nat)
    requires n <= U64_MAX && cf.IsLog()
    ensures !BatchRequiresFsync(DeletesUpTo(cf, n))
  {
    if n > 0 {
      DeletesNeedNoFsync(cf, n - 1);
      var ops := DeletesUpTo(cf, n);
      forall i | 0 <= i < |ops| ensures !ops[i].cf.RequiresFsync() {
        if i < |ops| - 1 { assert ops[i] == DeletesUpTo(cf, n - 1)[i]; }
      }
    }
  }
}
