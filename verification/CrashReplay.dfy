/**
  * Runs of the RocksDB state machine over one committed log, with any batch cuts and any number of
  * crashes. A crash keeps a prefix of the writes that holds everything up to the last synced one;
  * replay then starts from the applied index found on disk.
  */
module CrashReplay {
  import opened Bytes
  import opened LogKeys
  import opened RocksStore
  import opened RaftLog
  import opened StateMachines
  import opened RocksMachine

  /** The committed log: entry `i` carries index `i + 1`. */
  predicate IsLog(log: seq<Entry>) {
    forall i :: 0 <= i < |log| ==> log[i].id.index == i + 1
  }

  /** The applied index on disk (`applied_state`); 0 when there is none. */
  function AppliedIn(c: Codec, db: Db): (a: nat) {
    var m := FamilyOf(db, DataRaftState);
    if APPLIED_KEY !in m then 0
    else
      match c.decodeId(m[APPLIED_KEY])
      case None => 0
      case Some(id) => id.index
  }

  /** The next `n` entries after index `a`, or as many as there are. */
  function Pending(log: seq<Entry>, a: nat, n: nat): (es: seq<Entry>)
    ensures a <= |log| ==> |es| <= n && a + |es| <= |log| && es == log[a..a + |es|]
    ensures a + n <= |log| ==> |es| == n
  {
    if a > |log| then [] else log[a..if a + n <= |log| then a + n else |log|]
  }

  /** `ApplyNext`: one call of `apply`. `CrashAfter`: `n` entries of a call, then a crash losing up to `lost` unsynced writes. */
  datatype Step = ApplyNext(n: nat) | CrashAfter(n: nat, lost: nat)

  /** A store, and the highest index any call ever attempted. */
  datatype Node = Node(store: Store, attempted: nat)

  const NEW_NODE := Node(EMPTY_STORE, 0)

  /** What survives when at most `lost` of the unsynced writes are lost. */
  function Kept(s: Store, lost: nat): (keep: nat) {
    if s.synced + lost <= |s.wal| then |s.wal| - lost else s.synced
  }

  function Attempt(c: Codec, log: seq<Entry>, x: Node, n: nat): (h: nat) {
    var a := AppliedIn(c, x.store.db);
    var end := a + |Pending(log, a, n)|;
    if x.attempted < end then end else x.attempted
  }

  function StepOn(c: Codec, decode: Decode, log: seq<Entry>, x: Node, st: Step): (y: Node) {
    var es := Pending(log, AppliedIn(c, x.store.db), st.n);
    var h := Attempt(c, log, x, st.n);
    match st
    case ApplyNext(_) => Node(RocksApply(x.store, DataRaft, c, decode, es).0, h)
    case CrashAfter(_, lost) =>
      var t := ApplyWrites(x.store, DataRaft, c, decode, es).0;
      Node(if Kept(t, lost) <= |t.wal| then Crash(t, Kept(t, lost)) else t, h)
  }

  function RunFrom(c: Codec, decode: Decode, log: seq<Entry>, x: Node, steps: seq<Step>): (y: Node)
    decreases |steps|
  {
    if steps == [] then x
    else StepOn(c, decode, log, RunFrom(c, decode, log, x, steps[..|steps| - 1]), steps[|steps| - 1])
  }

  // ----- The data at a position of the log -----

  function Kv(db: Db): (m: Family) {
    FamilyOf(db, DataKv)
  }

  function At(decode: Decode, log: seq<Entry>, j: nat): (m: Family)
    requires j <= |log|
  {
    Fold(decode, map[], log[..j])
  }

  function Look(m: Family, k: bytes): (v: Option<bytes>) {
    if k in m then Some(m[k]) else None
  }

  /** Key `k` of `m` is as the log left it at some position from `lo` to `hi`. */
  ghost predicate Placed(decode: Decode, log: seq<Entry>, m: Family, k: bytes, lo: nat, hi: nat)
    requires hi <= |log|
  {
    exists j :: lo <= j <= hi && Look(m, k) == Look(At(decode, log, j), k)
  }

  /** Each key is as the log left it somewhere from `lo` to `hi`, its own position for each key. */
  ghost predicate Between(decode: Decode, log: seq<Entry>, m: Family, lo: nat, hi: nat)
    requires hi <= |log|
  {
    forall k :: Placed(decode, log, m, k, lo, hi)
  }

  lemma {:induction false} BetweenWidens(decode: Decode, log: seq<Entry>, m: Family, lo: nat, hi: nat, lo': nat, hi': nat)
    requires hi <= hi' <= |log| && lo' <= lo && Between(decode, log, m, lo, hi)
    ensures Between(decode, log, m, lo', hi')
  {
    hide At, Look;
    forall k ensures Placed(decode, log, m, k, lo', hi') {
      assert Placed(decode, log, m, k, lo, hi);
      var j :| lo <= j <= hi && Look(m, k) == Look(At(decode, log, j), k);
    }
  }

  predicate Writes(decode: Decode, e: Entry, k: bytes) {
    e.payload.Normal? && decode(e.payload.operation).Some? && decode(e.payload.operation).value.key == k
  }

  /** An entry gives its key the same value on every map and leaves the other keys alone. */
  lemma {:induction false} FoldOneLook(decode: Decode, m: Family, n: Family, e: Entry, k: bytes)
    ensures Writes(decode, e, k) ==> Look(FoldOne(decode, m, e), k) == Look(FoldOne(decode, n, e), k)
    ensures !Writes(decode, e, k) ==> Look(FoldOne(decode, m, e), k) == Look(m, k)
  {
  }

  lemma {:induction false} AtNext(decode: Decode, log: seq<Entry>, j: nat)
    requires j < |log|
    ensures At(decode, log, j + 1) == FoldOne(decode, At(decode, log, j), log[j])
  {
    assert log[..j + 1][..j] == log[..j];
  }

  /** Replaying entry `lo` moves every key past position `lo`, wherever it was. */
  lemma {:induction false} ReplayAdvances(decode: Decode, log: seq<Entry>, m: Family, lo: nat, hi: nat)
    requires lo < hi <= |log| && Between(decode, log, m, lo, hi)
    ensures Between(decode, log, FoldOne(decode, m, log[lo]), lo + 1, hi)
  {
    hide At, Look, FoldOne, Writes;
    AtNext(decode, log, lo);
    var r := FoldOne(decode, m, log[lo]);
    var lo' := lo + 1;
    forall k ensures Placed(decode, log, r, k, lo', hi) {
      assert Placed(decode, log, m, k, lo, hi);
      var j :| lo <= j <= hi && Look(m, k) == Look(At(decode, log, j), k);
      FoldOneLook(decode, m, At(decode, log, lo), log[lo], k);
      FoldOneLook(decode, At(decode, log, lo), At(decode, log, lo), log[lo], k);
      var j' := if j == lo || Writes(decode, log[lo], k) then lo + 1 else j;
      assert Look(r, k) == Look(At(decode, log, j'), k);
    }
  }

  lemma {:induction false} UnwrittenStays(decode: Decode, log: seq<Entry>, k: bytes, a: nat, j: nat)
    requires a <= j <= |log| && forall i :: a <= i < j ==> !Writes(decode, log[i], k)
    ensures Look(At(decode, log, j), k) == Look(At(decode, log, a), k)
    decreases j - a
  {
    hide At, Look, FoldOne, Writes;
    if a < j {
      UnwrittenStays(decode, log, k, a, j - 1);
      AtNext(decode, log, j - 1);
      FoldOneLook(decode, At(decode, log, j - 1), map[], log[j - 1], k);
    }
  }

  lemma {:induction false} SameLooks(m: Family, n: Family)
    requires forall k :: Look(m, k) == Look(n, k)
    ensures m == n
  {
    forall k ensures k in m <==> k in n { assert Look(m, k) == Look(n, k); }
    forall k | k in m ensures m[k] == n[k] { assert Look(m, k) == Look(n, k); }
  }

  // ----- The invariant -----

  /** The database a crash that keeps `p` writes leaves. */
  function Survivor(s: Store, p: nat): (db: Db)
    requires p <= |s.wal|
  {
    Contents(s.wal[..p])
  }

  /** One possible survivor: the applied index is `a` and every key lies from `a` to `hi`. */
  ghost predicate Sound(c: Codec, decode: Decode, log: seq<Entry>, db: Db, a: nat, lo: nat, hi: nat)
    requires hi <= |log|
  {
    AppliedIn(c, db) == a && Between(decode, log, Kv(db), lo, hi)
  }

  /**
    * In the middle of a call, `pos` entries of the log in: every survivor of a crash here is sound for
    * the applied index `a`, and the open database has every key at `pos` or beyond.
    */
  ghost predicate Mid(c: Codec, decode: Decode, log: seq<Entry>, s: Store, a: nat, pos: nat, hi: nat) {
    && s.Valid() && a <= pos <= hi <= |log|
    && (forall p :: s.synced <= p <= |s.wal| ==> Sound(c, decode, log, Survivor(s, p), a, a, hi))
    && Sound(c, decode, log, s.db, a, pos, hi)
  }

  /** Between calls. */
  ghost predicate Ready(c: Codec, decode: Decode, log: seq<Entry>, x: Node) {
    var a := AppliedIn(c, x.store.db);
    Mid(c, decode, log, x.store, a, a, x.attempted)
  }

  lemma {:induction false} MidWidens(c: Codec, decode: Decode, log: seq<Entry>, s: Store, a: nat, pos: nat, hi: nat, hi': nat)
    requires Mid(c, decode, log, s, a, pos, hi) && hi <= hi' <= |log|
    ensures Mid(c, decode, log, s, a, pos, hi')
  {
    hide Between, AppliedIn, Kv, Contents;
    forall p | s.synced <= p <= |s.wal| ensures Sound(c, decode, log, Survivor(s, p), a, a, hi') {
      assert Sound(c, decode, log, Survivor(s, p), a, a, hi);
      BetweenWidens(decode, log, Kv(Survivor(s, p)), a, hi, a, hi');
    }
    BetweenWidens(decode, log, Kv(s.db), pos, hi, pos, hi');
  }

  /** The survivors of a longer log of writes: those of the shorter one, and the new database. */
  lemma {:induction false} SurvivorsOfCommit(s: Store, ops: seq<WriteOp>)
    requires s.Valid()
    ensures var t := Commit(s, ops);
            && t.Valid()
            && (forall p :: s.synced <= p <= |s.wal| ==> Survivor(t, p) == Survivor(s, p))
            && Survivor(t, |t.wal|) == t.db
            && (t.synced == s.synced || t.synced == |t.wal|)
  {
    hide ApplyOps;
    CommitValid(s, ops);
    var t := Commit(s, ops);
    assert t.wal[..|t.wal|] == t.wal;
    forall p | s.synced <= p <= |s.wal| ensures Survivor(t, p) == Survivor(s, p) {
      assert t.wal[..p] == s.wal[..p];
    }
  }

  lemma {:induction false} MidCommits(c: Codec, decode: Decode, log: seq<Entry>, s: Store, a: nat, pos: nat, pos': nat, hi: nat, ops: seq<WriteOp>)
    requires Mid(c, decode, log, s, a, pos, hi) && a <= pos' <= hi
    requires Sound(c, decode, log, Commit(s, ops).db, a, pos', hi)
    ensures Mid(c, decode, log, Commit(s, ops), a, pos', hi)
  {
    hide Between, AppliedIn, Kv, Contents, Survivor, Store.Valid, ApplyOps;
    SurvivorsOfCommit(s, ops);
    var t := Commit(s, ops);
    BetweenWidens(decode, log, Kv(t.db), pos', hi, a, hi);
    forall p | t.synced <= p <= |t.wal| ensures Sound(c, decode, log, Survivor(t, p), a, a, hi) {
      if p <= |s.wal| {
        assert Survivor(t, p) == Survivor(s, p);
      }
    }
    assert t.Valid();
  }

  lemma {:induction false} KeysDiffer()
    ensures APPLIED_KEY != MEMBERSHIP_KEY
  {
    assert |APPLIED_KEY| == 7 && |MEMBERSHIP_KEY| == 10;
  }

  /** The write of an entry leaves the applied index alone. */
  lemma {:induction false} EntryKeepsApplied(c: Codec, decode: Decode, s: Store, e: Entry)
    requires EntryWrites(DataRaft, c, decode, e).Some?
    ensures AppliedIn(c, CommitSome(s, EntryWrites(DataRaft, c, decode, e).value).db) == AppliedIn(c, s.db)
  {
    KeysDiffer();
    hide Ascii;
    var ops := EntryWrites(DataRaft, c, decode, e).value;
    if ops != [] { ApplyOne(s.db, ops[0]); }
  }

  /** One entry of a call. */
  lemma {:induction false} EntryAdvances(c: Codec, decode: Decode, log: seq<Entry>, s: Store, a: nat, pos: nat, hi: nat)
    requires Mid(c, decode, log, s, a, pos, hi) && pos < hi
    requires EntryWrites(DataRaft, c, decode, log[pos]).Some?
    ensures Mid(c, decode, log, CommitSome(s, EntryWrites(DataRaft, c, decode, log[pos]).value), a, pos + 1, hi)
  {
    var e := log[pos];
    assert Decodable(decode, e);
    EntryFolds(s, c, decode, e);
    EntryKeepsApplied(c, decode, s, e);
    hide Between, AppliedIn, Survivor, Store.Valid, EntryWrites, Commit, FoldOne, Decodable;
    ReplayAdvances(decode, log, Kv(s.db), pos, hi);
    var ops := EntryWrites(DataRaft, c, decode, e).value;
    if ops != [] {
      MidCommits(c, decode, log, s, a, pos, pos + 1, hi, ops);
    }
  }

  /** Some way into a call; at `end` if all of its entries went in. */
  ghost predicate Reached(c: Codec, decode: Decode, log: seq<Entry>, s: Store, a: nat, end: nat, hi: nat, ok: bool) {
    exists pos :: Mid(c, decode, log, s, a, pos, hi) && (ok ==> pos == end)
  }

  lemma {:induction false} MidReached(c: Codec, decode: Decode, log: seq<Entry>, s: Store, a: nat, pos: nat, hi: nat, end: nat, ok: bool)
    requires Mid(c, decode, log, s, a, pos, hi) && (ok ==> pos == end)
    ensures Reached(c, decode, log, s, a, end, hi, ok)
  {
  }

  lemma {:induction false} EntriesOf(log: seq<Entry>, a: nat, n: nat)
    requires 0 < n && a + n <= |log|
    ensures var es := log[a..a + n]; es[..n - 1] == log[a..a + (n - 1)] && es[n - 1] == log[a + (n - 1)]
  {
  }

  /** The entries of a call: as many as decode. */
  lemma {:induction false} WritesAdvance(c: Codec, decode: Decode, log: seq<Entry>, s: Store, a: nat, n: nat, hi: nat)
    requires Mid(c, decode, log, s, a, a, hi) && a + n <= hi <= |log|
    ensures var (t, ok) := ApplyWrites(s, DataRaft, c, decode, log[a..a + n]);
            Reached(c, decode, log, t, a, a + n, hi, ok)
    decreases n
  {
    hide Mid, EntryWrites, CommitSome;
    var es := log[a..a + n];
    var (t, ok) := ApplyWrites(s, DataRaft, c, decode, es);
    if n == 0 {
      MidReached(c, decode, log, s, a, a, hi, a, true);
    } else {
      EntriesOf(log, a, n);
      WritesAdvance(c, decode, log, s, a, n - 1, hi);
      var (u, ok') := ApplyWrites(s, DataRaft, c, decode, es[..n - 1]);
      var pos: nat :| Mid(c, decode, log, u, a, pos, hi) && (ok' ==> pos == a + (n - 1));
      if ok {
        EntryAdvances(c, decode, log, u, a, pos, hi);
        MidReached(c, decode, log, t, a, pos + 1, hi, a + n, ok);
      } else {
        MidReached(c, decode, log, t, a, pos, hi, a + n, ok);
      }
    }
  }

  /** The last write of a call: synced, so the earlier survivors are gone. */
  lemma {:induction false} AppliedAdvances(c: Codec, decode: Decode, log: seq<Entry>, s: Store, a: nat, pos: nat, hi: nat, id: LogId)
    requires Faithful(c) && Mid(c, decode, log, s, a, pos, hi) && id.index == pos
    ensures Mid(c, decode, log, Commit(s, [AppliedWrite(DataRaft, c, id)]), pos, pos, hi)
  {
    hide Between, Survivor, Ascii;
    var w := AppliedWrite(DataRaft, c, id);
    SurvivorsOfCommit(s, [w]);
    ApplyOne(s.db, w);
    var t := Commit(s, [w]);
    assert w == [w][0] && t.synced == |t.wal|;
    assert Kv(t.db) == Kv(s.db);
    assert c.decodeId(c.encodeId(id)) == Some(id);
    assert AppliedIn(c, t.db) == pos;
  }

  /** A crash leaves one of the survivors, and a fresh write-ahead log up to it. */
  lemma {:induction false} CrashKeeps(c: Codec, decode: Decode, log: seq<Entry>, s: Store, a: nat, pos: nat, hi: nat, keep: nat)
    requires Mid(c, decode, log, s, a, pos, hi) && s.synced <= keep <= |s.wal|
    ensures Mid(c, decode, log, Crash(s, keep), a, a, hi)
  {
    hide Between, AppliedIn, Kv;
    var t := Crash(s, keep);
    assert t.wal[..keep] == t.wal;
    assert Sound(c, decode, log, Survivor(s, keep), a, a, hi);
    assert Survivor(t, keep) == Survivor(s, keep) == t.db;
  }

  /** Every step keeps the invariant and never moves the applied index back. */
  lemma {:induction false} StepKeeps(c: Codec, decode: Decode, log: seq<Entry>, x: Node, st: Step)
    requires Faithful(c) && IsLog(log) && Ready(c, decode, log, x)
    ensures var y := StepOn(c, decode, log, x, st);
            Ready(c, decode, log, y) && AppliedIn(c, x.store.db) <= AppliedIn(c, y.store.db)
    ensures st.CrashAfter? ==> AppliedIn(c, StepOn(c, decode, log, x, st).store.db) == AppliedIn(c, x.store.db)
  {
    hide Between, AppliedIn, Kv, ApplyWrites, Survivor, Store.Valid, Commit, Faithful;
    var a := AppliedIn(c, x.store.db);
    var es := Pending(log, a, st.n);
    var n := |es|;
    var hi := Attempt(c, log, x, st.n);
    MidWidens(c, decode, log, x.store, a, a, x.attempted, hi);
    WritesAdvance(c, decode, log, x.store, a, n, hi);
    var (t, ok) := ApplyWrites(x.store, DataRaft, c, decode, es);
    var pos :| Mid(c, decode, log, t, a, pos, hi) && (ok ==> pos == a + n);
    match st
    case CrashAfter(_, lost) =>
      assert t.synced <= |t.wal| by { ValidSynced(t); }
      CrashKeeps(c, decode, log, t, a, pos, hi, Kept(t, lost));
    case ApplyNext(_) =>
      if ok && es != [] {
        assert es[n - 1] == log[pos - 1];
        AppliedAdvances(c, decode, log, t, a, pos, hi, es[n - 1].id);
      } else {
        MidRewinds(c, decode, log, t, a, pos, hi);
        assert RocksApply(x.store, DataRaft, c, decode, es).0 == t;
      }
  }

  lemma {:induction false} ValidSynced(s: Store)
    requires s.Valid()
    ensures s.synced <= |s.wal|
  {
  }

  lemma {:induction false} MidRewinds(c: Codec, decode: Decode, log: seq<Entry>, s: Store, a: nat, pos: nat, hi: nat)
    requires Mid(c, decode, log, s, a, pos, hi)
    ensures Mid(c, decode, log, s, a, a, hi)
  {
    hide Between, AppliedIn, Kv, Survivor;
    BetweenWidens(decode, log, Kv(s.db), pos, hi, a, hi);
  }

  lemma {:induction false} NewNodeReady(c: Codec, decode: Decode, log: seq<Entry>)
    ensures Ready(c, decode, log, NEW_NODE)
  {
    var s := EMPTY_STORE;
    assert s.wal[..0] == [];
    assert At(decode, log, 0) == map[];
    forall k ensures Placed(decode, log, map[], k, 0, 0) {
      assert Look(map[], k) == Look(At(decode, log, 0), k);
    }
  }

  // ----- Whole runs -----

  lemma {:induction false} RunsStayReady(c: Codec, decode: Decode, log: seq<Entry>, steps: seq<Step>)
    requires Faithful(c) && IsLog(log)
    ensures Ready(c, decode, log, RunFrom(c, decode, log, NEW_NODE, steps))
    decreases |steps|
  {
    hide Ready, StepOn, Faithful;
    if steps == [] {
      NewNodeReady(c, decode, log);
    } else {
      RunsStayReady(c, decode, log, steps[..|steps| - 1]);
      StepKeeps(c, decode, log, RunFrom(c, decode, log, NEW_NODE, steps[..|steps| - 1]), steps[|steps| - 1]);
    }
  }

  /** Over any run the applied index on disk never moves back. */
  lemma {:induction false} AppliedNeverRegresses(c: Codec, decode: Decode, log: seq<Entry>, steps: seq<Step>, i: nat)
    requires Faithful(c) && IsLog(log) && i <= |steps|
    ensures AppliedIn(c, RunFrom(c, decode, log, NEW_NODE, steps[..i]).store.db) <=
            AppliedIn(c, RunFrom(c, decode, log, NEW_NODE, steps).store.db)
    decreases |steps|
  {
    hide Ready, StepOn, Faithful, AppliedIn;
    if i == |steps| {
      assert steps[..i] == steps;
    } else {
      var init := steps[..|steps| - 1];
      assert init[..i] == steps[..i];
      AppliedNeverRegresses(c, decode, log, init, i);
      RunsStayReady(c, decode, log, init);
      StepKeeps(c, decode, log, RunFrom(c, decode, log, NEW_NODE, init), steps[|steps| - 1]);
    }
  }

  /**
    * After any run, a crash at any moment included, each key is as the log left it somewhere between
    * the applied index and the highest one attempted; a key not written between them is exactly as the
    * fold up to the applied index has it; once the two meet the stored map is that fold.
    */
  lemma {:induction false} CrashReplayConverges(c: Codec, decode: Decode, log: seq<Entry>, steps: seq<Step>)
    requires Faithful(c) && IsLog(log)
    ensures var x := RunFrom(c, decode, log, NEW_NODE, steps);
            var a, h := AppliedIn(c, x.store.db), x.attempted;
            && a <= h <= |log|
            && Between(decode, log, Kv(x.store.db), a, h)
            && (forall k :: (forall i :: a <= i < h ==> !Writes(decode, log[i], k)) ==>
                  Look(Kv(x.store.db), k) == Look(At(decode, log, a), k))
            && (a == h ==> Kv(x.store.db) == At(decode, log, a))
  {
    RunsStayReady(c, decode, log, steps);
    var x := RunFrom(c, decode, log, NEW_NODE, steps);
    var a, h := AppliedIn(c, x.store.db), x.attempted;
    hide RunFrom, Faithful, AppliedIn, Kv, At, Look, Writes, Survivor, Store.Valid;
    var m := Kv(x.store.db);
    forall k | forall i :: a <= i < h ==> !Writes(decode, log[i], k)
      ensures Look(m, k) == Look(At(decode, log, a), k)
    {
      assert Placed(decode, log, m, k, a, h);
      var j :| a <= j <= h && Look(m, k) == Look(At(decode, log, j), k);
      UnwrittenStays(decode, log, k, a, j);
    }
    if a == h { SameLooks(m, At(decode, log, a)); }
  }

  /** Replay reaches the fold: after any run, a call that takes in everything attempted before restores it exactly. */
  lemma {:induction false} ReplayRestores(c: Codec, decode: Decode, log: seq<Entry>, steps: seq<Step>, n: nat)
    requires Faithful(c) && IsLog(log) && AllDecodable(decode, log)
    requires var x := RunFrom(c, decode, log, NEW_NODE, steps);
             x.attempted <= AppliedIn(c, x.store.db) + n <= |log|
    ensures var x := RunFrom(c, decode, log, NEW_NODE, steps);
            var end := AppliedIn(c, x.store.db) + n;
            var y := StepOn(c, decode, log, x, ApplyNext(n));
            AppliedIn(c, y.store.db) == end && Kv(y.store.db) == At(decode, log, end)
  {
    hide Between, Writes, Look, Kv, AppliedIn, At, StepOn, Faithful, AllDecodable, Ready;
    var x := RunFrom(c, decode, log, NEW_NODE, steps);
    RunsStayReady(c, decode, log, steps);
    var longer := steps + [ApplyNext(n)];
    assert longer[..|steps|] == steps;
    assert RunFrom(c, decode, log, NEW_NODE, longer) == StepOn(c, decode, log, x, ApplyNext(n));
    CrashReplayConverges(c, decode, log, longer);
    FullCall(c, decode, log, x, n);
    AttemptedAfter(c, decode, log, x, n);
  }

  lemma {:induction false} AttemptedAfter(c: Codec, decode: Decode, log: seq<Entry>, x: Node, n: nat)
    requires x.attempted <= AppliedIn(c, x.store.db) + n <= |log|
    ensures StepOn(c, decode, log, x, ApplyNext(n)).attempted == AppliedIn(c, x.store.db) + n
  {
  }

  /** A call over decodable entries moves the applied index past all of them. */
  lemma {:induction false} FullCall(c: Codec, decode: Decode, log: seq<Entry>, x: Node, n: nat)
    requires Faithful(c) && IsLog(log) && AllDecodable(decode, log) && Ready(c, decode, log, x)
    requires AppliedIn(c, x.store.db) + n <= |log|
    ensures AppliedIn(c, StepOn(c, decode, log, x, ApplyNext(n)).store.db) == AppliedIn(c, x.store.db) + n
  {
    hide Between, Ascii, ApplyWrites;
    var a := AppliedIn(c, x.store.db);
    var es := Pending(log, a, n);
    assert AllDecodable(decode, es);
    WritesFold(x.store, c, decode, es);
    var t := ApplyWrites(x.store, DataRaft, c, decode, es).0;
    if es == [] {
      assert ApplyWrites(x.store, DataRaft, c, decode, []) == (x.store, true) by { NoWrites(x.store, c, decode); }
    } else {
      var id := es[|es| - 1].id;
      assert id == log[a + n - 1].id;
      ApplyOne(t.db, AppliedWrite(DataRaft, c, id));
      assert c.decodeId(c.encodeId(id)) == Some(id);
    }
  }

  lemma {:induction false} NoWrites(s: Store, c: Codec, decode: Decode)
    ensures ApplyWrites(s, DataRaft, c, decode, []) == (s, true)
  {
  }

  // ----- Ahead of the applied index -----

  /** `m` is the fold of the log up to some index from `a` to `end`. */
  ghost predicate IsFold(decode: Decode, log: seq<Entry>, m: Family, a: nat, end: nat) {
    exists j :: a <= j <= end <= |log| && m == At(decode, log, j)
  }

  lemma {:induction false} FoldAt(decode: Decode, log: seq<Entry>, a: nat, j: nat, end: nat)
    requires a <= j <= end <= |log|
    ensures IsFold(decode, log, At(decode, log, j), a, end)
  {
  }

  lemma {:induction false} FoldWidens(decode: Decode, log: seq<Entry>, m: Family, a: nat, end: nat, end': nat)
    requires IsFold(decode, log, m, a, end) && end <= end' <= |log|
    ensures IsFold(decode, log, m, a, end')
  {
  }

  /** Every crash now leaves one fold of the log, at an index from `a` to `end`. */
  ghost predicate LeavesFolds(decode: Decode, log: seq<Entry>, s: Store, a: nat, end: nat) {
    s.Valid() && forall p :: s.synced <= p <= |s.wal| ==> IsFold(decode, log, Kv(Survivor(s, p)), a, end)
  }

  lemma {:induction false} LeavesFoldsWidens(decode: Decode, log: seq<Entry>, s: Store, a: nat, end: nat, end': nat)
    requires LeavesFolds(decode, log, s, a, end) && end <= end' <= |log|
    ensures LeavesFolds(decode, log, s, a, end')
  {
    hide IsFold, Kv, Survivor, Store.Valid;
    forall p | s.synced <= p <= |s.wal| ensures s.Valid() && IsFold(decode, log, Kv(Survivor(s, p)), a, end') {
      FoldWidens(decode, log, Kv(Survivor(s, p)), a, end, end');
    }
  }

  /** Keys that all lie at one index make up the fold at that index. */
  lemma {:induction false} BetweenOne(decode: Decode, log: seq<Entry>, m: Family, a: nat)
    requires a <= |log| && Between(decode, log, m, a, a)
    ensures m == At(decode, log, a)
  {
    hide At, Look;
    forall k ensures Look(m, k) == Look(At(decode, log, a), k) {
      assert Placed(decode, log, m, k, a, a);
    }
    SameLooks(m, At(decode, log, a));
  }

  lemma {:induction false} CaughtUpLeavesFolds(c: Codec, decode: Decode, log: seq<Entry>, s: Store, a: nat)
    requires Mid(c, decode, log, s, a, a, a)
    ensures LeavesFolds(decode, log, s, a, a) && Kv(s.db) == At(decode, log, a)
  {
    hide Between, AppliedIn, Kv, Survivor, Store.Valid, At, IsFold;
    forall p | s.synced <= p <= |s.wal| ensures IsFold(decode, log, Kv(Survivor(s, p)), a, a) {
      assert Sound(c, decode, log, Survivor(s, p), a, a, a);
      BetweenOne(decode, log, Kv(Survivor(s, p)), a);
      FoldAt(decode, log, a, a, a);
    }
    BetweenOne(decode, log, Kv(s.db), a);
  }

  /** A write that moves the map to the next fold adds that fold to the survivors. */
  lemma {:induction false} CommitLeavesFolds(decode: Decode, log: seq<Entry>, s: Store, a: nat, end: nat, ops: seq<WriteOp>)
    requires LeavesFolds(decode, log, s, a, end) && a <= end < |log|
    requires Kv(Commit(s, ops).db) == At(decode, log, end + 1)
    ensures LeavesFolds(decode, log, Commit(s, ops), a, end + 1)
  {
    hide IsFold, Kv, Survivor, Store.Valid, At, ApplyOps, LeavesFolds;
    LeavesFoldsWidens(decode, log, s, a, end, end + 1);
    FoldAt(decode, log, a, end + 1, end + 1);
    AddsSurvivor(decode, log, s, a, end + 1, ops);
  }

  lemma {:induction false} AddsSurvivor(decode: Decode, log: seq<Entry>, s: Store, a: nat, end: nat, ops: seq<WriteOp>)
    requires LeavesFolds(decode, log, s, a, end) && IsFold(decode, log, Kv(Commit(s, ops).db), a, end)
    ensures LeavesFolds(decode, log, Commit(s, ops), a, end)
  {
    hide IsFold, Kv, Survivor, Store.Valid, ApplyOps;
    SurvivorsOfCommit(s, ops);
    var t := Commit(s, ops);
    forall p | t.synced <= p <= |t.wal| ensures IsFold(decode, log, Kv(Survivor(t, p)), a, end) {
      if p <= |s.wal| { assert Survivor(t, p) == Survivor(s, p); }
    }
  }

  lemma {:induction false} WritesLeaveFolds(c: Codec, decode: Decode, log: seq<Entry>, s: Store, a: nat, n: nat)
    requires LeavesFolds(decode, log, s, a, a) && a + n <= |log| && Kv(s.db) == At(decode, log, a)
    ensures var (t, ok) := ApplyWrites(s, DataRaft, c, decode, log[a..a + n]);
            LeavesFolds(decode, log, t, a, a + n) && (ok ==> Kv(t.db) == At(decode, log, a + n))
    decreases n
  {
    hide LeavesFolds, EntryWrites, CommitSome, At, Kv;
    if n > 0 {
      EntriesOf(log, a, n);
      WritesLeaveFolds(c, decode, log, s, a, n - 1);
      var (u, ok) := ApplyWrites(s, DataRaft, c, decode, log[a..a + (n - 1)]);
      var e := log[a + (n - 1)];
      if ok && EntryWrites(DataRaft, c, decode, e).Some? {
        EntryLeavesFolds(c, decode, log, u, a, a + (n - 1));
      } else {
        LeavesFoldsWidens(decode, log, u, a, a + (n - 1), a + n);
      }
    }
  }

  lemma {:induction false} EntryLeavesFolds(c: Codec, decode: Decode, log: seq<Entry>, s: Store, a: nat, end: nat)
    requires LeavesFolds(decode, log, s, a, end) && a <= end < |log| && Kv(s.db) == At(decode, log, end)
    requires EntryWrites(DataRaft, c, decode, log[end]).Some?
    ensures var t := CommitSome(s, EntryWrites(DataRaft, c, decode, log[end]).value);
            LeavesFolds(decode, log, t, a, end + 1) && Kv(t.db) == At(decode, log, end + 1)
  {
    var e := log[end];
    assert Decodable(decode, e);
    EntryFolds(s, c, decode, e);
    AtNext(decode, log, end);
    var ops := EntryWrites(DataRaft, c, decode, e).value;
    hide LeavesFolds, EntryWrites, Commit, At, FoldOne, Decodable;
    if ops == [] {
      LeavesFoldsWidens(decode, log, s, a, end, end + 1);
    } else {
      CommitLeavesFolds(decode, log, s, a, end, ops);
    }
  }

  /**
    * One crash, whatever it loses, of a node that had caught up: the map is the fold of the log at one
    * index between the applied index and the last one attempted, never a mixture.
    */
  lemma {:induction false} OneCrashLeavesAFold(c: Codec, decode: Decode, log: seq<Entry>, steps: seq<Step>, n: nat, lost: nat)
    requires Faithful(c) && IsLog(log)
    requires var x := RunFrom(c, decode, log, NEW_NODE, steps);
             x.attempted == AppliedIn(c, x.store.db) && x.attempted + n <= |log|
    ensures var x := RunFrom(c, decode, log, NEW_NODE, steps);
            var a := x.attempted;
            var y := StepOn(c, decode, log, x, CrashAfter(n, lost));
            && AppliedIn(c, y.store.db) == a && y.attempted == a + n
            && IsFold(decode, log, Kv(y.store.db), a, a + n)
            && (lost == 0 && AllDecodable(decode, log[a..a + n]) ==> Kv(y.store.db) == At(decode, log, a + n))
  {
    hide RunFrom, Faithful, StepOn, AppliedIn, Kv, At, AllDecodable, Ready, IsFold;
    RunsStayReady(c, decode, log, steps);
    var x := RunFrom(c, decode, log, NEW_NODE, steps);
    StepKeeps(c, decode, log, x, CrashAfter(n, lost));
    CrashedFold(c, decode, log, x, n, lost);
  }

  lemma {:induction false} CrashedFold(c: Codec, decode: Decode, log: seq<Entry>, x: Node, n: nat, lost: nat)
    requires Ready(c, decode, log, x) && x.attempted == AppliedIn(c, x.store.db) && x.attempted + n <= |log|
    ensures var a := x.attempted;
            var y := StepOn(c, decode, log, x, CrashAfter(n, lost));
            && y.attempted == a + n && IsFold(decode, log, Kv(y.store.db), a, a + n)
            && (lost == 0 && AllDecodable(decode, log[a..a + n]) ==> Kv(y.store.db) == At(decode, log, a + n))
  {
    hide AppliedIn, Kv, At, ApplyWrites, Sound, IsFold, Survivor;
    var a := x.attempted;
    CaughtUpLeavesFolds(c, decode, log, x.store, a);
    WritesLeaveFolds(c, decode, log, x.store, a, n);
    var es := log[a..a + n];
    assert Pending(log, a, n) == es;
    var (t, ok) := ApplyWrites(x.store, DataRaft, c, decode, es);
    if AllDecodable(decode, es) { WritesFold(x.store, c, decode, es); }
    KeptSurvives(t, lost);
  }

  /** A crash leaves a survivor; one that loses nothing leaves the open database. */
  lemma {:induction false} KeptSurvives(s: Store, lost: nat)
    requires s.Valid()
    ensures s.synced <= Kept(s, lost) <= |s.wal| && Crash(s, Kept(s, lost)).db == Survivor(s, Kept(s, lost))
    ensures lost == 0 ==> Survivor(s, Kept(s, lost)) == s.db
  {
    assert s.wal[..|s.wal|] == s.wal;
  }

  /**
    * When the stored map runs ahead of the applied index: a node that had caught up at index `a` and
    * crashes after `n` decodable entries without losing a write holds the fold at `a` exactly when those
    * entries leave that fold as it is.
    */
  lemma {:induction false} CrashLeavesKeysAhead(c: Codec, decode: Decode, log: seq<Entry>, steps: seq<Step>, n: nat)
    requires Faithful(c) && IsLog(log)
    requires var x := RunFrom(c, decode, log, NEW_NODE, steps);
             && x.attempted == AppliedIn(c, x.store.db) && x.attempted + n <= |log|
             && AllDecodable(decode, log[x.attempted..x.attempted + n])
    ensures var a := RunFrom(c, decode, log, NEW_NODE, steps).attempted;
            var y := RunFrom(c, decode, log, NEW_NODE, steps + [CrashAfter(n, 0)]);
            && AppliedIn(c, y.store.db) == a && y.attempted == a + n && Kv(y.store.db) == At(decode, log, a + n)
            && (Kv(y.store.db) == At(decode, log, a) <==>
                Fold(decode, At(decode, log, a), log[a..a + n]) == At(decode, log, a))
  {
    hide StepOn, AppliedIn, Kv, AllDecodable, IsFold, Faithful;
    OneCrashLeavesAFold(c, decode, log, steps, n, 0);
    var a := RunFrom(c, decode, log, NEW_NODE, steps).attempted;
    assert (steps + [CrashAfter(n, 0)])[..|steps|] == steps;
    assert log[..a] + log[a..a + n] == log[..a + n];
    FoldConcat(decode, map[], log[..a], log[a..a + n]);
  }
}
