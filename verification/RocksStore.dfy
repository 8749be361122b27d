/**
  * RocksDB as the repository uses it: six column families, each an ordered map of byte strings, and a
  * write-ahead log of atomic batches of which everything up to the last synced one survives a crash.
  */
module RocksStore {
  import opened Bytes
  import opened LogKeys

  /** crates/storage/src/column_family.rs. */
  datatype ColumnFamily = SystemRaftLog | SystemRaftState | SystemData | DataRaftLog | DataRaftState | DataKv
  {
    predicate RequiresFsync() {
      SystemRaftState? || DataRaftState?
    }

    predicate IsLog() {
      SystemRaftLog? || DataRaftLog?
    }
  }

  /** One operation of a write batch (crates/storage/src/batch.rs). */
  datatype WriteOp =
    | Put(cf: ColumnFamily, key: bytes, value: bytes)
    | Delete(cf: ColumnFamily, key: bytes)

  type Family = map<bytes, bytes>
  type Db = map<ColumnFamily, Family>

  function FamilyOf(db: Db, cf: ColumnFamily): (m: Family) {
    if cf in db then db[cf] else map[]
  }

  function ApplyOp(db: Db, op: WriteOp): (r: Db) {
    match op
    case Put(cf, k, v) => db[cf := FamilyOf(db, cf)[k := v]]
    case Delete(cf, k) => db[cf := FamilyOf(db, cf) - {k}]
  }

  /** The operations of a batch take effect in order. */
  function ApplyOps(db: Db, ops: seq<WriteOp>): (r: Db)
    decreases |ops|
  {
    if ops == [] then db else ApplyOp(ApplyOps(db, ops[..|ops| - 1]), ops[|ops| - 1])
  }

  /** The database a write-ahead log stands for. */
  function Contents(wal: seq<seq<WriteOp>>): (db: Db)
    decreases |wal|
  {
    if wal == [] then map[] else ApplyOps(Contents(wal[..|wal| - 1]), wal[|wal| - 1])
  }

  /** `WriteBatch::requires_fsync`. */
  predicate BatchRequiresFsync(ops: seq<WriteOp>) {
    exists i :: 0 <= i < |ops| && ops[i].cf.RequiresFsync()
  }

  /** An open store: the database, the last-index cache, and the log of its writes. */
  datatype Store = Store(db: Db, cache: map<ColumnFamily, nat>, wal: seq<seq<WriteOp>>, synced: nat)
  {
    predicate Valid() {
      db == Contents(wal) && synced <= |wal|
    }
  }

  const EMPTY_STORE := Store(map[], map[], [], 0)

  /** Writes one atomic batch; a batch that touches a state family is synced. */
  function Commit(s: Store, ops: seq<WriteOp>): (r: Store) {
    Store(ApplyOps(s.db, ops), s.cache, s.wal + [ops], if BatchRequiresFsync(ops) then |s.wal| + 1 else s.synced)
  }

  lemma {:induction false} CommitValid(s: Store, ops: seq<WriteOp>)
    requires s.Valid()
    ensures Commit(s, ops).Valid()
  {
    assert (s.wal + [ops])[..|s.wal|] == s.wal;
  }

  /** A crash keeps the first `keep` batches and forgets the cache. */
  function Crash(s: Store, keep: nat): (r: Store)
    requires keep <= |s.wal|
  {
    Store(Contents(s.wal[..keep]), map[], s.wal[..keep], keep)
  }

  lemma {:induction false} ApplyOne(db: Db, op: WriteOp)
    ensures ApplyOps(db, [op]) == ApplyOp(db, op)
  {
    assert [op][..0] == [];
  }

  /** One operation changes one key of one family. */
  lemma {:induction false} OneOpFrame(db: Db, op: WriteOp)
    ensures var r := ApplyOps(db, [op]);
            && (op.Put? ==> FamilyOf(r, op.cf) == FamilyOf(db, op.cf)[op.key := op.value])
            && (op.Delete? ==> FamilyOf(r, op.cf) == FamilyOf(db, op.cf) - {op.key})
            && forall other :: other != op.cf ==> FamilyOf(r, other) == FamilyOf(db, other)
  {
    ApplyOne(db, op);
  }

  lemma {:induction false} ApplySnoc(db: Db, ops: seq<WriteOp>, op: WriteOp)
    ensures ApplyOps(db, ops + [op]) == ApplyOp(ApplyOps(db, ops), op)
  {
    assert (ops + [op])[..|ops|] == ops;
  }

  // ----- Ordered access to a family -----

  ghost predicate IsLeast(ks: set<bytes>, k: bytes) {
    k in ks && forall y :: y in ks ==> AtMost(k, y)
  }

  ghost predicate IsGreatest(ks: set<bytes>, k: bytes) {
    k in ks && forall y :: y in ks ==> AtMost(y, k)
  }

  lemma {:induction false} AtMostTransitive(a: bytes, b: bytes, c: bytes)
    requires AtMost(a, b) && AtMost(b, c)
    ensures AtMost(a, c)
  {
    if a != b && b != c { BelowTransitive(a, b, c); }
  }

  lemma {:induction false} AtMostAntisymmetric(a: bytes, b: bytes)
    requires AtMost(a, b) && AtMost(b, a)
    ensures a == b
  {
    if a != b { BelowAsymmetric(a, b); }
  }

  /** Finds the least key by looking at every key. */
  method FindLeast(ks: set<bytes>) returns (k: bytes)
    requires ks != {}
    ensures IsLeast(ks, k)
  {
    var todo := ks;
    k :| k in todo;
    todo := todo - {k};
    while todo != {}
      invariant todo <= ks && k in ks
      invariant forall y :: y in ks && y !in todo ==> AtMost(k, y)
      decreases |todo|
    {
      var y :| y in todo;
      todo := todo - {y};
      BelowTotal(k, y);
      if Below(y, k) {
        forall z | z in ks && z !in todo ensures AtMost(y, z) {
          if z != y { AtMostTransitive(y, k, z); }
        }
        k := y;
      }
    }
  }

  /** Finds the greatest key by looking at every key. */
  method FindGreatest(ks: set<bytes>) returns (k: bytes)
    requires ks != {}
    ensures IsGreatest(ks, k)
  {
    var todo := ks;
    k :| k in todo;
    todo := todo - {k};
    while todo != {}
      invariant todo <= ks && k in ks
      invariant forall y :: y in ks && y !in todo ==> AtMost(y, k)
      decreases |todo|
    {
      var y :| y in todo;
      todo := todo - {y};
      BelowTotal(k, y);
      if Below(k, y) {
        forall z | z in ks && z !in todo ensures AtMost(z, y) {
          if z != y { AtMostTransitive(z, k, y); }
        }
        k := y;
      }
    }
  }

  lemma {:induction false} LeastIsUnique(ks: set<bytes>, k: bytes, y: bytes)
    requires IsLeast(ks, k) && IsLeast(ks, y)
    ensures k == y
  {
    AtMostAntisymmetric(k, y);
  }

  lemma {:induction false} LeastExists(ks: set<bytes>)
    requires ks != {}
    ensures exists k :: IsLeast(ks, k)
    decreases |ks|
  {
    var x :| x in ks;
    var rest := ks - {x};
    if rest == {} {
      assert forall y :: y in ks ==> y == x || y in rest;
      assert IsLeast(ks, x);
    } else {
      LeastExists(rest);
      var g :| IsLeast(rest, g);
      BelowTotal(x, g);
      if AtMost(g, x) {
        assert IsLeast(ks, g);
      } else {
        forall y | y in ks ensures AtMost(x, y) { if y != x { AtMostTransitive(x, g, y); } }
        assert IsLeast(ks, x);
      }
    }
  }

  /** The least of some keys. */
  ghost function Least(ks: set<bytes>): (k: bytes)
    requires ks != {}
    ensures IsLeast(ks, k)
  {
    LeastExists(ks);
    var k :| IsLeast(ks, k);
    k
  }

  function KeysFrom(m: Family, lo: bytes): (ks: set<bytes>)
    ensures ks <= m.Keys
  {
    set y | y in m && AtMost(lo, y)
  }

  function KeysAfter(m: Family, k: bytes): (ks: set<bytes>) {
    set y | y in m && Below(k, y)
  }

  lemma {:induction false} AtMostExcludesBelow(a: bytes, b: bytes)
    requires AtMost(a, b)
    ensures !Below(b, a)
  {
    if a == b { BelowIrreflexive(a); } else if Below(b, a) { BelowAsymmetric(a, b); }
  }

  /** Seeking to `lo` lands on the least key from there on and leaves all of those keys. */
  lemma {:induction false} KeysFromLeast(m: Family, lo: bytes, k: bytes)
    requires IsLeast(KeysFrom(m, lo), k)
    ensures KeysFrom(m, k) == KeysFrom(m, lo)
  {
    hide Below;
    forall y | y in m ensures AtMost(k, y) <==> AtMost(lo, y) {
      if AtMost(k, y) { AtMostTransitive(lo, k, y); }
      if AtMost(lo, y) { assert y in KeysFrom(m, lo); }
    }
  }

  /** Stepping from `k` takes exactly `k` away. */
  lemma {:induction false} KeysFromStep(m: Family, k: bytes)
    requires k in m
    ensures KeysAfter(m, k) == KeysFrom(m, k) - {k}
    ensures IsLeast(KeysFrom(m, k), k)
  {
    hide Below;
    BelowIrreflexive(k);
  }

  lemma {:induction false} KeysAfterLeast(m: Family, k: bytes, n: bytes)
    requires IsLeast(KeysAfter(m, k), n)
    ensures KeysFrom(m, n) == KeysAfter(m, k)
  {
    hide Below;
    forall y | y in m ensures AtMost(n, y) <==> Below(k, y) {
      if AtMost(n, y) && y != n { BelowTransitive(k, n, y); }
      if Below(k, y) { assert y in KeysAfter(m, k); }
    }
  }

  /**
    * A cursor over a snapshot of one family (crates/storage/src/iterator.rs). Moving forward it stands
    * for the set of keys it has still to visit: each step takes the least of them.
    */
  class StorageIterator {
    const family: Family
    var at: Option<bytes>

    ghost predicate Valid()
      reads this
    {
      at.Some? ==> at.value in family
    }

    /** The keys at and after the cursor. */
    ghost function Left(): (ks: set<bytes>)
      reads this
    {
      if at.None? then {} else KeysFrom(family, at.value)
    }

    lemma {:induction false} AtLeast()
      requires Valid() && at.Some?
      ensures IsLeast(Left(), at.value)
    {
      KeysFromStep(family, at.value);
    }

    /** `IteratorMode::From(key, Direction::Forward)`. */
    constructor From(family: Family, key: bytes)
      ensures this.family == family && Valid()
      ensures Left() == KeysFrom(family, key)
    {
      this.family := family;
      if KeysFrom(family, key) == {} {
        at := None;
      } else {
        var k := FindLeast(KeysFrom(family, key));
        KeysFromLeast(family, key, k);
        at := Some(k);
      }
    }

    /** `IteratorMode::End`. */
    constructor End(family: Family)
      ensures this.family == family && Valid()
      ensures at.None? ==> family == map[]
      ensures at.Some? ==> IsGreatest(family.Keys, at.value)
    {
      this.family := family;
      if family == map[] {
        at := None;
      } else {
        assert family.Keys != {};
        var k := FindGreatest(family.Keys);
        at := Some(k);
      }
    }

    method StepForward() returns (r: Option<(bytes, bytes)>)
      requires Valid()
      modifies this
      ensures Valid()
      ensures r.None? <==> old(Left()) == {}
      ensures r.None? ==> at == old(at)
      ensures r.Some? ==>
                && IsLeast(old(Left()), r.value.0) && r.value.0 in family && r.value.1 == family[r.value.0]
                && Some(r.value.0) == old(at)
                && Left() == old(Left()) - {r.value.0}
    {
      if at.None? { return None; }
      var k := at.value;
      KeysFromStep(family, k);
      r := Some((k, family[k]));
      if KeysAfter(family, k) == {} {
        at := None;
      } else {
        var n := FindLeast(KeysAfter(family, k));
        KeysAfterLeast(family, k, n);
        at := Some(n);
      }
    }
  }
}
