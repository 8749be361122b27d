/** The RocksDB state machine (crates/storage/src/openraft_rocksdb.rs) and its in-memory counterpart. */
module RocksMachine {
  import opened Bytes
  import opened LogKeys
  import opened RocksStore
  import opened LogStore
  import opened RaftLog
  import opened StateMachines

  /** A Raft group and its column families. */
  datatype Group = SystemRaft | DataRaft
  {
    function StateCf(): (cf: ColumnFamily) {
      if SystemRaft? then SystemRaftState else DataRaftState
    }

    function KvCf(): (cf: Option<ColumnFamily>) {
      if SystemRaft? then None else Some(DataKv)
    }
  }

  const APPLIED_KEY: bytes := Ascii("applied")
  const MEMBERSHIP_KEY: bytes := Ascii("membership")

  /** The write of one operation on the data family. */
  function WriteFor(op: Operation): (w: WriteOp) {
    match op
    case Set(k, v) => Put(DataKv, k, v)
    case Del(k) => Delete(DataKv, k)
  }

  /** What applying one entry writes; `None` when its operation does not decode. */
  function EntryWrites(g: Group, c: Codec, decode: Decode, e: Entry): (r: Option<seq<WriteOp>>) {
    match e.payload
    case Normal(bytes) =>
      if g.KvCf().None? then Some([])
      else (match decode(bytes) case None => None case Some(op) => Some([WriteFor(op)]))
    case Blank => Some([])
    case Membership(m) => Some([Put(g.StateCf(), MEMBERSHIP_KEY, c.encodeMembership(m, e.id))])
  }

  /** Each entry is its own write; an entry without a write leaves the store alone. */
  function CommitSome(s: Store, ops: seq<WriteOp>): (r: Store) {
    if ops == [] then s else Commit(s, ops)
  }

  /** The writes of a batch, without the final applied index; stops before an undecodable entry. */
  function ApplyWrites(s: Store, g: Group, c: Codec, decode: Decode, es: seq<Entry>): (r: (Store, bool))
    decreases |es|
  {
    if es == [] then (s, true)
    else
      var n := |es| - 1;
      var (t, ok) := ApplyWrites(s, g, c, decode, es[..n]);
      if !ok then (t, false)
      else
        match EntryWrites(g, c, decode, es[n])
        case None => (t, false)
        case Some(ops) => (CommitSome(t, ops), true)
  }

  function RocksReply(e: Entry): (r: bytes) {
    if e.payload.Normal? then OK_REPLY else []
  }

  function RocksReplies(es: seq<Entry>): (rs: seq<bytes>) {
    seq(|es|, i requires 0 <= i < |es| => RocksReply(es[i]))
  }

  /** `RocksDBStateMachine::apply`: the writes, then the synced applied id. */
  function RocksApply(s: Store, g: Group, c: Codec, decode: Decode, es: seq<Entry>): (r: (Store, Option<seq<bytes>>)) {
    var (t, ok) := ApplyWrites(s, g, c, decode, es);
    if !ok then (t, None)
    else if es == [] then (t, Some([]))
    else (Commit(t, [AppliedWrite(g, c, es[|es| - 1].id)]), Some(RocksReplies(es)))
  }

  function AppliedWrite(g: Group, c: Codec, id: LogId): (w: WriteOp) {
    Put(g.StateCf(), APPLIED_KEY, c.encodeId(id))
  }

  class RocksStateMachine {
    const storage: Storage
    const group: Group
    const codec: Codec
    const decode: Decode

    constructor (storage: Storage, group: Group, codec: Codec, decode: Decode)
      ensures this.storage == storage && this.group == group && this.codec == codec && this.decode == decode
    {
      this.storage, this.group, this.codec, this.decode := storage, group, codec, decode;
    }

    method Apply(es: seq<Entry>) returns (r: Option<seq<bytes>>)
      modifies storage
      ensures (storage.View(), r) == RocksApply(old(storage.View()), group, codec, decode, es)
    {
      hide ApplyOps, BatchRequiresFsync, Ascii;
      var replies: seq<bytes> := [];
      for i := 0 to |es|
        invariant (storage.View(), true) == ApplyWrites(old(storage.View()), group, codec, decode, es[..i])
        invariant replies == RocksReplies(es[..i])
      {
        assert es[..i + 1][..i] == es[..i];
        match es[i].payload {
          case Normal(bytes) =>
            if group.KvCf().Some? {
              match decode(bytes) {
                case None =>
                  StoppedStaysStopped(old(storage.View()), group, codec, decode, es, i + 1);
                  return None;
                case Some(Set(k, v)) => storage.PutKey(DataKv, k, v);
                case Some(Del(k)) => storage.DeleteKey(DataKv, k);
              }
            }
          case Blank =>
          case Membership(m) => storage.PutKey(group.StateCf(), MEMBERSHIP_KEY, codec.encodeMembership(m, es[i].id));
        }
        replies := replies + [RocksReply(es[i])];
      }
      assert es[..|es|] == es;
      if es != [] {
        storage.PutKey(group.StateCf(), APPLIED_KEY, codec.encodeId(es[|es| - 1].id));
      }
      return Some(replies);
    }
  }

  lemma {:induction false} StoppedStaysStopped(s: Store, g: Group, c: Codec, decode: Decode, es: seq<Entry>, k: nat)
    requires k <= |es| && !ApplyWrites(s, g, c, decode, es[..k]).1
    ensures ApplyWrites(s, g, c, decode, es) == ApplyWrites(s, g, c, decode, es[..k])
    decreases |es|
  {
    if k < |es| {
      assert es[..|es| - 1][..k] == es[..k];
      StoppedStaysStopped(s, g, c, decode, es[..|es| - 1], k);
    } else {
      assert es[..k] == es;
    }
  }

  // ----- Agreement of the two machines -----

  /** The data family after one entry is the fold's next step. */
  lemma {:induction false} EntryFolds(s: Store, c: Codec, decode: Decode, e: Entry)
    requires Decodable(decode, e)
    ensures EntryWrites(DataRaft, c, decode, e).Some?
    ensures FamilyOf(CommitSome(s, EntryWrites(DataRaft, c, decode, e).value).db, DataKv) ==
            FoldOne(decode, FamilyOf(s.db, DataKv), e)
  {
    var ops := EntryWrites(DataRaft, c, decode, e).value;
    if ops != [] { ApplyOne(s.db, ops[0]); }
  }

  lemma {:induction false} WritesFold(s: Store, c: Codec, decode: Decode, es: seq<Entry>)
    requires AllDecodable(decode, es)
    ensures var (t, ok) := ApplyWrites(s, DataRaft, c, decode, es);
            ok && FamilyOf(t.db, DataKv) == Fold(decode, FamilyOf(s.db, DataKv), es)
    decreases |es|
  {
    hide FamilyOf, EntryWrites, CommitSome, FoldOne;
    if es != [] {
      var n := |es| - 1;
      WritesFold(s, c, decode, es[..n]);
      EntryFolds(ApplyWrites(s, DataRaft, c, decode, es[..n]).0, c, decode, es[n]);
    }
  }

  /** A batch of decodable entries moves the data family by the fold of the batch. */
  lemma {:induction false} RocksApplyFolds(s: Store, c: Codec, decode: Decode, es: seq<Entry>)
    requires AllDecodable(decode, es)
    ensures var (t, r) := RocksApply(s, DataRaft, c, decode, es);
            r.Some? && FamilyOf(t.db, DataKv) == Fold(decode, FamilyOf(s.db, DataKv), es)
  {
    WritesFold(s, c, decode, es);
    hide Fold, ApplyWrites;
    if es != [] {
      var t := ApplyWrites(s, DataRaft, c, decode, es).0;
      ApplyOne(t.db, AppliedWrite(DataRaft, c, es[|es| - 1].id));
    }
  }

  /** Indices grow strictly and start above `last`. */
  predicate Increasing(last: nat, es: seq<Entry>) {
    && (forall i :: 0 <= i < |es| ==> last < es[i].id.index)
    && (forall i, j :: 0 <= i < j < |es| ==> es[i].id.index < es[j].id.index)
  }

  /** A last applied index reached from `was` over `es`. */
  ghost predicate EndsIn(was: nat, last: nat, es: seq<Entry>) {
    last == was || exists i :: 0 <= i < |es| && last == es[i].id.index
  }

  lemma {:induction false} EndsInLater(was: nat, last: nat, a: seq<Entry>, b: seq<Entry>)
    requires EndsIn(was, last, a)
    ensures EndsIn(was, last, a + b)
  {
    if last != was {
      var i :| 0 <= i < |a| && last == a[i].id.index;
      assert (a + b)[i] == a[i];
    }
  }

  lemma {:induction false} EndsInTail(was: nat, mid: nat, last: nat, a: seq<Entry>, b: seq<Entry>)
    requires EndsIn(was, mid, a) && EndsIn(mid, last, b)
    ensures EndsIn(was, last, a + b)
  {
    EndsInLater(was, mid, a, b);
    if last != mid {
      var i :| 0 <= i < |b| && last == b[i].id.index;
      assert (a + b)[|a| + i] == b[i];
    }
  }

  lemma {:induction false} IncreasingSplits(was: nat, mid: nat, a: seq<Entry>, b: seq<Entry>)
    requires Increasing(was, a + b) && EndsIn(was, mid, a)
    ensures Increasing(was, a) && Increasing(mid, b)
  {
    var all := a + b;
    assert forall i :: 0 <= i < |a| ==> all[i] == a[i];
    assert forall i :: 0 <= i < |b| ==> all[|a| + i] == b[i];
  }

  lemma {:induction false} DecodableSplits(decode: Decode, a: seq<Entry>, b: seq<Entry>)
    requires AllDecodable(decode, a + b)
    ensures AllDecodable(decode, a) && AllDecodable(decode, b)
  {
    var all := a + b;
    assert forall i :: 0 <= i < |a| ==> all[i] == a[i];
    assert forall i :: 0 <= i < |b| ==> all[|a| + i] == b[i];
  }

  lemma {:induction false} MemApplyFolds(decode: Decode, m: Machine, es: seq<Entry>)
    requires AllDecodable(decode, es) && Increasing(m.lastApplied, es)
    ensures var (r, replies) := MemApply(decode, m, es);
            replies.Some? && r.data == Fold(decode, m.data, es) && EndsIn(m.lastApplied, r.lastApplied, es)
    decreases |es|
  {
    hide EndsIn, Increasing, Effect, Reply;
    if es == [] {
      assert EndsIn(m.lastApplied, m.lastApplied, es) by { EndsHere(m.lastApplied, es); }
    } else {
      var n := |es| - 1;
      var init, e := es[..n], es[n];
      assert es == init + [e];
      EndsHere(m.lastApplied, init);
      IncreasingSplits(m.lastApplied, m.lastApplied, init, [e]);
      MemApplyFolds(decode, m, init);
      assert Decodable(decode, e);
      var m1 := MemApply(decode, m, init).0;
      IncreasingSplits(m.lastApplied, m1.lastApplied, init, [e]);
      EndsInOne(m1.lastApplied, e);
      var last := if e.payload.Normal? then e.id.index else m1.lastApplied;
      EndsInTail(m.lastApplied, m1.lastApplied, last, init, [e]);
    }
  }

  lemma {:induction false} EndsHere(was: nat, es: seq<Entry>)
    ensures EndsIn(was, was, es)
  {
  }

  lemma {:induction false} EndsInOne(was: nat, e: Entry)
    requires Increasing(was, [e])
    ensures was < e.id.index && EndsIn(was, e.id.index, [e]) && EndsIn(was, was, [e])
  {
    assert [e][0] == e;
  }

  function Flat(batches: seq<seq<Entry>>): (es: seq<Entry>) {
    if batches == [] then [] else Flat(batches[..|batches| - 1]) + batches[|batches| - 1]
  }

  function RocksBatches(s: Store, c: Codec, decode: Decode, batches: seq<seq<Entry>>): (r: Store)
    decreases |batches|
  {
    if batches == [] then s
    else RocksApply(RocksBatches(s, c, decode, batches[..|batches| - 1]), DataRaft, c, decode, batches[|batches| - 1]).0
  }

  function MemBatches(decode: Decode, m: Machine, batches: seq<seq<Entry>>): (r: Machine)
    decreases |batches|
  {
    if batches == [] then m else MemApply(decode, MemBatches(decode, m, batches[..|batches| - 1]), batches[|batches| - 1]).0
  }

  lemma {:induction false} RocksBatchesFold(s: Store, c: Codec, decode: Decode, batches: seq<seq<Entry>>)
    requires AllDecodable(decode, Flat(batches))
    ensures FamilyOf(RocksBatches(s, c, decode, batches).db, DataKv) == Fold(decode, FamilyOf(s.db, DataKv), Flat(batches))
    decreases |batches|
  {
    hide RocksApply, FoldOne, FamilyOf;
    if batches != [] {
      var n := |batches| - 1;
      var a, b := Flat(batches[..n]), batches[n];
      DecodableSplits(decode, a, b);
      RocksBatchesFold(s, c, decode, batches[..n]);
      RocksApplyFolds(RocksBatches(s, c, decode, batches[..n]), c, decode, b);
      FoldConcat(decode, FamilyOf(s.db, DataKv), a, b);
    }
  }

  lemma {:induction false} MemBatchesFold(decode: Decode, m: Machine, batches: seq<seq<Entry>>)
    requires AllDecodable(decode, Flat(batches)) && Increasing(m.lastApplied, Flat(batches))
    ensures var r := MemBatches(decode, m, batches);
            r.data == Fold(decode, m.data, Flat(batches)) && EndsIn(m.lastApplied, r.lastApplied, Flat(batches))
    decreases |batches|
  {
    hide EndsIn, Increasing, AllDecodable, FoldOne, MemApply;
    EndsHere(m.lastApplied, Flat(batches));
    if batches != [] {
      var n := |batches| - 1;
      var a, b := Flat(batches[..n]), batches[n];
      EndsHere(m.lastApplied, a);
      IncreasingSplits(m.lastApplied, m.lastApplied, a, b);
      DecodableSplits(decode, a, b);
      MemBatchesFold(decode, m, batches[..n]);
      var m1 := MemBatches(decode, m, batches[..n]);
      IncreasingSplits(m.lastApplied, m1.lastApplied, a, b);
      MemApplyFolds(decode, m1, b);
      EndsInTail(m.lastApplied, m1.lastApplied, MemApply(decode, m1, b).0.lastApplied, a, b);
      FoldConcat(decode, m.data, a, b);
    }
  }

  /**
    * For every committed list with strictly increasing indices and decodable operations, cut into
    * batches in any way, the RocksDB data family and the in-memory map hold the same contents: the
    * fold of the Normal entries.
    */
  lemma {:induction false} MachinesAgree(c: Codec, decode: Decode, batches: seq<seq<Entry>>)
    requires AllDecodable(decode, Flat(batches)) && Increasing(0, Flat(batches))
    ensures FamilyOf(RocksBatches(EMPTY_STORE, c, decode, batches).db, DataKv) == Fold(decode, map[], Flat(batches))
    ensures MemBatches(decode, NEW_MACHINE, batches).data == Fold(decode, map[], Flat(batches))
  {
    RocksBatchesFold(EMPTY_STORE, c, decode, batches);
    MemBatchesFold(decode, NEW_MACHINE, batches);
  }

  predicate Deletes(decode: Decode, e: Entry) {
    e.payload.Normal? && decode(e.payload.operation).Some? && decode(e.payload.operation).value.Del?
  }

  /** The answers agree on a batch exactly when it deletes nothing. */
  lemma {:induction false} RepliesAgreeExactly(decode: Decode, m: Machine, es: seq<Entry>)
    requires AllDecodable(decode, es) && Increasing(m.lastApplied, es)
    ensures MemApply(decode, m, es).1 == Some(RocksReplies(es)) <==> forall i :: 0 <= i < |es| ==> !Deletes(decode, es[i])
    decreases |es|
  {
    hide MemApply, Increasing, AllDecodable, EndsIn, Fold, Deletes;
    if es == [] {
      EmptyBatch(decode, m);
      assert RocksReplies(es) == [];
    } else {
      var n := |es| - 1;
      var init := es[..n];
      assert es == init + [es[n]];
      EndsHere(m.lastApplied, init);
      IncreasingSplits(m.lastApplied, m.lastApplied, init, [es[n]]);
      DecodableSplits(decode, init, [es[n]]);
      RepliesAgreeExactly(decode, m, init);
      MemApplyFolds(decode, m, es);
      LastDecodable(decode, es[n]);
      LastReply(decode, m, es);
      var qs := MemApply(decode, m, es).1.value;
      var want := RocksReplies(es);
      assert want[..n] == RocksReplies(init);
      LastOfTwo(qs, want);
      assert forall i :: 0 <= i < n ==> es[i] == init[i];
    }
  }

  lemma {:induction false} LastDecodable(decode: Decode, e: Entry)
    requires AllDecodable(decode, [e])
    ensures Decodable(decode, e)
  {
    assert [e][0] == e;
  }

  lemma {:induction false} LastOfTwo(a: seq<bytes>, b: seq<bytes>)
    requires |a| == |b| > 0
    ensures a == b <==> a[..|a| - 1] == b[..|a| - 1] && a[|a| - 1] == b[|a| - 1]
  {
    assert a == a[..|a| - 1] + [a[|a| - 1]];
    assert b == b[..|a| - 1] + [b[|a| - 1]];
  }

  lemma {:induction false} MemReplyCount(decode: Decode, m: Machine, es: seq<Entry>)
    requires MemApply(decode, m, es).1.Some?
    ensures |MemApply(decode, m, es).1.value| == |es|
    decreases |es|
  {
    if es != [] { MemReplyCount(decode, m, es[..|es| - 1]); }
  }

  /** The in-memory machine answers a delete differently from anything else. */
  lemma {:induction false} LastReply(decode: Decode, m: Machine, es: seq<Entry>)
    requires es != [] && MemApply(decode, m, es).1.Some? && Decodable(decode, es[|es| - 1])
    ensures var n := |es| - 1;
            var qs := MemApply(decode, m, es).1.value;
            && MemApply(decode, m, es[..n]).1.Some?
            && |qs| == |es| && qs[..n] == MemApply(decode, m, es[..n]).1.value
            && (qs[n] == RocksReply(es[n]) <==> !Deletes(decode, es[n]))
  {
    MemReplyCount(decode, m, es);
    assert ONE_REPLY[0] != OK_REPLY[0] && ZERO_REPLY[0] != OK_REPLY[0];
  }

  // ----- The state family, for both groups -----

  /** The state family of a group. */
  function StateFamilyOf(db: Db, g: Group): (m: Family) {
    FamilyOf(db, match g case SystemRaft => SystemRaftState case DataRaft => DataRaftState)
  }

  /** The state family after the memberships of a batch. */
  function WithMemberships(c: Codec, m: Family, es: seq<Entry>): (r: Family)
    decreases |es|
  {
    if es == [] then m
    else
      var e, before := es[|es| - 1], WithMemberships(c, m, es[..|es| - 1]);
      if e.payload.Membership? then before[MEMBERSHIP_KEY := c.encodeMembership(e.payload.message, e.id)] else before
  }

  /** It holds the last membership of the batch, or what it held before; nothing else changes. */
  lemma {:induction false} WithMembershipsExactly(c: Codec, m: Family, es: seq<Entry>, i: nat)
    ensures var r := WithMemberships(c, m, es);
            && (i < |es| && es[i].payload.Membership? && (forall j :: i < j < |es| ==> !es[j].payload.Membership?) ==>
                  MEMBERSHIP_KEY in r && r[MEMBERSHIP_KEY] == c.encodeMembership(es[i].payload.message, es[i].id))
            && ((forall j :: 0 <= j < |es| ==> !es[j].payload.Membership?) ==> r == m)
            && r - {MEMBERSHIP_KEY} == m - {MEMBERSHIP_KEY}
    decreases |es|
  {
    hide Ascii;
    if es != [] {
      WithMembershipsExactly(c, m, es[..|es| - 1], i);
    }
  }

  /** The families a group's machine leaves alone. */
  predicate Untouched(a: Db, b: Db, g: Group) {
    && FamilyOf(a, SystemRaftLog) == FamilyOf(b, SystemRaftLog) && FamilyOf(a, DataRaftLog) == FamilyOf(b, DataRaftLog)
    && FamilyOf(a, SystemData) == FamilyOf(b, SystemData)
    && (g.SystemRaft? ==> FamilyOf(a, DataRaftState) == FamilyOf(b, DataRaftState) && FamilyOf(a, DataKv) == FamilyOf(b, DataKv))
    && (g.DataRaft? ==> FamilyOf(a, SystemRaftState) == FamilyOf(b, SystemRaftState))
  }

  lemma {:induction false} EntryState(s: Store, g: Group, c: Codec, decode: Decode, e: Entry)
    requires EntryWrites(g, c, decode, e).Some?
    ensures var t := CommitSome(s, EntryWrites(g, c, decode, e).value);
            && Untouched(t.db, s.db, g)
            && (e.payload.Membership? ==>
                  && StateFamilyOf(t.db, g) == StateFamilyOf(s.db, g)[MEMBERSHIP_KEY := c.encodeMembership(e.payload.message, e.id)]
                  && t.synced == |t.wal|)
            && (!e.payload.Membership? ==> StateFamilyOf(t.db, g) == StateFamilyOf(s.db, g))
  {
    hide Ascii, FamilyOf, ApplyOps;
    var ops := EntryWrites(g, c, decode, e).value;
    if ops != [] {
      OneOpFrame(s.db, ops[0]);
      assert ops == [ops[0]];
      assert e.payload.Membership? ==> ops[0].cf.RequiresFsync();
    }
  }

  lemma {:induction false} WritesState(s: Store, g: Group, c: Codec, decode: Decode, es: seq<Entry>)
    requires ApplyWrites(s, g, c, decode, es).1
    ensures var t := ApplyWrites(s, g, c, decode, es).0;
            Untouched(t.db, s.db, g) && StateFamilyOf(t.db, g) == WithMemberships(c, StateFamilyOf(s.db, g), es)
    decreases |es|
  {
    hide StateFamilyOf, EntryWrites, CommitSome, Ascii, FamilyOf;
    if es != [] {
      var n := |es| - 1;
      WritesState(s, g, c, decode, es[..n]);
      EntryState(ApplyWrites(s, g, c, decode, es[..n]).0, g, c, decode, es[n]);
    }
  }

  /**
    * After a batch that succeeds, the state family of the group holds the last membership of the batch and
    * the id of its last entry, both safe from a crash, and the families of the other group are as before.
    */
  lemma {:induction false} StateAfterBatch(s: Store, g: Group, c: Codec, decode: Decode, es: seq<Entry>)
    requires RocksApply(s, g, c, decode, es).1.Some? && es != []
    ensures var t := RocksApply(s, g, c, decode, es).0;
            && Untouched(t.db, s.db, g) && t.synced == |t.wal|
            && StateFamilyOf(t.db, g) ==
               WithMemberships(c, StateFamilyOf(s.db, g), es)[APPLIED_KEY := c.encodeId(es[|es| - 1].id)]
  {
    hide ApplyWrites, WithMemberships, Ascii, FamilyOf, ApplyOps;
    WritesState(s, g, c, decode, es);
    var u := ApplyWrites(s, g, c, decode, es).0;
    var w := AppliedWrite(g, c, es[|es| - 1].id);
    OneOpFrame(u.db, w);
    assert [w][0] == w && w.cf.RequiresFsync();
  }

  /** A batch fails exactly when the data group meets an operation that does not decode. */
  lemma {:induction false} RocksApplyExactly(s: Store, g: Group, c: Codec, decode: Decode, es: seq<Entry>)
    ensures RocksApply(s, g, c, decode, es).1.None? <==> g.DataRaft? && !AllDecodable(decode, es)
    ensures forall i :: 0 <= i < |es| && g.DataRaft? && !Decodable(decode, es[i]) && AllDecodable(decode, es[..i]) ==>
              FamilyOf(RocksApply(s, g, c, decode, es).0.db, DataKv) == Fold(decode, FamilyOf(s.db, DataKv), es[..i])
  {
    hide ApplyWrites, Fold, FamilyOf, Decodable;
    WritesExactly(s, g, c, decode, es);
    forall i | 0 <= i < |es| && g.DataRaft? && !Decodable(decode, es[i]) && AllDecodable(decode, es[..i])
      ensures FamilyOf(RocksApply(s, g, c, decode, es).0.db, DataKv) == Fold(decode, FamilyOf(s.db, DataKv), es[..i])
    {
      StopsAt(s, c, decode, es, i);
      WritesFold(s, c, decode, es[..i]);
    }
  }

  /** The answers of a batch that succeeds: "OK" for Normal entries, deletes included, and nothing for others. */
  lemma {:induction false} RocksAnswersExactly(s: Store, g: Group, c: Codec, decode: Decode, es: seq<Entry>, i: nat)
    requires RocksApply(s, g, c, decode, es).1.Some? && i < |es|
    ensures var replies := RocksApply(s, g, c, decode, es).1.value;
            |replies| == |es| && replies[i] == if es[i].payload.Normal? then ['O' as byte, 'K' as byte] else []
  {
    hide ApplyWrites, Commit;
  }

  lemma {:induction false} WritesExactly(s: Store, g: Group, c: Codec, decode: Decode, es: seq<Entry>)
    ensures ApplyWrites(s, g, c, decode, es).1 <==> (g.DataRaft? ==> AllDecodable(decode, es))
    decreases |es|
  {
    hide CommitSome;
    if es != [] {
      var n := |es| - 1;
      WritesExactly(s, g, c, decode, es[..n]);
      assert AllDecodable(decode, es) <==> AllDecodable(decode, es[..n]) && Decodable(decode, es[n]);
    }
  }

  lemma {:induction false} StopsAt(s: Store, c: Codec, decode: Decode, es: seq<Entry>, i: nat)
    requires i < |es| && !Decodable(decode, es[i]) && AllDecodable(decode, es[..i])
    ensures ApplyWrites(s, DataRaft, c, decode, es) == (ApplyWrites(s, DataRaft, c, decode, es[..i]).0, false)
  {
    hide CommitSome;
    WritesExactly(s, DataRaft, c, decode, es[..i]);
    assert es[..i + 1][..i] == es[..i] && es[..i + 1][i] == es[i];
    StoppedStaysStopped(s, DataRaft, c, decode, es, i + 1);
  }
}
