/**
  * Operations, the fold of the committed ones, and the in-memory state machine with its OpenRaft wrapper.
  */
module StateMachines {
  import opened Bytes
  import opened RocksStore
  import opened RaftLog

  // ----- Operations (crates/storage/src/operations.rs) -----

  datatype Operation = Set(key: bytes, value: bytes) | Del(key: bytes)

  const OK_REPLY: bytes := ['O' as byte, 'K' as byte]
  const ONE_REPLY: bytes := ['1' as byte]
  const ZERO_REPLY: bytes := ['0' as byte]

  /** `Operation::apply` on the data. */
  function Effect(data: Family, op: Operation): (r: Family) {
    match op
    case Set(k, v) => data[k := v]
    case Del(k) => data - {k}
  }

  /** `Operation::apply`, the answer. */
  function Reply(data: Family, op: Operation): (r: bytes) {
    match op
    case Set(_, _) => OK_REPLY
    case Del(k) => if k in data then ONE_REPLY else ZERO_REPLY
  }

  /** `Operation::deserialize`, which belongs to a library; `None` is an undecodable operation. */
  type Decode = bytes -> Option<Operation>

  /** The data after the Normal entries of `es`, in order. */
  function Fold(decode: Decode, data: Family, es: seq<Entry>): (r: Family)
    decreases |es|
  {
    if es == [] then data else FoldOne(decode, Fold(decode, data, es[..|es| - 1]), es[|es| - 1])
  }

  function FoldOne(decode: Decode, data: Family, e: Entry): (r: Family) {
    match e.payload
    case Normal(bytes) => (match decode(bytes) case Some(op) => Effect(data, op) case None => data)
    case _ => data
  }

  predicate Decodable(decode: Decode, e: Entry) {
    e.payload.Normal? ==> decode(e.payload.operation).Some?
  }

  predicate AllDecodable(decode: Decode, es: seq<Entry>) {
    forall i :: 0 <= i < |es| ==> Decodable(decode, es[i])
  }

  lemma {:induction false} FoldConcat(decode: Decode, data: Family, a: seq<Entry>, b: seq<Entry>)
    ensures Fold(decode, data, a + b) == Fold(decode, Fold(decode, data, a), b)
    decreases |b|
  {
    if b == [] {
      assert a + b == a;
    } else {
      var n := |b| - 1;
      assert (a + b)[..|a| + n] == a + b[..n];
      FoldConcat(decode, data, a, b[..n]);
    }
  }

  // ----- The in-memory state machine (crates/storage/src/state_machine.rs) -----

  datatype Machine = Machine(data: Family, lastApplied: nat, lastLog: Option<(nat, nat)>)

  const NEW_MACHINE := Machine(map[], 0, None)

  datatype ApplyError = AlreadyApplied(index: nat, lastApplied: nat) | Undecodable

  datatype ApplyResult = Applied(reply: bytes) | Refused(error: ApplyError)

  /** `apply_with_log_id`. */
  function ApplyWithId(decode: Decode, m: Machine, term: nat, leader: nat, index: nat, data: bytes): (r: (Machine, ApplyResult)) {
    if index <= m.lastApplied then (m, Refused(AlreadyApplied(index, m.lastApplied)))
    else
      match decode(data)
      case None => (m, Refused(Undecodable))
      case Some(op) => (Machine(Effect(m.data, op), index, Some((term, leader))), Applied(Reply(m.data, op)))
  }

  /** A snapshot's bytes: a serialized machine, or bytes that do not deserialize. */
  datatype Snapshot = Serialized(machine: Machine) | Garbage

  /** `restore`: the serialized machine replaces `m`; bytes that do not deserialize change nothing. */
  function RestoreOnto(m: Machine, snapshot: Snapshot): (r: Machine) {
    match snapshot
    case Serialized(taken) => taken
    case Garbage => m
  }

  class StateMachine {
    const decode: Decode
    var data: Family
    var lastApplied: nat
    var lastLog: Option<(nat, nat)>

    ghost function View(): (m: Machine)
      reads this
    {
      Machine(data, lastApplied, lastLog)
    }

    constructor (decode: Decode)
      ensures View() == NEW_MACHINE && this.decode == decode
    {
      this.decode := decode;
      data, lastApplied, lastLog := map[], 0, None;
    }

    method Apply(index: nat, bytes: bytes) returns (r: ApplyResult)
      modifies this
      ensures r == ApplyWithId(decode, old(View()), 0, 0, index, bytes).1
      ensures View() == ApplyWithId(decode, old(View()), 0, 0, index, bytes).0.(lastLog := old(lastLog))
    {
      if index <= lastApplied { return Refused(AlreadyApplied(index, lastApplied)); }
      match decode(bytes)
      case None => return Refused(Undecodable);
      case Some(op) =>
        var reply := Reply(data, op);
        data := Effect(data, op);
        lastApplied := index;
        return Applied(reply);
    }

    method ApplyWithLogId(term: nat, leader: nat, index: nat, bytes: bytes) returns (r: ApplyResult)
      modifies this
      ensures (View(), r) == ApplyWithId(decode, old(View()), term, leader, index, bytes)
    {
      r := Apply(index, bytes);
      if r.Applied? { lastLog := Some((term, leader)); }
    }

    method TakeSnapshot() returns (snapshot: Snapshot)
      ensures snapshot == Serialized(View())
    {
      snapshot := Serialized(Machine(data, lastApplied, lastLog));
    }

    method Restore(snapshot: Snapshot) returns (ok: bool)
      modifies this
      ensures ok == snapshot.Serialized?
      ensures View() == RestoreOnto(old(View()), snapshot)
    {
      match snapshot
      case Garbage => return false;
      case Serialized(m) =>
        data, lastApplied, lastLog := m.data, m.lastApplied, m.lastLog;
        return true;
    }
  }

  // ----- Snapshots and runs -----

  datatype Request = Request(term: nat, leader: nat, index: nat, data: bytes)

  /** A run of `apply_with_log_id` calls; refused calls are answered and passed over. */
  function RunRequests(decode: Decode, m: Machine, rs: seq<Request>): (r: (Machine, seq<ApplyResult>))
    ensures |r.1| == |rs|
    decreases |rs|
  {
    if rs == [] then (m, [])
    else
      var n := |rs| - 1;
      var (m1, ans) := RunRequests(decode, m, rs[..n]);
      var (m2, a) := ApplyWithId(decode, m1, rs[n].term, rs[n].leader, rs[n].index, rs[n].data);
      (m2, ans + [a])
  }

  lemma {:induction false} RunSplits(decode: Decode, m: Machine, a: seq<Request>, b: seq<Request>)
    ensures var (m1, ans) := RunRequests(decode, m, a);
            var (m2, later) := RunRequests(decode, m1, b);
            RunRequests(decode, m, a + b) == (m2, ans + later)
    decreases |b|
  {
    if b == [] {
      assert a + b == a;
      assert RunRequests(decode, m, a).1 + [] == RunRequests(decode, m, a).1;
    } else {
      var n := |b| - 1;
      assert (a + b)[..|a| + n] == a + b[..n];
      RunSplits(decode, m, a, b[..n]);
      var (m1, ans) := RunRequests(decode, m, a);
      var later := RunRequests(decode, m1, b).1;
      assert ans + later[..n] + [later[n]] == ans + later;
    }
  }

  /**
    * Snapshot commutes with apply: cut a run anywhere, restore the snapshot taken there onto any
    * machine and apply the rest; data, last applied index, log metadata and answers are those of the
    * uncut run.
    */
  lemma {:induction false} SnapshotCommutes(decode: Decode, m: Machine, rs: seq<Request>, cut: nat, other: Machine)
    requires cut <= |rs|
    ensures var (before, ans) := RunRequests(decode, m, rs[..cut]);
            var restored := RestoreOnto(other, Serialized(before));
            var (after, later) := RunRequests(decode, restored, rs[cut..]);
            RunRequests(decode, m, rs) == (after, ans + later)
  {
    assert rs == rs[..cut] + rs[cut..];
    RunSplits(decode, m, rs[..cut], rs[cut..]);
  }

  /** The accepted indices of a run. */
  function AcceptedIndices(rs: seq<Request>, ans: seq<ApplyResult>): (idx: seq<nat>)
    requires |rs| == |ans|
    decreases |rs|
  {
    if rs == [] then []
    else
      var n := |rs| - 1;
      AcceptedIndices(rs[..n], ans[..n]) + (if ans[n].Applied? then [rs[n].index] else [])
  }

  /** An accepted call moves the last applied index up to its own and records term and leader; any other call changes nothing. */
  lemma {:induction false} CallMoves(decode: Decode, m: Machine, term: nat, leader: nat, index: nat, data: bytes)
    ensures var (r, a) := ApplyWithId(decode, m, term, leader, index, data);
            if a.Applied? then m.lastApplied < index == r.lastApplied && r.lastLog == Some((term, leader)) else r == m
    ensures var a := ApplyWithId(decode, m, term, leader, index, data).1;
            && (a.Applied? <==> index > m.lastApplied && decode(data).Some?)
            && (a == Refused(AlreadyApplied(index, m.lastApplied)) <==> index <= m.lastApplied)
            && (a == Refused(Undecodable) <==> index > m.lastApplied && decode(data).None?)
  {
  }

  // ----- Answers -----

  /** A delete answers "1" when it changes the data and "0" when it does not; a set answers "OK". */
  lemma {:induction false} ReplyMeans(data: Family, op: Operation)
    ensures op.Set? ==> Reply(data, op) == ['O' as byte, 'K' as byte]
    ensures op.Del? ==> Reply(data, op) == [if Effect(data, op) != data then '1' as byte else '0' as byte]
  {
    DeleteChanges(data, op);
  }

  /** The last accepted write of a key in a run. */
  function LastWrite(decode: Decode, rs: seq<Request>, ans: seq<ApplyResult>, k: bytes): (w: Option<Operation>)
    requires |rs| == |ans|
    decreases |rs|
  {
    if rs == [] then None
    else
      var n := |rs| - 1;
      var op := decode(rs[n].data);
      if ans[n].Applied? && op.Some? && op.value.key == k then op else LastWrite(decode, rs[..n], ans[..n], k)
  }

  /** What a run leaves under a key, as its accepted writes tell. */
  function Left(decode: Decode, m: Machine, rs: seq<Request>, ans: seq<ApplyResult>, k: bytes): (v: Option<bytes>)
    requires |rs| == |ans|
  {
    match LastWrite(decode, rs, ans, k)
    case Some(Set(_, v)) => Some(v)
    case Some(Del(_)) => None
    case None => if k in m.data then Some(m.data[k]) else None
  }

  lemma {:induction false} LeftExactly(decode: Decode, m: Machine, rs: seq<Request>, k: bytes)
    ensures var (r, ans) := RunRequests(decode, m, rs);
            Left(decode, m, rs, ans, k) == if k in r.data then Some(r.data[k]) else None
    decreases |rs|
  {
    if rs != [] {
      var n := |rs| - 1;
      LeftExactly(decode, m, rs[..n], k);
      var ans := RunRequests(decode, m, rs).1;
      assert ans[..n] == RunRequests(decode, m, rs[..n]).1;
    }
  }

  /** The answer to request `i` is that of one call on what the requests before it left. */
  lemma {:induction false} AnswerAt(decode: Decode, m: Machine, rs: seq<Request>, i: nat)
    requires i < |rs|
    ensures var (before, early) := RunRequests(decode, m, rs[..i]);
            var ans := RunRequests(decode, m, rs).1;
            && ans[..i] == early
            && ans[i] == ApplyWithId(decode, before, rs[i].term, rs[i].leader, rs[i].index, rs[i].data).1
    decreases |rs|
  {
    hide ApplyWithId;
    var n := |rs| - 1;
    var ans := RunRequests(decode, m, rs).1;
    assert ans[..n] == RunRequests(decode, m, rs[..n]).1;
    if i < n {
      AnswerAt(decode, m, rs[..n], i);
      assert rs[..n][..i] == rs[..i] && ans[..n][..i] == ans[..i];
    }
  }

  /**
    * Answers over runs: an accepted delete answers "1" exactly when its key was there, that is, when the
    * last accepted write of the key was a set, or there is none and the key was in the initial data;
    * otherwise it answers "0", and an accepted set answers "OK".
    */
  lemma {:induction false} AnswersExactly(decode: Decode, m: Machine, rs: seq<Request>, i: nat)
    requires i < |rs| && RunRequests(decode, m, rs).1[i].Applied?
    ensures var ans := RunRequests(decode, m, rs).1;
            decode(rs[i].data).Some? &&
            match decode(rs[i].data).value
            case Set(_, _) => ans[i].reply == ['O' as byte, 'K' as byte]
            case Del(k) => ans[i].reply == [if Left(decode, m, rs[..i], ans[..i], k).Some? then '1' as byte else '0' as byte]
  {
    hide RunRequests, Left;
    AnswerAt(decode, m, rs, i);
    var before := RunRequests(decode, m, rs[..i]).0;
    var op := decode(rs[i].data).value;
    ReplyMeans(before.data, op);
    LeftExactly(decode, m, rs[..i], op.key);
    DeleteChanges(before.data, op);
  }

  /** Strictly growing indices above `lo`, the last of them `hi`. */
  predicate Climbs(idx: seq<nat>, lo: nat, hi: nat) {
    && (forall i, j :: 0 <= i < j < |idx| ==> idx[i] < idx[j])
    && (forall i :: 0 <= i < |idx| ==> lo < idx[i] <= hi)
    && (if idx == [] then lo == hi else idx[|idx| - 1] == hi)
  }

  lemma {:induction false} ClimbsOn(idx: seq<nat>, lo: nat, hi: nat, next: nat)
    requires Climbs(idx, lo, hi) && lo <= hi < next
    ensures Climbs(idx + [next], lo, next)
  {
  }

  /** Accepted indices grow strictly from the initial one on and end at `lastApplied`. */
  lemma {:induction false} AcceptedGrow(decode: Decode, m: Machine, rs: seq<Request>)
    ensures var (r, ans) := RunRequests(decode, m, rs);
            && Climbs(AcceptedIndices(rs, ans), m.lastApplied, r.lastApplied) && m.lastApplied <= r.lastApplied
            && (AcceptedIndices(rs, ans) == [] ==> r == m)
    decreases |rs|
  {
    hide ApplyWithId, Climbs;
    if rs == [] {
      NoneAccepted(m.lastApplied);
    } else {
      var n := |rs| - 1;
      var r := rs[n];
      AcceptedGrow(decode, m, rs[..n]);
      var (before, early) := RunRequests(decode, m, rs[..n]);
      CallMoves(decode, before, r.term, r.leader, r.index, r.data);
      var (after, ans) := RunRequests(decode, m, rs);
      assert ans[..n] == early;
      if ans[n].Applied? {
        ClimbsOn(AcceptedIndices(rs[..n], early), m.lastApplied, before.lastApplied, r.index);
      } else {
        assert AcceptedIndices(rs[..n], early) + [] == AcceptedIndices(rs[..n], early);
      }
    }
  }

  lemma {:induction false} NoneAccepted(lo: nat)
    ensures Climbs([], lo, lo)
  {
  }

  // ----- The OpenRaft in-memory machine (crates/storage/src/openraft_mem.rs) -----

  /** `OpenRaftMemStateMachine::apply`: stops at the first refused entry. */
  function MemApply(decode: Decode, m: Machine, es: seq<Entry>): (r: (Machine, Option<seq<bytes>>))
    decreases |es|
  {
    if es == [] then (m, Some([]))
    else
      var n := |es| - 1;
      var (m1, replies) := MemApply(decode, m, es[..n]);
      if replies.None? then (m1, None)
      else
        var e := es[n];
        match e.payload
        case Normal(bytes) =>
          (match ApplyWithId(decode, m1, e.id.term, e.id.node, e.id.index, bytes)
           case (m2, Applied(reply)) => (m2, Some(replies.value + [reply]))
           case (m2, Refused(_)) => (m2, None))
        case _ => (m1, Some(replies.value + [[]]))
  }

  class MemStateMachine {
    const machine: StateMachine
    var membership: Option<(LogId, bytes)>

    constructor (machine: StateMachine)
      ensures this.machine == machine && membership == None
    {
      this.machine := machine;
      membership := None;
    }

    method Apply(es: seq<Entry>) returns (r: Option<seq<bytes>>)
      modifies this, machine
      ensures (machine.View(), r) == MemApply(machine.decode, old(machine.View()), es)
      ensures membership == if r.None? then old(membership) else LastMembership(old(membership), es)
    {
      var replies: seq<bytes> := [];
      for i := 0 to |es|
        invariant (machine.View(), Some(replies)) == MemApply(machine.decode, old(machine.View()), es[..i])
        invariant membership == old(membership)
      {
        assert es[..i + 1][..i] == es[..i];
        match es[i].payload {
          case Normal(bytes) =>
            var a := machine.ApplyWithLogId(es[i].id.term, es[i].id.node, es[i].id.index, bytes);
            if a.Refused? {
              RefusedStaysRefused(machine.decode, old(machine.View()), es, i + 1);
              return None;
            }
            replies := replies + [a.reply];
          case Blank => replies := replies + [[]];
          case Membership(_) => replies := replies + [[]];
        }
      }
      assert es[..|es|] == es;
      for i := 0 to |es|
        invariant membership == LastMembership(old(membership), es[..i])
        invariant machine.View() == MemApply(machine.decode, old(machine.View()), es).0
      {
        assert es[..i + 1][..i] == es[..i];
        if es[i].payload.Membership? { membership := Some((es[i].id, es[i].payload.message)); }
      }
      return Some(replies);
    }
  }

  lemma {:induction false} RefusedStaysRefused(decode: Decode, m: Machine, es: seq<Entry>, k: nat)
    requires k <= |es| && MemApply(decode, m, es[..k]).1.None?
    ensures MemApply(decode, m, es) == MemApply(decode, m, es[..k])
    decreases |es|
  {
    if k < |es| {
      assert es[..|es| - 1][..k] == es[..k];
      RefusedStaysRefused(decode, m, es[..|es| - 1], k);
    } else {
      assert es[..k] == es;
    }
  }

  function LastMembership(was: Option<(LogId, bytes)>, es: seq<Entry>): (r: Option<(LogId, bytes)>)
    decreases |es|
  {
    if es == [] then was
    else
      var e := es[|es| - 1];
      if e.payload.Membership? then Some((e.id, e.payload.message)) else LastMembership(was, es[..|es| - 1])
  }

  /** The membership after a batch is that of its last membership entry, or the old one if it has none. */
  lemma {:induction false} LastMembershipExactly(was: Option<(LogId, bytes)>, es: seq<Entry>, i: nat)
    ensures i < |es| && es[i].payload.Membership? && (forall j :: i < j < |es| ==> !es[j].payload.Membership?) ==>
              LastMembership(was, es) == Some((es[i].id, es[i].payload.message))
    ensures (forall j :: 0 <= j < |es| ==> !es[j].payload.Membership?) ==> LastMembership(was, es) == was
    decreases |es|
  {
    if es != [] && !es[|es| - 1].payload.Membership? {
      LastMembershipExactly(was, es[..|es| - 1], i);
    }
  }

  /** Entry `i` is one the machine refuses: undecodable, or its index is not above all those applied before it. */
  predicate Refusable(decode: Decode, last: nat, es: seq<Entry>, i: nat)
    requires i < |es|
  {
    && es[i].payload.Normal?
    && (|| decode(es[i].payload.operation).None? || es[i].id.index <= last
        || exists j :: 0 <= j < i && es[j].payload.Normal? && es[i].id.index <= es[j].id.index)
  }

  /** The last applied index after a batch that was taken in whole is the greatest one in it. */
  lemma {:induction false} AppliedAll(decode: Decode, m: Machine, es: seq<Entry>)
    requires MemApply(decode, m, es).1.Some?
    ensures var r := MemApply(decode, m, es).0;
            && m.lastApplied <= r.lastApplied
            && (forall j :: 0 <= j < |es| && es[j].payload.Normal? ==> es[j].id.index <= r.lastApplied)
            && (r.lastApplied == m.lastApplied || exists j :: 0 <= j < |es| && es[j].payload.Normal? && es[j].id.index == r.lastApplied)
            && r.data == Fold(decode, m.data, es)
    decreases |es|
  {
    hide Effect, Reply;
    if es != [] {
      var n := |es| - 1;
      AppliedAll(decode, m, es[..n]);
      var before := MemApply(decode, m, es[..n]).0;
      if es[n].payload.Normal? {
        assert es[n].id.index == MemApply(decode, m, es).0.lastApplied;
      } else if before.lastApplied != m.lastApplied {
        var j :| 0 <= j < n && es[..n][j].payload.Normal? && es[..n][j].id.index == before.lastApplied;
        assert es[j] == es[..n][j];
      }
    }
  }

  /** It records term and node of its last Normal entry; without one the machine is as before. */
  lemma {:induction false} AppliedLog(decode: Decode, m: Machine, es: seq<Entry>, j: nat)
    requires MemApply(decode, m, es).1.Some?
    ensures j < |es| && es[j].payload.Normal? && (forall i :: j < i < |es| ==> !es[i].payload.Normal?) ==>
              MemApply(decode, m, es).0.lastLog == Some((es[j].id.term, es[j].id.node))
    ensures (forall i :: 0 <= i < |es| ==> !es[i].payload.Normal?) ==> MemApply(decode, m, es).0 == m
    decreases |es|
  {
    hide Effect, Reply;
    if es != [] && !es[|es| - 1].payload.Normal? { AppliedLog(decode, m, es[..|es| - 1], j); }
  }

  /**
    * The answers of a batch that was taken in whole: nothing for Blank and Membership entries, "OK" for a
    * set, and for a delete "1" exactly when its key is in the fold of the entries before it, otherwise "0".
    */
  lemma {:induction false} MemAnswersExactly(decode: Decode, m: Machine, es: seq<Entry>, i: nat)
    requires MemApply(decode, m, es).1.Some? && i < |es|
    ensures var replies := MemApply(decode, m, es).1.value;
            && |replies| == |es|
            && match es[i].payload
               case Normal(bytes) =>
                 decode(bytes).Some? &&
                 (match decode(bytes).value
                  case Set(_, _) => replies[i] == ['O' as byte, 'K' as byte]
                  case Del(k) => replies[i] == [if k in Fold(decode, m.data, es[..i]) then '1' as byte else '0' as byte])
               case _ => replies[i] == []
    decreases |es|
  {
    hide Fold, Effect;
    var n := |es| - 1;
    AppliedAll(decode, m, es[..n]);
    var before := MemApply(decode, m, es[..n]).0;
    if n > 0 { MemAnswersExactly(decode, m, es[..n], if i < n then i else 0); }
    if i < n {
      assert es[..n][..i] == es[..i] && es[..n][i] == es[i];
    } else if es[n].payload.Normal? {
      ReplyMeans(before.data, decode(es[n].payload.operation).value);
      DeleteChanges(before.data, decode(es[n].payload.operation).value);
    }
  }

  lemma {:induction false} DeleteChanges(data: Family, op: Operation)
    ensures op.Del? ==> (Effect(data, op) != data <==> op.key in data)
  {
    if op.Del? && op.key !in data { assert Effect(data, op) == data; }
    if op.Del? && op.key in data { assert op.key !in Effect(data, op); }
  }

  lemma {:induction false} RefusesNext(decode: Decode, m: Machine, es: seq<Entry>)
    requires es != [] && MemApply(decode, m, es[..|es| - 1]).1.Some?
    ensures MemApply(decode, m, es).1.None? <==> Refusable(decode, m.lastApplied, es, |es| - 1)
  {
    hide Effect, Reply;
    var n := |es| - 1;
    AppliedAll(decode, m, es[..n]);
    var before := MemApply(decode, m, es[..n]).0;
    if before.lastApplied != m.lastApplied {
      var j :| 0 <= j < n && es[..n][j].payload.Normal? && es[..n][j].id.index == before.lastApplied;
      assert es[j] == es[..n][j];
    }
    assert forall j :: 0 <= j < n ==> es[j] == es[..n][j];
  }

  /** A batch fails exactly when some entry of it is undecodable or does not move the index on. */
  lemma {:induction false} MemApplyExactly(decode: Decode, m: Machine, es: seq<Entry>)
    ensures MemApply(decode, m, es).1.None? <==> exists i :: 0 <= i < |es| && Refusable(decode, m.lastApplied, es, i)
    decreases |es|
  {
    hide MemApply, Fold, Refusable;
    if es == [] {
      EmptyBatch(decode, m);
    } else {
      var n := |es| - 1;
      MemApplyExactly(decode, m, es[..n]);
      forall i | 0 <= i < n ensures Refusable(decode, m.lastApplied, es[..n], i) <==> Refusable(decode, m.lastApplied, es, i) {
        SameRefusal(decode, m.lastApplied, es, n, i);
      }
      if MemApply(decode, m, es[..n]).1.Some? {
        RefusesNext(decode, m, es);
      } else {
        RefusedStaysRefused(decode, m, es, n);
      }
    }
  }

  /** The data is then the fold of the entries before the first such entry. */
  lemma {:induction false} MemStopsAt(decode: Decode, m: Machine, es: seq<Entry>, i: nat)
    requires i < |es| && Refusable(decode, m.lastApplied, es, i)
    requires forall j :: 0 <= j < i ==> !Refusable(decode, m.lastApplied, es, j)
    ensures MemApply(decode, m, es).0 == MemApply(decode, m, es[..i]).0
    ensures MemApply(decode, m, es[..i]).1.Some? && MemApply(decode, m, es).0.data == Fold(decode, m.data, es[..i])
  {
    hide MemApply, Fold, Refusable;
    var upTo := es[..i + 1];
    assert upTo[..i] == es[..i];
    forall j | 0 <= j < i ensures !Refusable(decode, m.lastApplied, es[..i], j) { SameRefusal(decode, m.lastApplied, es, i, j); }
    SameRefusal(decode, m.lastApplied, es, i + 1, i);
    MemApplyExactly(decode, m, es[..i]);
    RefusesNext(decode, m, upTo);
    RefusedUnchanged(decode, m, upTo);
    RefusedStaysRefused(decode, m, es, i + 1);
    AppliedAll(decode, m, es[..i]);
  }

  lemma {:induction false} EmptyBatch(decode: Decode, m: Machine)
    ensures MemApply(decode, m, []) == (m, Some([]))
  {
  }

  lemma {:induction false} SameRefusal(decode: Decode, last: nat, es: seq<Entry>, n: nat, i: nat)
    requires i < n <= |es|
    ensures Refusable(decode, last, es[..n], i) <==> Refusable(decode, last, es, i)
  {
    assert forall j :: 0 <= j <= i ==> es[..n][j] == es[j];
  }

  lemma {:induction false} RefusedUnchanged(decode: Decode, m: Machine, es: seq<Entry>)
    requires es != [] && MemApply(decode, m, es[..|es| - 1]).1.Some?
    ensures MemApply(decode, m, es).1.None? ==> MemApply(decode, m, es).0 == MemApply(decode, m, es[..|es| - 1]).0
  {
  }
}
