/** RESP2 and RESP3 values (crates/resp/src/types.rs), without doubles. */
module RespTypes {
  import opened Bytes
  import opened Decimal

  type i64 = i: int | I64_MIN <= i <= I64_MAX

  type format = f: bytes | |f| == 3 witness [0, 0, 0]

  datatype Value =
    | SimpleString(text: bytes)
    | Error(text: bytes)
    | Integer(number: i64)
    | BulkString(content: Option<bytes>)
    | NullArray // Array(None)
    | Array(elements: seq<Value>)
    | Null
    | Boolean(flag: bool)
    | BigNumber(text: bytes)
    | BulkError(message: bytes)
    | VerbatimString(fmt: format, data: bytes)
    | Map(pairs: seq<Pair>)
    | Set(elements: seq<Value>)
    | Push(elements: seq<Value>)

  datatype Pair = Pair(key: Value, value: Value)

  /** Parser limits: `max_bulk_size`, `max_array_len`, `max_depth`. */
  datatype Limits = Limits(maxBulk: nat, maxArray: nat, maxDepth: nat)

  const DEFAULT_LIMITS := Limits(512 * 1024 * 1024, 1_000_000, 32)

  /** A map's keys and values in wire order. */
  function Flatten(pairs: seq<Pair>): (vs: seq<Value>)
    ensures |vs| == 2 * |pairs|
    ensures forall i :: 0 <= i < |pairs| ==> vs[2 * i] == pairs[i].key && vs[2 * i + 1] == pairs[i].value
  {
    if pairs == [] then [] else [pairs[0].key, pairs[0].value] + Flatten(pairs[1..])
  }

  /** A payload length that a header can carry. */
  predicate LengthFits(n: nat, max: nat) {
    n <= max && n <= I64_MAX
  }

  /**
    * Values a parser with limits `lim` can produce when `depth` aggregates are already open:
    * line payloads hold no terminator, lengths are within limits, and every non-empty aggregate
    * takes one level of depth.
    */
  predicate WellFormed(lim: Limits, depth: nat, v: Value)
    decreases v
  {
    match v
    case SimpleString(s) => NoCrlf(s)
    case Error(s) => NoCrlf(s)
    case Integer(_) => true
    case BulkString(c) => c.Some? ==> LengthFits(|c.value|, lim.maxBulk)
    case NullArray => true
    case Array(es) => WellFormedAll(lim, depth, es)
    case Null => true
    case Boolean(_) => true
    case BigNumber(s) => NoCrlf(s)
    case BulkError(m) => LengthFits(|m|, lim.maxBulk)
    case VerbatimString(_, d) => LengthFits(4 + |d|, lim.maxBulk)
    case Map(pairs) =>
      LengthFits(|pairs|, lim.maxArray) && (pairs != [] ==> depth < lim.maxDepth) &&
      forall i :: 0 <= i < |pairs| ==>
        WellFormed(lim, depth + 1, pairs[i].key) && WellFormed(lim, depth + 1, pairs[i].value)
    case Set(es) => WellFormedAll(lim, depth, es)
    case Push(es) => WellFormedAll(lim, depth, es)
  }

  predicate WellFormedAll(lim: Limits, depth: nat, es: seq<Value>)
    decreases es
  {
    LengthFits(|es|, lim.maxArray) && (es != [] ==> depth < lim.maxDepth) &&
    forall i :: 0 <= i < |es| ==> WellFormed(lim, depth + 1, es[i])
  }

  /** `RespValue::size_estimate`. */
  function SizeEstimate(v: Value): (n: nat)
    decreases v
  {
    match v
    case SimpleString(s) => |s| + 10
    case Error(s) => |s| + 10
    case BulkString(Some(s)) => |s| + 15
    case BulkString(None) => 5
    case Integer(_) => 15
    case Array(es) => SizeEstimates(es) + 10
    case NullArray => 5
    case Map(pairs) => PairSizeEstimates(pairs) + 10
    case Set(es) => SizeEstimates(es) + 10
    case BigNumber(s) => |s| + 10
    case BulkError(m) => |m| + 15
    case VerbatimString(_, d) => |d| + 20
    case Push(es) => SizeEstimates(es) + 10
    case Null => 10
    case Boolean(_) => 10
  }

  function SizeEstimates(es: seq<Value>): (n: nat)
    decreases es
  {
    if es == [] then 0 else SizeEstimate(es[0]) + SizeEstimates(es[1..])
  }

  function PairSizeEstimates(pairs: seq<Pair>): (n: nat)
    decreases pairs
  {
    if pairs == [] then 0
    else
      var p := pairs[0];
      PairSizeEstimate(p) + PairSizeEstimates(pairs[1..])
  }

  function PairSizeEstimate(p: Pair): (n: nat)
    decreases p
  {
    SizeEstimate(p.key) + SizeEstimate(p.value)
  }
}
