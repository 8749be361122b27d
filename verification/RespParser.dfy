/**
  * The resumable RESP parser (crates/resp/src/parser.rs). `Run` is the meaning of one call of
  * `RespParser::parse`; class `RespParser` is the loop of the source, proved to compute `Run`.
  *
  * The twenty states of the source are grouped by the role they play: a line, a bulk length, bulk
  * data, an aggregate length, aggregate data. A `usize` underflow, which stops the program, is the
  * result `Panicked`.
  */
module RespParser {
  import opened Bytes
  import opened Decimal
  import opened RespTypes
  import opened Buffers

  datatype LineKind = SimpleLine | ErrorLine | IntegerLine | BigNumberLine
  datatype BulkKind = StringBulk | ErrorBulk | VerbatimBulk
  datatype AggKind = ArrayAgg | MapAgg | SetAgg | PushAgg
  datatype ListKind = ArrayList | SetList | PushList

  datatype State =
    | WaitingForType
    | Line(line: LineKind, data: bytes)
    | BulkLen(bulk: BulkKind, lenBytes: bytes)
    | BulkData(bulk: BulkKind, len: nat, data: bytes)
    | AggLen(agg: AggKind, lenBytes: bytes)
    | ListData(list: ListKind, remaining: nat, elements: seq<Value>)
    | MapData(remaining: nat, pairs: seq<Pair>, currentKey: Option<Value>)
  {
    predicate Aggregate() {
      ListData? || MapData?
    }

    /** One when the state holds an open aggregate, which accounts for one level of depth. */
    function Level(): (n: nat) {
      if Aggregate() then 1 else 0
    }
  }

  datatype ParseError =
    | InvalidTypeMarker(marker: byte)
    | InvalidLength
    | BulkStringTooLarge(size: nat, max: nat)
    | ArrayTooLarge(size: nat, max: nat)
    | NestingTooDeep
    | DoubleNotModelled

  datatype Result =
    | NeedMore               // Ok(None)
    | Parsed(value: Value)   // Ok(Some(value))
    | Failed(error: ParseError)
    | Panicked

  /** What a call returns, and the parser state, depth and buffer it leaves. */
  datatype Outcome = Outcome(result: Result, state: State, depth: nat, buf: bytes)

  /** A parser between calls, with the bytes it left in its buffer. */
  datatype Config = Config(state: State, depth: nat, buf: bytes)

  const NULL_MARK: byte := '_' as byte
  const BOOL_MARK: byte := '#' as byte
  const DOUBLE_MARK: byte := ',' as byte
  const TRUE_BYTE: byte := 't' as byte
  const COLON: byte := ':' as byte

  function LineMark(k: LineKind): (b: byte) {
    match k
    case SimpleLine => '+' as byte
    case ErrorLine => '-' as byte
    case IntegerLine => ':' as byte
    case BigNumberLine => '(' as byte
  }

  function BulkMark(k: BulkKind): (b: byte) {
    match k
    case StringBulk => '$' as byte
    case ErrorBulk => '!' as byte
    case VerbatimBulk => '=' as byte
  }

  function AggMark(k: AggKind): (b: byte) {
    match k
    case ArrayAgg => '*' as byte
    case MapAgg => '%' as byte
    case SetAgg => '~' as byte
    case PushAgg => '>' as byte
  }

  /** The state a type byte leads to; `None` for `_`, `#`, `,` and unknown bytes. */
  function StateFor(b: byte): (r: Option<State>) {
    if b == '+' as byte then Some(Line(SimpleLine, []))
    else if b == '-' as byte then Some(Line(ErrorLine, []))
    else if b == ':' as byte then Some(Line(IntegerLine, []))
    else if b == '$' as byte then Some(BulkLen(StringBulk, []))
    else if b == '*' as byte then Some(AggLen(ArrayAgg, []))
    else if b == '(' as byte then Some(Line(BigNumberLine, []))
    else if b == '!' as byte then Some(BulkLen(ErrorBulk, []))
    else if b == '=' as byte then Some(BulkLen(VerbatimBulk, []))
    else if b == '%' as byte then Some(AggLen(MapAgg, []))
    else if b == '~' as byte then Some(AggLen(SetAgg, []))
    else if b == '>' as byte then Some(AggLen(PushAgg, []))
    else None
  }

  /** The value of a complete line; `None` when the text is not an integer. */
  function LineValue(k: LineKind, s: bytes): (r: Option<Value>) {
    match k
    case SimpleLine => Some(SimpleString(s))
    case ErrorLine => Some(Error(s))
    case BigNumberLine => Some(BigNumber(s))
    case IntegerLine =>
      match ParseI64(s)
      case None => None
      case Some(i) => Some(Integer(i))
  }

  /** The value a length of -1 stands for. */
  function NullBulk(k: BulkKind): (v: Value) {
    if k.StringBulk? then BulkString(None) else Null
  }

  /** The value of complete bulk data; `None` when a verbatim string lacks its format prefix. */
  function BulkValue(k: BulkKind, s: bytes): (r: Option<Value>) {
    match k
    case StringBulk => Some(BulkString(Some(s)))
    case ErrorBulk => Some(BulkError(s))
    case VerbatimBulk =>
      if |s| < 4 || s[3] != COLON then None else Some(VerbatimString(s[..3], s[4..]))
  }

  /** What an aggregate length announces. */
  datatype Opening =
    | Closed(value: Value)        // a null or empty aggregate: complete already
    | Open(start: State)          // elements follow
    | Rejected(error: ParseError)

  function EmptyAgg(k: AggKind): (v: Value) {
    match k
    case ArrayAgg => Array([])
    case MapAgg => Map([])
    case SetAgg => Set([])
    case PushAgg => Push([])
  }

  function StartAgg(k: AggKind, len: nat): (st: State) {
    match k
    case ArrayAgg => ListData(ArrayList, len, [])
    case MapAgg => MapData(len, [], None)
    case SetAgg => ListData(SetList, len, [])
    case PushAgg => ListData(PushList, len, [])
  }

  function OpenAgg(lim: Limits, k: AggKind, len: int, depth: nat): (r: Opening) {
    if len == -1 && !k.PushAgg? then Closed(if k.ArrayAgg? then NullArray else Null)
    else if len < 0 then Rejected(InvalidLength)
    else if len > lim.maxArray then Rejected(ArrayTooLarge(len, lim.maxArray))
    else if len == 0 then Closed(EmptyAgg(k))
    else if depth + 1 > lim.maxDepth then Rejected(NestingTooDeep)
    else Open(StartAgg(k, len))
  }

  function ListValue(k: ListKind, es: seq<Value>): (v: Value) {
    match k
    case ArrayList => Array(es)
    case SetList => Set(es)
    case PushList => Push(es)
  }

  datatype Absorbed = Done(value: Value) | More(state: State)

  /** An open aggregate takes its next element. */
  function Absorb(st: State, v: Value): (r: Absorbed)
    requires st.Aggregate() && st.remaining > 0
  {
    match st
    case ListData(k, rem, es) =>
      if rem == 1 then Done(ListValue(k, es + [v])) else More(ListData(k, rem - 1, es + [v]))
    case MapData(rem, ps, Some(key)) =>
      if rem == 1 then Done(Map(ps + [Pair(key, v)])) else More(MapData(rem - 1, ps + [Pair(key, v)], None))
    case MapData(rem, ps, None) => More(MapData(rem, ps, Some(v)))
  }

  /** The value of an aggregate state that waits for no more elements. */
  function Collected(st: State): (v: Value)
    requires st.Aggregate()
  {
    match st
    case ListData(k, _, es) => ListValue(k, es)
    case MapData(_, ps, _) => Map(ps)
  }

  /** One call of `RespParser::parse`. */
  function Run(lim: Limits, st: State, depth: nat, buf: bytes): (o: Outcome)
    ensures |o.buf| <= |buf|
    ensures o.result.Parsed? && st.WaitingForType? ==> |o.buf| < |buf|
    decreases |buf|, 3
  {
    match st
    case WaitingForType => RunMarker(lim, depth, buf)
    case Line(k, data) =>
      (match FindCrlf(buf)
       case None => Outcome(NeedMore, Line(k, data + buf), depth, [])
       case Some(p) =>
         var line := data + buf[..p];
         match LineValue(k, line)
         case None => Outcome(Failed(InvalidLength), Line(k, line), depth, buf[p + 2..])
         case Some(v) => Outcome(Parsed(v), WaitingForType, depth, buf[p + 2..]))
    case BulkLen(k, lb) =>
      (match FindCrlf(buf)
       case None => Outcome(NeedMore, BulkLen(k, lb + buf), depth, [])
       case Some(p) => RunBulkHeader(lim, k, lb + buf[..p], depth, buf[p + 2..]))
    case BulkData(k, len, data) => RunBulkData(k, len, data, depth, buf)
    case AggLen(k, lb) =>
      (match FindCrlf(buf)
       case None => Outcome(NeedMore, AggLen(k, lb + buf), depth, [])
       case Some(p) => RunAggHeader(lim, k, lb + buf[..p], depth, buf[p + 2..]))
    case ListData(_, _, _) => RunElements(lim, st, depth, buf)
    case MapData(_, _, _) => RunElements(lim, st, depth, buf)
  }

  function RunMarker(lim: Limits, depth: nat, buf: bytes): (o: Outcome)
    ensures |o.buf| <= |buf|
    ensures o.result.Parsed? ==> |o.buf| < |buf|
    decreases |buf|, 0
  {
    if buf == [] then Outcome(NeedMore, WaitingForType, depth, buf)
    else
      var rest := buf[1..];
      if buf[0] == NULL_MARK then
        if |rest| < 2 then Outcome(NeedMore, WaitingForType, depth, rest)
        else if rest[..2] != CRLF then Outcome(Failed(InvalidLength), WaitingForType, depth, rest)
        else Outcome(Parsed(Null), WaitingForType, depth, rest[2..])
      else if buf[0] == BOOL_MARK then
        if |rest| < 3 then Outcome(NeedMore, WaitingForType, depth, rest)
        else if rest[1..3] != CRLF then Outcome(Failed(InvalidLength), WaitingForType, depth, rest)
        else Outcome(Parsed(Boolean(rest[0] == TRUE_BYTE)), WaitingForType, depth, rest[3..])
      else
        match StateFor(buf[0])
        case None => Outcome(Failed(MarkerError(buf[0])), WaitingForType, depth, rest)
        case Some(st) => Run(lim, st, depth, rest)
  }

  function MarkerError(b: byte): (e: ParseError) {
    if b == DOUBLE_MARK then DoubleNotModelled else InvalidTypeMarker(b)
  }

  /** The length line `line` of a bulk frame is complete; `rest` follows it. */
  function RunBulkHeader(lim: Limits, k: BulkKind, line: bytes, depth: nat, rest: bytes): (o: Outcome)
    ensures |o.buf| <= |rest|
  {
    var stuck := BulkLen(k, line);
    match ParseI64(line)
    case None => Outcome(Failed(InvalidLength), stuck, depth, rest)
    case Some(len) =>
      if len == -1 then Outcome(Parsed(NullBulk(k)), WaitingForType, depth, rest)
      else if len < 0 then Outcome(Failed(InvalidLength), stuck, depth, rest)
      else if len > lim.maxBulk then Outcome(Failed(BulkStringTooLarge(len, lim.maxBulk)), stuck, depth, rest)
      else if k.VerbatimBulk? then
        if len < 4 then Outcome(Failed(InvalidLength), stuck, depth, rest)
        else RunBulkData(k, len, [], depth, rest)
      else if len == 0 then
        if |rest| < 2 then Outcome(NeedMore, BulkData(k, 0, []), depth, rest)
        else if rest[..2] != CRLF then Outcome(Failed(InvalidLength), stuck, depth, rest)
        else Outcome(Parsed(BulkValue(k, []).value), WaitingForType, depth, rest[2..])
      else RunBulkData(k, len, [], depth, rest)
  }

  /** `needed` and `data_needed` are `usize` differences: an underflow panics. */
  function RunBulkData(k: BulkKind, len: nat, data: bytes, depth: nat, buf: bytes): (o: Outcome)
    ensures |o.buf| <= |buf|
  {
    var stuck := BulkData(k, len, data);
    if len + 2 < |data| then Outcome(Panicked, stuck, depth, buf)
    else if |buf| < len + 2 - |data| then Outcome(NeedMore, BulkData(k, len, data + buf), depth, [])
    else if len < |data| then Outcome(Panicked, stuck, depth, buf)
    else
      var n := len - |data|;
      var all := data + buf[..n];
      if buf[n..n + 2] != CRLF then Outcome(Failed(InvalidLength), BulkData(k, len, all), depth, buf)
      else
        match BulkValue(k, all)
        case None => Outcome(Failed(InvalidLength), BulkData(k, len, all), depth, buf[n + 2..])
        case Some(v) => Outcome(Parsed(v), WaitingForType, depth, buf[n + 2..])
  }

  /** The length line `line` of an aggregate is complete; `rest` follows it. */
  function RunAggHeader(lim: Limits, k: AggKind, line: bytes, depth: nat, rest: bytes): (o: Outcome)
    ensures |o.buf| <= |rest|
    decreases |rest|, 2
  {
    match ParseI64(line)
    case None => Outcome(Failed(InvalidLength), AggLen(k, line), depth, rest)
    case Some(len) =>
      match OpenAgg(lim, k, len, depth)
      case Rejected(e) => Outcome(Failed(e), AggLen(k, line), depth, rest)
      case Closed(v) => Outcome(Parsed(v), WaitingForType, depth, rest)
      case Open(st) => RunElements(lim, st, depth + 1, rest)
  }

  /**
    * The parser calls itself for each element. An incomplete element is forgotten: the aggregate is
    * restored as it was before the element, while the bytes the element consumed stay consumed.
    */
  function RunElements(lim: Limits, st: State, depth: nat, buf: bytes): (o: Outcome)
    requires st.Aggregate()
    ensures |o.buf| <= |buf|
    decreases |buf|, 1
  {
    if st.remaining == 0 then
      if depth == 0 then Outcome(Panicked, st, depth, buf)
      else Outcome(Parsed(Collected(st)), WaitingForType, depth - 1, buf)
    else
      var o := RunMarker(lim, depth, buf);
      match o.result
      case NeedMore => o.(state := st)
      case Failed(_) => o
      case Panicked => o
      case Parsed(v) =>
        match Absorb(st, v)
        case More(next) => RunElements(lim, next, o.depth, o.buf)
        case Done(value) =>
          if o.depth == 0 then Outcome(Panicked, WaitingForType, o.depth, o.buf)
          else Outcome(Parsed(value), WaitingForType, o.depth - 1, o.buf)
  }

  /** What holds of a parser between calls. */
  predicate Valid(lim: Limits, st: State, depth: nat) {
    && depth <= lim.maxDepth
    && (st.Aggregate() ==> depth >= 1 && st.remaining >= 1)
    && (st.BulkData? ==> |st.data| <= st.len + 1)
  }

  /** The one configuration a call cannot survive: the CR of a bulk trailer was swallowed as data. */
  predicate Poisoned(st: State, buf: bytes) {
    st.BulkData? && |st.data| > st.len && buf != []
  }

  /** What every call does to validity and depth, whatever it answers. */
  predicate Keeps(lim: Limits, st: State, depth: nat, buf: bytes, o: Outcome) {
    && Valid(lim, o.state, o.depth)
    && (o.result.Panicked? <==> Poisoned(st, buf))
    && (o.result.Parsed? ==> o.state.WaitingForType? && o.depth + st.Level() == depth)
    && (o.result.NeedMore? ==> o.depth + st.Level() >= depth + o.state.Level())
    && (o.result.Failed? ==> o.depth >= depth)
  }

  lemma {:induction false} RunKeeps(lim: Limits, st: State, depth: nat, buf: bytes)
    requires Valid(lim, st, depth)
    ensures Keeps(lim, st, depth, buf, Run(lim, st, depth, buf))
    decreases |buf|, 3
  {
    hide RunMarker, RunAggHeader, RunElements, RunBulkHeader, RunBulkData, ParseI64, FindCrlf;
    match st
    case WaitingForType => RunMarkerKeeps(lim, depth, buf);
    case AggLen(k, lb) =>
      match FindCrlf(buf) {
        case None =>
        case Some(p) => RunAggHeaderKeeps(lim, k, lb + buf[..p], depth, buf[p + 2..]);
      }
    case ListData(_, _, _) => RunElementsKeeps(lim, st, depth, buf);
    case MapData(_, _, _) => RunElementsKeeps(lim, st, depth, buf);
    case Line(_, _) =>
    case BulkLen(k, lb) =>
      match FindCrlf(buf) {
        case None =>
        case Some(p) => RunBulkHeaderKeeps(lim, k, lb + buf[..p], depth, buf[p + 2..]);
      }
    case BulkData(k, len, data) => RunBulkDataKeeps(lim, k, len, data, depth, buf);
  }

  lemma {:induction false} RunBulkHeaderKeeps(lim: Limits, k: BulkKind, line: bytes, depth: nat, rest: bytes)
    requires depth <= lim.maxDepth
    ensures Keeps(lim, WaitingForType, depth, rest, RunBulkHeader(lim, k, line, depth, rest))
  {
    if ParseI64(line).Some? && ParseI64(line).value >= 0 {
      RunBulkDataKeeps(lim, k, ParseI64(line).value, [], depth, rest);
    }
  }

  lemma {:induction false} RunBulkDataKeeps(lim: Limits, k: BulkKind, len: nat, data: bytes, depth: nat, buf: bytes)
    requires depth <= lim.maxDepth && |data| <= len + 1
    ensures Keeps(lim, BulkData(k, len, data), depth, buf, RunBulkData(k, len, data, depth, buf))
  {
  }

  lemma {:induction false} RunMarkerKeeps(lim: Limits, depth: nat, buf: bytes)
    requires depth <= lim.maxDepth
    ensures Keeps(lim, WaitingForType, depth, buf, RunMarker(lim, depth, buf))
    decreases |buf|, 0
  {
    if buf != [] && StateFor(buf[0]).Some? {
      RunKeeps(lim, StateFor(buf[0]).value, depth, buf[1..]);
    }
  }

  lemma {:induction false} RunAggHeaderKeeps(lim: Limits, k: AggKind, line: bytes, depth: nat, rest: bytes)
    requires depth <= lim.maxDepth
    ensures Keeps(lim, WaitingForType, depth, rest, RunAggHeader(lim, k, line, depth, rest))
    decreases |rest|, 2
  {
    if ParseI64(line).Some? && OpenAgg(lim, k, ParseI64(line).value, depth).Open? {
      RunElementsKeeps(lim, OpenAgg(lim, k, ParseI64(line).value, depth).start, depth + 1, rest);
    }
  }

  lemma {:induction false} RunElementsKeeps(lim: Limits, st: State, depth: nat, buf: bytes)
    requires Valid(lim, st, depth) && st.Aggregate()
    ensures Keeps(lim, st, depth, buf, RunElements(lim, st, depth, buf))
    decreases |buf|, 1
  {
    RunMarkerKeeps(lim, depth, buf);
    var o := RunMarker(lim, depth, buf);
    if o.result.Parsed? && Absorb(st, o.result.value).More? {
      RunElementsKeeps(lim, Absorb(st, o.result.value).state, o.depth, o.buf);
    }
  }

  /** The effect of one pass of the loop: answer the call, or continue it from another state. */
  predicate Stepped(lim: Limits, before: Config, after: Config, r: Option<Result>) {
    var call := Run(lim, before.state, before.depth, before.buf);
    match r
    case Some(answer) => Outcome(answer, after.state, after.depth, after.buf) == call
    case None =>
      && Run(lim, after.state, after.depth, after.buf) == call
      && Valid(lim, after.state, after.depth)
      && after.depth - after.state.Level() == before.depth - before.state.Level()
      && |after.buf| < |before.buf|
  }

  class RespParser {
    const lim: Limits
    var state: State
    var depth: nat

    ghost predicate Ready()
      reads this
    {
      Valid(lim, state, depth)
    }

    constructor (lim: Limits)
      ensures this.lim == lim && state == WaitingForType && depth == 0 && Ready()
    {
      this.lim := lim;
      state := WaitingForType;
      depth := 0;
    }

    /** `RespParser::new`: 512 MiB bulk data, a million elements, 32 levels. */
    constructor Default()
      ensures lim == Limits(536_870_912, 1_000_000, 32) && state == WaitingForType && depth == 0 && Ready()
    {
      lim := DEFAULT_LIMITS;
      state := WaitingForType;
      depth := 0;
    }

    method StepMarker(buf: Buffer) returns (r: Option<Result>)
      requires Ready() && state.WaitingForType?
      modifies this, buf
      ensures Stepped(lim, old(Config(state, depth, buf.data)), Config(state, depth, buf.data), r)
    {
      if buf.data == [] { return Some(NeedMore); }
      var typeByte := buf.data[0];
      buf.Advance(1);
      if typeByte == NULL_MARK {
        if |buf.data| < 2 { return Some(NeedMore); }
        if buf.data[..2] != CRLF { return Some(Failed(InvalidLength)); }
        buf.Advance(2);
        return Some(Parsed(Null));
      } else if typeByte == BOOL_MARK {
        if |buf.data| < 3 { return Some(NeedMore); }
        var val := buf.data[0];
        if buf.data[1..3] != CRLF { return Some(Failed(InvalidLength)); }
        buf.Advance(3);
        return Some(Parsed(Boolean(val == TRUE_BYTE)));
      }
      match StateFor(typeByte)
      case None => return Some(Failed(MarkerError(typeByte)));
      case Some(next) => state := next; return None;
    }

    method StepLine(buf: Buffer) returns (r: Option<Result>)
      requires Ready() && state.Line?
      modifies this, buf
      ensures Stepped(lim, old(Config(state, depth, buf.data)), Config(state, depth, buf.data), r)
    {
      var k := state.line;
      match FindCrlf(buf.data)
      case None =>
        state := Line(k, state.data + buf.data);
        buf.Clear();
        return Some(NeedMore);
      case Some(p) =>
        state := Line(k, state.data + buf.data[..p]);
        buf.Advance(p + 2);
        match LineValue(k, state.data)
        case None => return Some(Failed(InvalidLength));
        case Some(v) =>
          state := WaitingForType;
          return Some(Parsed(v));
    }

    method StepBulkLen(buf: Buffer) returns (r: Option<Result>)
      requires Ready() && state.BulkLen?
      modifies this, buf
      ensures Stepped(lim, old(Config(state, depth, buf.data)), Config(state, depth, buf.data), r)
    {
      hide ParseI64, RunBulkData;
      var k := state.bulk;
      match FindCrlf(buf.data)
      case None =>
        state := BulkLen(k, state.lenBytes + buf.data);
        buf.Clear();
        return Some(NeedMore);
      case Some(p) =>
        state := BulkLen(k, state.lenBytes + buf.data[..p]);
        buf.Advance(p + 2);
        match ParseI64(state.lenBytes)
        case None => return Some(Failed(InvalidLength));
        case Some(len) =>
          if len == -1 {
            state := WaitingForType;
            return Some(Parsed(NullBulk(k)));
          }
          if len < 0 { return Some(Failed(InvalidLength)); }
          if len > lim.maxBulk { return Some(Failed(BulkStringTooLarge(len, lim.maxBulk))); }
          if k.VerbatimBulk? {
            if len < 4 { return Some(Failed(InvalidLength)); }
          } else if len == 0 {
            if |buf.data| < 2 {
              state := BulkData(k, 0, []);
              return Some(NeedMore);
            }
            if buf.data[..2] != CRLF { return Some(Failed(InvalidLength)); }
            buf.Advance(2);
            state := WaitingForType;
            return Some(Parsed(BulkValue(k, []).value));
          }
          state := BulkData(k, len, []);
          return None;
    }

    method StepBulkData(buf: Buffer) returns (r: Option<Result>)
      requires Ready() && state.BulkData?
      modifies this, buf
      ensures Stepped(lim, old(Config(state, depth, buf.data)), Config(state, depth, buf.data), r)
    {
      var k, len := state.bulk, state.len;
      var needed := len + 2 - |state.data|;
      if |buf.data| < needed {
        state := BulkData(k, len, state.data + buf.data);
        buf.Clear();
        return Some(NeedMore);
      }
      var dataNeeded := len - |state.data|;
      if dataNeeded < 0 { return Some(Panicked); }
      state := BulkData(k, len, state.data + buf.data[..dataNeeded]);
      if buf.data[dataNeeded..dataNeeded + 2] != CRLF { return Some(Failed(InvalidLength)); }
      buf.Advance(dataNeeded + 2);
      match BulkValue(k, state.data)
      case None => return Some(Failed(InvalidLength));
      case Some(v) =>
        state := WaitingForType;
        return Some(Parsed(v));
    }

    method StepAggLen(buf: Buffer) returns (r: Option<Result>)
      requires Ready() && state.AggLen?
      modifies this, buf
      ensures Stepped(lim, old(Config(state, depth, buf.data)), Config(state, depth, buf.data), r)
    {
      var k := state.agg;
      match FindCrlf(buf.data)
      case None =>
        state := AggLen(k, state.lenBytes + buf.data);
        buf.Clear();
        return Some(NeedMore);
      case Some(p) =>
        state := AggLen(k, state.lenBytes + buf.data[..p]);
        buf.Advance(p + 2);
        match ParseI64(state.lenBytes)
        case None => return Some(Failed(InvalidLength));
        case Some(len) =>
          match OpenAgg(lim, k, len, depth)
          case Rejected(e) => return Some(Failed(e));
          case Closed(v) =>
            state := WaitingForType;
            return Some(Parsed(v));
          case Open(first) =>
            depth := depth + 1;
            state := first;
            return None;
    }

    /** Array, map, set and push data: the parser calls itself for the next element. */
    method StepElement(buf: Buffer) returns (r: Option<Result>)
      requires Ready() && state.Aggregate()
      modifies this, buf
      ensures Stepped(lim, old(Config(state, depth, buf.data)), Config(state, depth, buf.data), r)
      decreases lim.maxDepth - depth + 1, 0
    {
      var saved := state;
      state := WaitingForType;
      var element := Parse(buf);
      match element
      case Failed(_) => return Some(element);
      case Panicked => return Some(element);
      case NeedMore =>
        state := saved;
        return Some(NeedMore);
      case Parsed(v) =>
        match Absorb(saved, v)
        case Done(value) =>
          depth := depth - 1;
          return Some(Parsed(value));
        case More(next) =>
          state := next;
          return None;
    }

    /**
      * `RespParser::parse`. The termination measure bounds how deeply the method calls itself: each
      * self-call uses up one level that `maxDepth` still allows.
      */
    method Parse(buf: Buffer) returns (r: Result)
      requires Ready()
      modifies this, buf
      ensures Ready()
      ensures Outcome(r, state, depth, buf.data) == Run(lim, old(state), old(depth), old(buf.data))
      ensures Keeps(lim, old(state), old(depth), old(buf.data), Outcome(r, state, depth, buf.data))
      decreases lim.maxDepth - depth + state.Level(), 1
    {
      RunKeeps(lim, state, depth, buf.data);
      ghost var call := Run(lim, state, depth, buf.data);
      var answer: Option<Result> := None;
      while answer.None?
        invariant answer.None? ==>
          Ready() && Run(lim, state, depth, buf.data) == call &&
          depth - state.Level() == old(depth - state.Level())
        invariant answer.Some? ==> Outcome(answer.value, state, depth, buf.data) == call
        decreases if answer.None? then 1 + |buf.data| else 0
      {
        match state
        case WaitingForType => answer := StepMarker(buf);
        case Line(_, _) => answer := StepLine(buf);
        case BulkLen(_, _) => answer := StepBulkLen(buf);
        case BulkData(_, _, _) => answer := StepBulkData(buf);
        case AggLen(_, _) => answer := StepAggLen(buf);
        case ListData(_, _, _) => answer := StepElement(buf);
        case MapData(_, _, _) => answer := StepElement(buf);
      }
      r := answer.value;
    }
  }
}
