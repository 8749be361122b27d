/** Which ways of cutting a frame into chunks leave the parser's answer unchanged. */
module RespStreaming {
  import opened Bytes
  import opened Decimal
  import opened RespTypes
  import opened RespParser
  import opened RespGrammar
  import opened RespRefinement

  /** The next chunk is appended to what the last call left, and the parser is called again. */
  function Feed(lim: Limits, c: Config, chunk: bytes): (o: Outcome) {
    Run(lim, c.state, c.depth, c.buf + chunk)
  }

  function After(o: Outcome): (c: Config) {
    Config(o.state, o.depth, o.buf)
  }

  const FRESH := Config(WaitingForType, 0, [])

  /** Every chunk but the last is answered with "need more data", and the last with `o`. */
  predicate StreamsTo(lim: Limits, c: Config, chunks: seq<bytes>, o: Outcome)
    requires chunks != []
    decreases |chunks|
  {
    var first := Feed(lim, c, chunks[0]);
    if |chunks| == 1 then first == o
    else first.result.NeedMore? && StreamsTo(lim, After(first), chunks[1..], o)
  }

  function Concat(chunks: seq<bytes>): (w: bytes) {
    if chunks == [] then [] else chunks[0] + Concat(chunks[1..])
  }

  // ----- Where a frame may be cut -----

  /** `k` is at the end of `w` or between two of the elements `es` whose frames make up `w`. */
  ghost predicate Boundary(lim: Limits, depth: nat, w: bytes, es: seq<Value>, k: nat) {
    exists j :: BoundaryAt(lim, depth, w, es, k, j)
  }

  ghost predicate BoundaryAt(lim: Limits, depth: nat, w: bytes, es: seq<Value>, k: nat, j: int) {
    && k <= |w| && 0 <= j <= |es|
    && IsFrames(lim, depth, w[..k], es[..j]) && IsFrames(lim, depth, w[k..], es[j..])
  }

  /** The cut does not fall between the CR and the LF that end at `end`. */
  predicate Spares(end: int, k: int) {
    k != end - 1
  }

  /**
    * A cut the parser survives. A line may be cut anywhere but inside its terminator, a bulk frame
    * anywhere but inside its two terminators, an aggregate in its header (not inside the terminator)
    * or between direct elements. A null `_` and a boolean must arrive whole.
    */
  ghost predicate CleanCut(lim: Limits, depth: nat, w: bytes, v: Value, k: nat) {
    k == 0 ||
    match v
    case SimpleString(_) => Spares(|w|, k)
    case Error(_) => Spares(|w|, k)
    case BigNumber(_) => Spares(|w|, k)
    case Integer(_) => Spares(|w|, k)
    case BulkString(None) => Spares(|w|, k)
    case NullArray => Spares(|w|, k)
    case Null => !([NULL_MARK] <= w) && Spares(|w|, k)
    case Boolean(_) => false
    case BulkString(Some(s)) => Spares(|w| - |s| - 2, k) && Spares(|w|, k)
    case BulkError(s) => Spares(|w| - |s| - 2, k) && Spares(|w|, k)
    case VerbatimString(_, d) => Spares(|w| - |d| - 6, k) && Spares(|w|, k)
    case _ => CleanAggregateCut(lim, depth, w, PartsOf(v), k)
  }

  ghost predicate CleanAggregateCut(lim: Limits, depth: nat, w: bytes, p: Parts, k: nat) {
    exists body :: AggregateAt(lim, depth, w, p, body) && Spares(body, k) &&
                   (k < body || Boundary(lim, depth + 1, w[body..], p.flat, k - body))
  }

  // ----- Picking up where the last call stopped -----

  /** The state that has collected `seen` of a first line so far. */
  function Collecting(mark: byte, seen: bytes): (st: State)
    requires StateFor(mark).Some?
  {
    match StateFor(mark).value
    case Line(k, _) => Line(k, seen)
    case BulkLen(k, _) => BulkLen(k, seen)
    case AggLen(k, _) => AggLen(k, seen)
    case _ => WaitingForType
  }

  lemma {:induction false} MarkerStep(lim: Limits, depth: nat, mark: byte, rest: bytes)
    requires StateFor(mark).Some?
    ensures Run(lim, WaitingForType, depth, [mark] + rest) == Run(lim, Collecting(mark, []), depth, rest)
  {
    var w := [mark] + rest;
    assert w[0] == mark && w[1..] == rest;
    MarkFor(mark);
    assert StateFor(mark).value == Collecting(mark, []);
  }

  /** Without a terminator in sight the bytes are kept. */
  lemma {:induction false} LineHeld(lim: Limits, depth: nat, mark: byte, seen: bytes)
    requires StateFor(mark).Some? && NoCrlf(seen)
    ensures Run(lim, WaitingForType, depth, [mark] + seen) == Outcome(NeedMore, Collecting(mark, seen), depth, [])
  {
    MarkerStep(lim, depth, mark, seen);
    MarkFor(mark);
    assert FindCrlf(seen) == None;
    assert [] + seen == seen;
  }

  /** One call in a state that collects a line: what it finds and what follows. */
  lemma {:induction false} LineCall(lim: Limits, depth: nat, k: LineKind, data: bytes, buf: bytes, line: bytes, rest: bytes, found: bool)
    requires found ==> FindCrlf(buf).Some? && line == data + buf[..FindCrlf(buf).value] && rest == buf[FindCrlf(buf).value + 2..]
    requires !found ==> FindCrlf(buf).None? && line == data + buf
    ensures Run(lim, Line(k, data), depth, buf) ==
            if !found then Outcome(NeedMore, Line(k, line), depth, [])
            else match LineValue(k, line)
              case None => Outcome(Failed(InvalidLength), Line(k, line), depth, rest)
              case Some(v) => Outcome(Parsed(v), WaitingForType, depth, rest)
  {
  }

  lemma {:induction false} BulkLenCall(lim: Limits, depth: nat, k: BulkKind, data: bytes, buf: bytes, line: bytes, rest: bytes, found: bool)
    requires found ==> FindCrlf(buf).Some? && line == data + buf[..FindCrlf(buf).value] && rest == buf[FindCrlf(buf).value + 2..]
    requires !found ==> FindCrlf(buf).None? && line == data + buf
    ensures Run(lim, BulkLen(k, data), depth, buf) ==
            if !found then Outcome(NeedMore, BulkLen(k, line), depth, []) else RunBulkHeader(lim, k, line, depth, rest)
  {
  }

  lemma {:induction false} AggLenCall(lim: Limits, depth: nat, k: AggKind, data: bytes, buf: bytes, line: bytes, rest: bytes, found: bool)
    requires found ==> FindCrlf(buf).Some? && line == data + buf[..FindCrlf(buf).value] && rest == buf[FindCrlf(buf).value + 2..]
    requires !found ==> FindCrlf(buf).None? && line == data + buf
    ensures Run(lim, AggLen(k, data), depth, buf) ==
            if !found then Outcome(NeedMore, AggLen(k, line), depth, []) else RunAggHeader(lim, k, line, depth, rest)
  {
  }

  lemma {:induction false} JoinedSlices(seen: bytes, more: bytes, p: nat)
    requires p + 2 <= |more|
    ensures [] + (seen + more)[..|seen| + p] == seen + more[..p]
    ensures (seen + more)[|seen| + p + 2..] == more[p + 2..]
  {
  }

  /** The line found after kept bytes is the line found in kept and new bytes together. */
  lemma {:induction false} JoinedLine(seen: bytes, more: bytes) returns (line: bytes, rest: bytes, found: bool)
    requires NoCrlf(seen) && !SplitsCrlf(seen, more)
    ensures found ==> FindCrlf(more).Some? && line == seen + more[..FindCrlf(more).value] && rest == more[FindCrlf(more).value + 2..]
    ensures !found ==> FindCrlf(more).None? && line == seen + more
    ensures var all := seen + more;
            && (found ==> FindCrlf(all).Some? && line == [] + all[..FindCrlf(all).value] && rest == all[FindCrlf(all).value + 2..])
            && (!found ==> FindCrlf(all).None? && line == [] + all)
  {
    FindCrlfSplit(seen, more);
    hide FindCrlf, NoCrlf;
    found := FindCrlf(more).Some?;
    if found { JoinedSlices(seen, more, FindCrlf(more).value); }
    assert [] + (seen + more) == seen + more;
    line := if found then seen + more[..FindCrlf(more).value] else seen + more;
    rest := if found then more[FindCrlf(more).value + 2..] else [];
  }

  /** Kept bytes followed by more are read as one line, unless a terminator was cut in two. */
  lemma {:induction false} LineResumes(lim: Limits, depth: nat, mark: byte, seen: bytes, more: bytes)
    requires StateFor(mark).Some? && NoCrlf(seen) && !SplitsCrlf(seen, more)
    ensures Run(lim, Collecting(mark, seen), depth, more) == Run(lim, WaitingForType, depth, [mark] + seen + more)
  {
    hide Run, RunBulkHeader, RunAggHeader, FindCrlf, ParseI64, LineValue, NoCrlf, SplitsCrlf;
    assert [mark] + seen + more == [mark] + (seen + more);
    MarkerStep(lim, depth, mark, seen + more);
    MarkFor(mark);
    var line, rest, found := JoinedLine(seen, more);
    match StateFor(mark).value
    case Line(k, _) =>
      LineCall(lim, depth, k, seen, more, line, rest, found);
      LineCall(lim, depth, k, [], seen + more, line, rest, found);
    case BulkLen(k, _) =>
      BulkLenCall(lim, depth, k, seen, more, line, rest, found);
      BulkLenCall(lim, depth, k, [], seen + more, line, rest, found);
    case AggLen(k, _) =>
      AggLenCall(lim, depth, k, seen, more, line, rest, found);
      AggLenCall(lim, depth, k, [], seen + more, line, rest, found);
  }

  /** What a parser knows after the first `k` bytes of `stream`. */
  function Seen(lim: Limits, depth: nat, stream: bytes, k: nat): (c: Config)
    requires k <= |stream|
  {
    After(Run(lim, WaitingForType, depth, stream[..k]))
  }

  /** Cutting at `k` and calling again at `k2` is the same as calling once with `k2` bytes. */
  predicate Resumes(lim: Limits, depth: nat, stream: bytes, k: nat, k2: nat)
    requires k <= k2 <= |stream|
  {
    Feed(lim, Seen(lim, depth, stream, k), stream[k..k2]) == Run(lim, WaitingForType, depth, stream[..k2])
  }

  /** A cut before the end of the text of a first line is resumed, whatever follows. */
  lemma {:induction false} HeaderCut(lim: Limits, depth: nat, mark: byte, line: bytes, tail: bytes, k: nat, k2: nat)
    requires StateFor(mark).Some? && NoCrlf(line)
    requires 1 <= k <= |line| + 1 && k <= k2 <= |line| + 3 + |tail|
    ensures Resumes(lim, depth, Opened(mark, line, tail), k, k2)
  {
    var stream := Opened(mark, line, tail);
    var seen, more := line[..k - 1], stream[k..k2];
    CutText(mark, line, tail, k, k2);
    LineHeld(lim, depth, mark, seen);
    LineResumes(lim, depth, mark, seen, more);
    assert [] + more == more;
  }

  lemma {:induction false} CutText(mark: byte, line: bytes, tail: bytes, k: nat, k2: nat)
    requires NoCrlf(line) && 1 <= k <= |line| + 1 && k <= k2 <= |line| + 3 + |tail|
    ensures var stream := Opened(mark, line, tail);
            var seen, more := line[..k - 1], stream[k..k2];
            && stream[..k] == [mark] + seen && stream[..k2] == [mark] + seen + more
            && NoCrlf(seen) && !SplitsCrlf(seen, more)
  {
    var seen := line[..k - 1];
    forall i | 0 <= i < |seen| ensures !CrlfAt(seen, i) { assert !CrlfAt(line, i); }
    if k >= 2 { assert !CrlfAt(line, k - 2); }
  }

  lemma {:induction false} NothingCut(lim: Limits, depth: nat, stream: bytes, k2: nat)
    requires k2 <= |stream|
    ensures Resumes(lim, depth, stream, 0, k2)
  {
    assert stream[..0] == [] && [] + stream[0..k2] == stream[..k2];
    assert Run(lim, WaitingForType, depth, []) == Outcome(NeedMore, WaitingForType, depth, []);
  }

  /** Bulk data is counted, so it may be cut anywhere before its trailer. */
  lemma {:induction false} BulkDataResumes(k: BulkKind, len: nat, x: bytes, y: bytes, depth: nat)
    requires |x| <= len
    requires |x + y| >= len + 2 ==> (x + y)[len..len + 2] == CRLF && BulkValue(k, (x + y)[..len]).Some?
    ensures RunBulkData(k, len, x, depth, y) == RunBulkData(k, len, [], depth, x + y)
  {
    if |x + y| < len + 2 {
      assert [] + (x + y) == x + y;
    } else {
      BulkDataWhole(k, len, x, y, depth);
      BulkDataWhole(k, len, [], x + y, depth);
      assert [] + (x + y)[..len] == x + y[..len - |x|];
      assert (x + y)[len + 2..] == y[len - |x| + 2..];
    }
  }

  lemma {:induction false} BulkDataWhole(k: BulkKind, len: nat, x: bytes, y: bytes, depth: nat)
    requires |x| <= len && |x + y| >= len + 2 && (x + y)[len..len + 2] == CRLF && BulkValue(k, (x + y)[..len]).Some?
    ensures RunBulkData(k, len, x, depth, y) ==
            Outcome(Parsed(BulkValue(k, (x + y)[..len]).value), WaitingForType, depth, y[len - |x| + 2..])
  {
    var n := len - |x|;
    assert (x + y)[..len] == x + y[..n];
    assert (x + y)[len..len + 2] == y[n..n + 2];
  }

  /** After its header a bulk frame is bulk data; an empty one must have its trailer or nothing. */
  lemma {:induction false} BulkEnters(lim: Limits, k: BulkKind, line: bytes, depth: nat, rest: bytes, len: nat)
    requires ParseI64(line) == Some(len) && len <= lim.maxBulk && (k.VerbatimBulk? ==> len >= 4)
    requires len == 0 ==> rest == [] || CRLF <= rest
    ensures RunBulkHeader(lim, k, line, depth, rest) == RunBulkData(k, len, [], depth, rest)
  {
    if len == 0 {
      assert |rest| >= 2 ==> [] + rest[..0] == [] && rest[0..2] == rest[..2];
      assert [] + rest == rest;
    }
  }

  lemma {:induction false} BulkCut(lim: Limits, depth: nat, bk: BulkKind, w: bytes, s: bytes, r: bytes, k: nat, k2: nat)
    requires IsBulk(lim, w, BulkMark(bk), s) && BulkValue(bk, s).Some?
    requires k <= k2 <= |w + r| && k < |w|
    requires Spares(|w| - |s| - 2, k) && Spares(|w|, k) && Spares(|w|, k2)
    ensures Resumes(lim, depth, w + r, k, k2)
  {
    var mark := BulkMark(bk);
    var body :| Header(w, mark, |s|, body) && w[body..] == s + CRLF;
    HeaderOpens(w, mark, |s|, body, r);
    var line, tail := w[1..body - 2], w[body..] + r;
    if k == 0 {
      NothingCut(lim, depth, w + r, k2);
    } else if k < body {
      HeaderCut(lim, depth, mark, line, tail, k, k2);
    } else {
      BulkBodyCut(lim, depth, bk, line, s, r, k - body, k2 - body);
    }
  }

  /** The run over a bulk frame whose header and the first `i` bytes after it have arrived. */
  lemma {:induction false} BulkTailRun(lim: Limits, depth: nat, bk: BulkKind, line: bytes, s: bytes, r: bytes, i: nat)
    requires NoCrlf(line) && ParseI64(line) == Some(|s|) && |s| <= lim.maxBulk && BulkValue(bk, s).Some?
    requires i <= |s| + 2 + |r| && i != |s| + 1
    ensures var x := (s + CRLF + r)[..i];
            && Run(lim, WaitingForType, depth, Opened(BulkMark(bk), line, x)) == RunBulkData(bk, |s|, [], depth, x)
            && (i <= |s| ==> RunBulkData(bk, |s|, [], depth, x) == Outcome(NeedMore, BulkData(bk, |s|, x), depth, []))
  {
    var x := (s + CRLF + r)[..i];
    RunBulk(lim, depth, bk, line, x);
    if |s| == 0 { assert i >= 2 ==> CRLF <= x; }
    BulkEnters(lim, bk, line, depth, x, |s|);
    assert [] + x == x;
  }

  lemma {:induction false} BulkBodyCut(lim: Limits, depth: nat, bk: BulkKind, line: bytes, s: bytes, r: bytes, i: nat, i2: nat)
    requires NoCrlf(line) && ParseI64(line) == Some(|s|) && |s| <= lim.maxBulk && BulkValue(bk, s).Some?
    requires i <= |s| && i <= i2 <= |s| + 2 + |r| && i2 != |s| + 1
    ensures Resumes(lim, depth, Opened(BulkMark(bk), line, s + CRLF + r), |line| + 3 + i, |line| + 3 + i2)
  {
    hide Run, RunBulkData, ParseI64, NoCrlf, BulkValue, Opened;
    var tail, h := s + CRLF + r, |line| + 3;
    var stream := Opened(BulkMark(bk), line, tail);
    var x, y := tail[..i], tail[i..i2];
    assert x + y == tail[..i2] && [] + y == y;
    OpenedSlices(BulkMark(bk), line, tail, i, i2);
    BulkTailRun(lim, depth, bk, line, s, r, i);
    BulkTailRun(lim, depth, bk, line, s, r, i2);
    TailSlices(s, r, i2);
    BulkDataResumes(bk, |s|, x, y, depth);
    BulkDataCall(lim, bk, |s|, x, depth, y);
  }

  lemma {:induction false} TailSlices(s: bytes, r: bytes, i: nat)
    requires i <= |s| + 2 + |r|
    ensures var x := (s + CRLF + r)[..i]; i >= |s| + 2 ==> x[..|s|] == s && x[|s|..|s| + 2] == CRLF
  {
    if i >= |s| + 2 {
      var x := (s + CRLF + r)[..i];
      assert x == s + (CRLF + r[..i - |s| - 2]);
      assert x[|s|..] == CRLF + r[..i - |s| - 2];
      assert x[|s|..|s| + 2] == x[|s|..][..2];
    }
  }

  lemma {:induction false} BulkDataCall(lim: Limits, k: BulkKind, len: nat, data: bytes, depth: nat, buf: bytes)
    ensures Run(lim, BulkData(k, len, data), depth, buf) == RunBulkData(k, len, data, depth, buf)
  {
  }

  lemma {:induction false} OpenedSlices(mark: byte, line: bytes, tail: bytes, i: nat, i2: nat)
    requires i <= i2 <= |tail|
    ensures var stream, h := Opened(mark, line, tail), |line| + 3;
            && stream[..h + i] == Opened(mark, line, tail[..i])
            && stream[..h + i2] == Opened(mark, line, tail[..i2])
            && stream[h + i..h + i2] == tail[i..i2]
  {
  }

  // ----- Aggregates -----

  /** An aggregate that finishes on `a + b` is still open after `a`, and finishes on `b` from there. */
  lemma {:induction false} AbsorbSplit(st: State, a: seq<Value>, b: seq<Value>)
    requires st.Aggregate() && st.remaining > 0 && b != []
    requires AbsorbAll(st, a + b).Finished?
    ensures AbsorbAll(st, a).Pending?
    decreases |a|
  {
    if a != [] {
      assert (a + b)[0] == a[0] && (a + b)[1..] == a[1..] + b;
      AbsorbSplit(Absorb(st, a[0]).state, a[1..], b);
    }
  }

  lemma {:induction false} AggregateCut(lim: Limits, depth: nat, w: bytes, v: Value, r: bytes, k: nat, k2: nat)
    requires IsAggregate(v) && CleanAggregateCut(lim, depth, w, PartsOf(v), k)
    requires 0 < k <= k2 <= |w + r| && k < |w|
    ensures Resumes(lim, depth, w + r, k, k2)
  {
    var p := PartsOf(v);
    var body :| AggregateAt(lim, depth, w, p, body) && Spares(body, k) &&
                (k < body || Boundary(lim, depth + 1, w[body..], p.flat, k - body));
    AggregateCutAt(lim, depth, w, v, r, body, k, k2);
  }

  lemma {:induction false} AggregateCutAt(lim: Limits, depth: nat, w: bytes, v: Value, r: bytes, body: int, k: nat, k2: nat)
    requires IsAggregate(v) && AggregateAt(lim, depth, w, PartsOf(v), body) && Spares(body, k)
    requires k < body || Boundary(lim, depth + 1, w[body..], PartsOf(v).flat, k - body)
    requires 0 < k <= k2 <= |w + r| && k < |w|
    ensures Resumes(lim, depth, w + r, k, k2)
  {
    hide ParseI64, IsFrame, NoCrlf;
    var kind, count := PartsOf(v).kind, PartsOf(v).count;
    HeaderOpens(w, AggMark(kind), count, body, r);
    var line, tail := w[1..body - 2], w[body..] + r;
    assert StateFor(AggMark(kind)).Some?;
    if k < body {
      HeaderCut(lim, depth, AggMark(kind), line, tail, k, k2);
    } else {
      var j :| BoundaryAt(lim, depth + 1, w[body..], PartsOf(v).flat, k - body, j);
      AggregateBodyCut(lim, depth, v, line, w[body..], r, k - body, k2 - body, j);
    }
  }

  /** The state of the aggregate `v` after its first `j` elements. */
  function OpenAfter(v: Value, j: nat): (st: State)
    requires IsAggregate(v) && j < |PartsOf(v).flat|
    ensures st.Aggregate() && st.remaining > 0
    ensures AbsorbAll(StartAgg(PartsOf(v).kind, PartsOf(v).count), PartsOf(v).flat[..j]) == Pending(st)
  {
    var p := PartsOf(v);
    AggregateProgress(v);
    assert p.flat[..j] + p.flat[j..] == p.flat;
    AbsorbSplit(StartAgg(p.kind, p.count), p.flat[..j], p.flat[j..]);
    AbsorbAll(StartAgg(p.kind, p.count), p.flat[..j]).state
  }

  /** The run over an aggregate whose header and first `j` elements have arrived. */
  lemma {:induction false} AggregateTailRun(lim: Limits, depth: nat, v: Value, line: bytes, x: bytes, j: nat, y: bytes)
    requires IsAggregate(v) && j < |PartsOf(v).flat| && FitsAggregate(lim, depth, PartsOf(v).count)
    requires NoCrlf(line) && ParseI64(line) == Some(PartsOf(v).count)
    requires IsFrames(lim, depth + 1, x, PartsOf(v).flat[..j])
    ensures Run(lim, WaitingForType, depth, Opened(AggMark(PartsOf(v).kind), line, x + y)) ==
            RunElements(lim, OpenAfter(v, j), depth + 1, y)
  {
    var p := PartsOf(v);
    RunAgg(lim, depth, p.kind, line, x + y);
    FramesParse(lim, depth + 1, x, p.flat[..j], StartAgg(p.kind, p.count), y);
  }

  lemma {:induction false} AggregateBodyCut(lim: Limits, depth: nat, v: Value, line: bytes, frames: bytes, r: bytes, i: nat, i2: nat, j: nat)
    requires IsAggregate(v) && NoCrlf(line) && ParseI64(line) == Some(PartsOf(v).count)
    requires FitsAggregate(lim, depth, PartsOf(v).count)
    requires i < |frames| && BoundaryAt(lim, depth + 1, frames, PartsOf(v).flat, i, j)
    requires i <= i2 <= |frames| + |r|
    ensures Resumes(lim, depth, Opened(AggMark(PartsOf(v).kind), line, frames + r), |line| + 3 + i, |line| + 3 + i2)
  {
    LastBoundary(lim, depth + 1, frames, PartsOf(v).flat, i, j);
    var x, y := frames[..i], (frames + r)[i..i2];
    OpenedSlices(AggMark(PartsOf(v).kind), line, frames + r, i, i2);
    assert (frames + r)[..i] == x && (frames + r)[..i2] == x + y;
    AggregateResumes(lim, depth, v, line, x, j, y);
  }

  lemma {:induction false} AggregateResumes(lim: Limits, depth: nat, v: Value, line: bytes, x: bytes, j: nat, y: bytes)
    requires IsAggregate(v) && j < |PartsOf(v).flat| && FitsAggregate(lim, depth, PartsOf(v).count)
    requires NoCrlf(line) && ParseI64(line) == Some(PartsOf(v).count)
    requires IsFrames(lim, depth + 1, x, PartsOf(v).flat[..j])
    ensures var mark := AggMark(PartsOf(v).kind);
            Feed(lim, After(Run(lim, WaitingForType, depth, Opened(mark, line, x))), y) ==
            Run(lim, WaitingForType, depth, Opened(mark, line, x + y))
  {
    hide ParseI64, RunElements, Opened, NoCrlf, IsFrames;
    AggregateTailRun(lim, depth, v, line, x, j, []);
    AggregateTailRun(lim, depth, v, line, x, j, y);
    assert x + [] == x && [] + y == y;
    OpenAggregateWaits(lim, OpenAfter(v, j), depth + 1);
  }

  lemma {:induction false} LastBoundary(lim: Limits, depth: nat, w: bytes, es: seq<Value>, k: nat, j: nat)
    requires BoundaryAt(lim, depth, w, es, k, j) && k < |w|
    ensures j < |es|
  {
  }

  lemma {:induction false} OpenAggregateWaits(lim: Limits, st: State, depth: nat)
    requires st.Aggregate() && st.remaining > 0
    ensures RunElements(lim, st, depth, []) == Outcome(NeedMore, st, depth, [])
  {
  }

  // ----- The streaming theorem -----

  lemma {:induction false} TextCut(lim: Limits, depth: nat, w: bytes, mark: byte, s: bytes, r: bytes, k: nat, k2: nat)
    requires StateFor(mark).Some? && IsLine(w, mark, s)
    requires k <= k2 <= |w + r| && k < |w| && Spares(|w|, k)
    ensures Resumes(lim, depth, w + r, k, k2)
  {
    assert w + r == Opened(mark, s, r);
    if k == 0 { NothingCut(lim, depth, w + r, k2); } else { HeaderCut(lim, depth, mark, s, r, k, k2); }
  }

  lemma {:induction false} NumberCut(lim: Limits, depth: nat, w: bytes, mark: byte, n: int, r: bytes, k: nat, k2: nat)
    requires StateFor(mark).Some? && IsNumber(w, mark, n)
    requires k <= k2 <= |w + r| && k < |w| && Spares(|w|, k)
    ensures Resumes(lim, depth, w + r, k, k2)
  {
    HeaderOpens(w, mark, n, |w|, r);
    if k == 0 { NothingCut(lim, depth, w + r, k2); }
    else { HeaderCut(lim, depth, mark, w[1..|w| - 2], w[|w|..] + r, k, k2); }
  }

  lemma {:induction false} NullCut(lim: Limits, depth: nat, w: bytes, r: bytes, k: nat, k2: nat)
    requires IsFrame(lim, depth, w, Null) && !([NULL_MARK] <= w)
    requires k <= k2 <= |w + r| && k < |w| && Spares(|w|, k)
    ensures Resumes(lim, depth, w + r, k, k2)
  {
    hide NumberText, Resumes;
    NumberCut(lim, depth, w, w[0], -1, r, k, k2);
  }

  /** A clean cut is resumed, up to the next clean cut or to any point past the frame. */
  lemma {:induction false} CutResumes(lim: Limits, depth: nat, w: bytes, v: Value, r: bytes, k: nat, k2: nat)
    requires IsFrame(lim, depth, w, v) && k <= k2 <= |w + r| && k < |w|
    requires CleanCut(lim, depth, w, v, k) && (k2 < |w| ==> CleanCut(lim, depth, w, v, k2))
    ensures Resumes(lim, depth, w + r, k, k2)
  {
    hide Run, ParseI64, IsList, IsPairs, NoCrlf, Resumes, NumberText, CleanAggregateCut, BulkValue;
    BulkValues();
    if k == 0 {
      NothingCut(lim, depth, w + r, k2);
    } else {
      match v
      case SimpleString(s) => TextCut(lim, depth, w, '+' as byte, s, r, k, k2);
      case Error(s) => TextCut(lim, depth, w, '-' as byte, s, r, k, k2);
      case BigNumber(s) => TextCut(lim, depth, w, '(' as byte, s, r, k, k2);
      case Integer(i) => NumberCut(lim, depth, w, ':' as byte, i, r, k, k2);
      case BulkString(None) => NumberCut(lim, depth, w, '$' as byte, -1, r, k, k2);
      case NullArray => NumberCut(lim, depth, w, '*' as byte, -1, r, k, k2);
      case Null => NullCut(lim, depth, w, r, k, k2);
      case BulkString(Some(s)) => BulkCut(lim, depth, StringBulk, w, s, r, k, k2);
      case BulkError(s) => BulkCut(lim, depth, ErrorBulk, w, s, r, k, k2);
      case VerbatimString(f, d) => VerbatimParts(f, d); BulkCut(lim, depth, VerbatimBulk, w, f + [':' as byte] + d, r, k, k2);
      case _ => AggregateCut(lim, depth, w, v, r, k, k2);
    }
  }

  /** Starting after `k` bytes of the frame, every cut between two chunks is clean and inside the frame. */
  ghost predicate CleanCuts(lim: Limits, depth: nat, w: bytes, v: Value, k: nat, chunks: seq<bytes>)
    requires chunks != []
    decreases |chunks|
  {
    |chunks| == 1 ||
    var next := k + |chunks[0]|;
    next < |w| && CleanCut(lim, depth, w, v, next) && CleanCuts(lim, depth, w, v, next, chunks[1..])
  }

  lemma {:induction false} StreamFrom(lim: Limits, depth: nat, w: bytes, v: Value, r: bytes, k: nat, chunks: seq<bytes>)
    requires IsFrame(lim, depth, w, v) && k < |w| && CleanCut(lim, depth, w, v, k)
    requires chunks != [] && Concat(chunks) == (w + r)[k..] && CleanCuts(lim, depth, w, v, k, chunks)
    ensures StreamsTo(lim, Seen(lim, depth, w + r, k), chunks, Outcome(Parsed(v), WaitingForType, depth, r))
    decreases |chunks|
  {
    hide IsFrame, Run, CleanCut;
    var stream := w + r;
    var next := k + |chunks[0]|;
    assert chunks[0] == stream[k..next] by {
      assert chunks[0] <= Concat(chunks);
    }
    CutResumes(lim, depth, w, v, r, k, next);
    if |chunks| == 1 {
      assert chunks[1..] == [] && stream[..next] == stream;
      FrameParses(lim, depth, w, v, r);
    } else {
      assert stream[..next] == w[..next];
      PrefixNeedsMore(lim, depth, w, v, next);
      assert Concat(chunks[1..]) == stream[next..] by {
        assert Concat(chunks) == chunks[0] + Concat(chunks[1..]);
        assert stream[k..] == chunks[0] + stream[next..];
      }
      StreamFrom(lim, depth, w, v, r, next, chunks[1..]);
    }
  }

  /**
    * Streaming equals one shot: a frame of `v` followed by `r`, delivered in chunks cut only at clean
    * places, is answered with "need more data" until the last chunk, which gives what the whole
    * stream in one buffer gives.
    */
  lemma {:induction false} StreamingEqualsOneShot(lim: Limits, w: bytes, v: Value, r: bytes, chunks: seq<bytes>)
    requires IsFrame(lim, 0, w, v)
    requires chunks != [] && Concat(chunks) == w + r && CleanCuts(lim, 0, w, v, 0, chunks)
    ensures StreamsTo(lim, FRESH, chunks, Run(lim, WaitingForType, 0, w + r))
    ensures Run(lim, WaitingForType, 0, w + r) == Outcome(Parsed(v), WaitingForType, 0, r)
  {
    assert (w + r)[0..] == w + r && (w + r)[..0] == [];
    FrameParses(lim, 0, w, v, []);
    StreamFrom(lim, 0, w, v, r, 0, chunks);
    FrameParses(lim, 0, w, v, r);
  }
}
