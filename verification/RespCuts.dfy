/** One cut of one frame: exactly which cuts change the answer. */
module RespCuts {
  import opened Bytes
  import opened Decimal
  import opened RespTypes
  import opened RespParser
  import opened RespGrammar
  import opened RespRefinement
  import opened RespStreaming

  // ----- Calls consume a prefix of the buffer -----

  predicate IsSuffix(t: bytes, s: bytes) {
    |t| <= |s| && t == s[|s| - |t|..]
  }

  lemma {:induction false} SuffixTransitive(a: bytes, b: bytes, c: bytes)
    requires IsSuffix(a, b) && IsSuffix(b, c)
    ensures IsSuffix(a, c)
  {
  }

  lemma {:induction false} RunTakesPrefix(lim: Limits, st: State, depth: nat, buf: bytes)
    ensures IsSuffix(Run(lim, st, depth, buf).buf, buf)
    decreases |buf|, 3
  {
    hide RunMarker, RunBulkHeader, RunBulkData, RunAggHeader, RunElements, ParseI64, LineValue, FindCrlf, IsSuffix;
    match st
    case WaitingForType => MarkerTakesPrefix(lim, depth, buf);
    case AggLen(k, lb) =>
      if FindCrlf(buf).Some? {
        var p := FindCrlf(buf).value;
        HeaderTakesPrefix(lim, k, lb + buf[..p], depth, buf[p + 2..]);
      }
      AggLenTakesPrefix(lim, k, lb, depth, buf);
    case BulkLen(k, lb) => BulkLenTakesPrefix(lim, k, lb, depth, buf);
    case ListData(_, _, _) => ElementsTakePrefix(lim, st, depth, buf);
    case MapData(_, _, _) => ElementsTakePrefix(lim, st, depth, buf);
    case Line(k, data) => LineTakesPrefix(lim, k, data, depth, buf);
    case BulkData(k, len, data) => BulkDataTakesPrefix(k, len, data, depth, buf);
  }

  lemma {:induction false} LineTakesPrefix(lim: Limits, k: LineKind, data: bytes, depth: nat, buf: bytes)
    ensures IsSuffix(Run(lim, Line(k, data), depth, buf).buf, buf)
  {
    hide LineValue;
  }

  lemma {:induction false} BulkLenTakesPrefix(lim: Limits, k: BulkKind, lb: bytes, depth: nat, buf: bytes)
    ensures IsSuffix(Run(lim, BulkLen(k, lb), depth, buf).buf, buf)
  {
    hide RunBulkHeader, FindCrlf;
    if FindCrlf(buf).Some? {
      var p := FindCrlf(buf).value;
      BulkTakesPrefix(lim, k, lb + buf[..p], depth, buf[p + 2..]);
      SuffixTransitive(Run(lim, BulkLen(k, lb), depth, buf).buf, buf[p + 2..], buf);
    }
  }

  /** What an aggregate's length line takes, given what its elements take. */
  lemma {:induction false} AggLenTakesPrefix(lim: Limits, k: AggKind, lb: bytes, depth: nat, buf: bytes)
    requires FindCrlf(buf).Some? ==>
               var p := FindCrlf(buf).value;
               IsSuffix(RunAggHeader(lim, k, lb + buf[..p], depth, buf[p + 2..]).buf, buf[p + 2..])
    ensures IsSuffix(Run(lim, AggLen(k, lb), depth, buf).buf, buf)
  {
    hide RunAggHeader, FindCrlf;
    if FindCrlf(buf).Some? {
      var p := FindCrlf(buf).value;
      SuffixTransitive(RunAggHeader(lim, k, lb + buf[..p], depth, buf[p + 2..]).buf, buf[p + 2..], buf);
    }
  }

  lemma {:induction false} BulkTakesPrefix(lim: Limits, k: BulkKind, line: bytes, depth: nat, rest: bytes)
    ensures IsSuffix(RunBulkHeader(lim, k, line, depth, rest).buf, rest)
  {
    hide ParseI64, RunBulkData;
    if ParseI64(line).Some? && ParseI64(line).value >= 0 {
      BulkDataTakesPrefix(k, ParseI64(line).value, [], depth, rest);
    }
  }

  lemma {:induction false} BulkDataTakesPrefix(k: BulkKind, len: nat, data: bytes, depth: nat, buf: bytes)
    ensures IsSuffix(RunBulkData(k, len, data, depth, buf).buf, buf)
  {
  }

  /** At least the type byte is consumed. */
  lemma {:induction false} MarkerTakesPrefix(lim: Limits, depth: nat, buf: bytes)
    ensures IsSuffix(RunMarker(lim, depth, buf).buf, buf)
    ensures buf != [] ==> |RunMarker(lim, depth, buf).buf| < |buf|
    decreases |buf|, 0
  {
    hide Run, RunMarker, IsSuffix;
    if buf == [] || buf[0] == NULL_MARK || buf[0] == BOOL_MARK || StateFor(buf[0]).None? {
      ShortMarkTakesPrefix(lim, depth, buf);
    } else {
      RunTakesPrefix(lim, StateFor(buf[0]).value, depth, buf[1..]);
      TailIsSuffix(buf);
      MarkerEnters(lim, depth, buf);
      SuffixTransitive(RunMarker(lim, depth, buf).buf, buf[1..], buf);
    }
  }

  lemma {:induction false} TailIsSuffix(buf: bytes)
    requires buf != []
    ensures IsSuffix(buf[1..], buf)
  {
  }

  lemma {:induction false} MarkerEnters(lim: Limits, depth: nat, buf: bytes)
    requires buf != [] && buf[0] != NULL_MARK && buf[0] != BOOL_MARK && StateFor(buf[0]).Some?
    ensures RunMarker(lim, depth, buf) == Run(lim, StateFor(buf[0]).value, depth, buf[1..])
  {
  }

  lemma {:induction false} ShortMarkTakesPrefix(lim: Limits, depth: nat, buf: bytes)
    requires buf == [] || buf[0] == NULL_MARK || buf[0] == BOOL_MARK || StateFor(buf[0]).None?
    ensures IsSuffix(RunMarker(lim, depth, buf).buf, buf)
    ensures buf != [] ==> |RunMarker(lim, depth, buf).buf| < |buf|
  {
    hide Run;
  }

  lemma {:induction false} HeaderTakesPrefix(lim: Limits, k: AggKind, line: bytes, depth: nat, rest: bytes)
    ensures IsSuffix(RunAggHeader(lim, k, line, depth, rest).buf, rest)
    decreases |rest|, 2
  {
    if ParseI64(line).Some? && OpenAgg(lim, k, ParseI64(line).value, depth).Open? {
      ElementsTakePrefix(lim, OpenAgg(lim, k, ParseI64(line).value, depth).start, depth + 1, rest);
    }
  }

  lemma {:induction false} ElementsTakePrefix(lim: Limits, st: State, depth: nat, buf: bytes)
    requires st.Aggregate()
    ensures IsSuffix(RunElements(lim, st, depth, buf).buf, buf)
    decreases |buf|, 1
  {
    MarkerTakesPrefix(lim, depth, buf);
    var o := RunMarker(lim, depth, buf);
    if st.remaining > 0 && o.result.Parsed? && Absorb(st, o.result.value).More? {
      ElementsTakePrefix(lim, Absorb(st, o.result.value).state, o.depth, o.buf);
      SuffixTransitive(RunElements(lim, st, depth, buf).buf, o.buf, buf);
    }
  }

  // ----- No frame of a value ends in a shorter frame of the same value -----

  predicate IsMark(b: byte) {
    !IsDigit(b) && b != PLUS && b != MINUS
  }

  lemma {:induction false} HeaderText(w: bytes, mark: byte, n: int, body: int, i: int)
    requires Header(w, mark, n, body) && 1 <= i < body - 2
    ensures !IsMark(w[i])
  {
    var t := w[1..body - 2];
    assert t[i - 1] == w[i];
    var digits := if t[0] == MINUS || t[0] == PLUS then t[1..] else t;
    assert AllDigits(digits);
    if |digits| < |t| && i > 1 { assert digits[i - 2] == w[i]; }
  }

  /** Two headers with equally long bodies, one frame a suffix of the other, start together. */
  lemma {:induction false} HeaderSuffix(w1: bytes, mark1: byte, n1: int, body1: int, w2: bytes, mark2: byte, n2: int, body2: int)
    requires Header(w1, mark1, n1, body1) && Header(w2, mark2, n2, body2)
    requires IsSuffix(w2, w1) && |w1| - body1 == |w2| - body2 && IsMark(mark2)
    ensures |w1| == |w2|
  {
    var o := |w1| - |w2|;
    assert ParseI64(w2[1..body2 - 2]).Some?;
    assert body2 > 3;
    assert w1[o] == w2[0];
    if o > 0 { HeaderText(w1, mark1, n1, body1, o); }
  }

  /** A null frame: `_` alone, or a length of -1. */
  lemma {:induction false} NullForm(lim: Limits, w: bytes, depth: nat)
    requires IsFrame(lim, depth, w, Null)
    ensures w != [] && IsMark(w[0])
    ensures if w[0] == NULL_MARK then w == [NULL_MARK] + CRLF else IsNumber(w, w[0], -1)
  {
    hide ParseI64;
  }

  lemma {:induction false} NullSuffix(lim: Limits, w1: bytes, d1: nat, w2: bytes, d2: nat)
    requires IsFrame(lim, d1, w1, Null) && IsFrame(lim, d2, w2, Null) && IsSuffix(w2, w1)
    ensures |w1| == |w2|
  {
    NullForm(lim, w1, d1);
    NullForm(lim, w2, d2);
    hide IsFrame, ParseI64, IsMark;
    if w1[0] != NULL_MARK {
      if w2[0] != NULL_MARK {
        HeaderSuffix(w1, w1[0], -1, |w1|, w2, w2[0], -1, |w2|);
      } else {
        NullMarkInHeader(w1);
      }
    }
  }

  /** No length line ends in a `_` frame. */
  lemma {:induction false} NullMarkInHeader(w: bytes)
    requires w != [] && IsNumber(w, w[0], -1)
    ensures !IsSuffix([NULL_MARK] + CRLF, w)
  {
    hide ParseI64, IsMark, IsSuffix;
    NumberHasText(w, w[0], -1);
    if IsSuffix([NULL_MARK] + CRLF, w) {
      SuffixHead([NULL_MARK] + CRLF, w);
      NullMarkIsMark();
      HeaderText(w, w[0], -1, |w|, |w| - 3);
    }
  }

  lemma {:induction false} NumberHasText(w: bytes, mark: byte, n: int)
    requires IsNumber(w, mark, n)
    ensures |w| > 3
  {
    assert ParseI64(w[1..|w| - 2]).Some?;
  }

  lemma {:induction false} SuffixHead(t: bytes, s: bytes)
    requires IsSuffix(t, s) && t != []
    ensures s[|s| - |t|] == t[0]
  {
  }

  lemma {:induction false} NullMarkIsMark()
    ensures IsMark(NULL_MARK)
  {
  }

  lemma {:induction false} BulkSuffix(lim: Limits, w1: bytes, w2: bytes, mark: byte, s: bytes)
    requires IsBulk(lim, w1, mark, s) && IsBulk(lim, w2, mark, s) && IsSuffix(w2, w1) && IsMark(mark)
    ensures |w1| == |w2|
  {
    var b1 :| Header(w1, mark, |s|, b1) && w1[b1..] == s + CRLF;
    var b2 :| Header(w2, mark, |s|, b2) && w2[b2..] == s + CRLF;
    assert |w1[b1..]| == |w2[b2..]|;
    HeaderSuffix(w1, mark, |s|, b1, w2, mark, |s|, b2);
  }

  lemma {:induction false} FrameSuffix(lim: Limits, w1: bytes, d1: nat, w2: bytes, d2: nat, v: Value)
    requires IsFrame(lim, d1, w1, v) && IsFrame(lim, d2, w2, v) && IsSuffix(w2, w1)
    ensures w1 == w2
    decreases |w1| + |w2|, 1
  {
    match v
    case SimpleString(_) =>
    case Error(_) =>
    case BigNumber(_) =>
    case Boolean(_) =>
    case Integer(i) => HeaderSuffix(w1, ':' as byte, i, |w1|, w2, ':' as byte, i, |w2|);
    case BulkString(None) => HeaderSuffix(w1, '$' as byte, -1, |w1|, w2, '$' as byte, -1, |w2|);
    case NullArray => HeaderSuffix(w1, '*' as byte, -1, |w1|, w2, '*' as byte, -1, |w2|);
    case Null => NullSuffix(lim, w1, d1, w2, d2);
    case BulkString(Some(s)) => BulkSuffix(lim, w1, w2, '$' as byte, s);
    case BulkError(s) => BulkSuffix(lim, w1, w2, '!' as byte, s);
    case VerbatimString(f, d) => BulkSuffix(lim, w1, w2, '=' as byte, f + [':' as byte] + d);
    case _ => AggregateSuffix(lim, w1, d1, w2, d2, v);
  }

  lemma {:induction false} AggregateSuffix(lim: Limits, w1: bytes, d1: nat, w2: bytes, d2: nat, v: Value)
    requires IsAggregate(v)
    requires IsFrame(lim, d1, w1, v) && IsFrame(lim, d2, w2, v) && IsSuffix(w2, w1)
    ensures |w1| == |w2|
    decreases |w1| + |w2|, 0
  {
    var b1 := AggregateFrame(lim, d1, w1, v);
    var b2 := AggregateFrame(lim, d2, w2, v);
    AggregateSuffixAt(lim, w1, d1, b1, w2, d2, b2, PartsOf(v));
  }

  lemma {:induction false} AggregateSuffixAt(lim: Limits, w1: bytes, d1: nat, b1: int, w2: bytes, d2: nat, b2: int, p: Parts)
    requires AggregateAt(lim, d1, w1, p, b1) && AggregateAt(lim, d2, w2, p, b2) && IsSuffix(w2, w1)
    ensures |w1| == |w2|
    decreases |w1| + |w2| - 1, 4
  {
    SuffixTransitive(w2[b2..], w2, w1);
    ComparableSuffix(lim, w1, w1[b1..], d1 + 1, w2[b2..], d2 + 1, p.flat);
    assert |w1| - b1 == |w1[b1..]| && |w2| - b2 == |w2[b2..]|;
    HeaderSuffix(w1, AggMark(p.kind), p.count, b1, w2, AggMark(p.kind), p.count, b2);
  }

  /** Two frame lists of the same values that end the same string are equal. */
  lemma {:induction false} ComparableSuffix(lim: Limits, w: bytes, x: bytes, d1: nat, y: bytes, d2: nat, es: seq<Value>)
    requires IsFrames(lim, d1, x, es) && IsFrames(lim, d2, y, es) && IsSuffix(x, w) && IsSuffix(y, w)
    ensures x == y
    decreases |x| + |y|, 3, |es|
  {
    SuffixesOfOne(w, x, y);
    if IsSuffix(y, x) {
      FramesSuffix(lim, x, d1, y, d2, es);
    } else {
      FramesSuffix(lim, y, d2, x, d1, es);
    }
  }

  lemma {:induction false} SuffixesOfOne(w: bytes, x: bytes, y: bytes)
    requires IsSuffix(x, w)
    requires IsSuffix(y, w)
    ensures IsSuffix(x, y) || IsSuffix(y, x)
  {
    if |x| <= |y| { assert IsSuffix(x, y); } else { assert IsSuffix(y, x); }
  }

  lemma {:induction false} HeadsFromTails(w1: bytes, k1: nat, w2: bytes, k2: nat)
    requires k1 <= |w1| && k2 <= |w2| && IsSuffix(w2, w1) && w1[k1..] == w2[k2..]
    ensures IsSuffix(w2[..k2], w1[..k1])
    ensures w1[..k1] == w2[..k2] ==> w1 == w2
  {
    assert |w1[k1..]| == |w2[k2..]|;
    assert w1 == w1[..k1] + w1[k1..] && w2 == w2[..k2] + w2[k2..];
  }

  lemma {:induction false} FramesSuffix(lim: Limits, w1: bytes, d1: nat, w2: bytes, d2: nat, es: seq<Value>)
    requires IsFrames(lim, d1, w1, es) && IsFrames(lim, d2, w2, es) && IsSuffix(w2, w1)
    ensures w1 == w2
    decreases |w1| + |w2|, 2, |es|
  {
    hide IsFrame, IsSuffix;
    if es != [] {
      var k1 := FramesCut(lim, d1, w1, es);
      var k2 := FramesCut(lim, d2, w2, es);
      FrameHasBytes(lim, d1, w1[..k1], es[0]);
      SuffixTransitive(w2[k2..], w2, w1);
      ComparableSuffix(lim, w1, w1[k1..], d1, w2[k2..], d2, es[1..]);
      HeadsFromTails(w1, k1, w2, k2);
      FrameSuffix(lim, w1[..k1], d1, w2[..k2], d2, es[0]);
    }
  }

  // ----- Cuts that change the answer -----

  /** The frame cut at `k` is answered as if it had arrived whole. */
  predicate Survives(lim: Limits, depth: nat, w: bytes, v: Value, r: bytes, k: nat)
    requires k <= |w|
  {
    Feed(lim, Seen(lim, depth, w + r, k), (w + r)[k..]) == Outcome(Parsed(v), WaitingForType, depth, r)
  }

  /** The values whose payload is collected from one line. */
  predicate IsText(v: Value) {
    v.SimpleString? || v.Error? || v.BigNumber?
  }

  /** A cut inside the terminator of a first line hides that terminator for good. */
  lemma {:induction false} SplitTerminator(lim: Limits, depth: nat, mark: byte, line: bytes, tail: bytes)
    requires StateFor(mark).Some? && NoCrlf(line)
    ensures var stream := Opened(mark, line, tail);
            var o := Feed(lim, Seen(lim, depth, stream, |line| + 2), stream[|line| + 2..]);
            o.result.Parsed? ==> IsText(o.result.value) && |o.result.value.text| > |line|
  {
    var stream := Opened(mark, line, tail);
    var seen, more := line + [CR], [LF] + tail;
    assert stream[..|line| + 2] == [mark] + seen && stream[|line| + 2..] == more;
    forall i | 0 <= i < |seen| ensures !CrlfAt(seen, i) { assert !CrlfAt(line, i); }
    LineHeld(lim, depth, mark, seen);
    assert [] + more == more;
    SplitLineCall(lim, depth, mark, seen, more);
  }

  /** A kept CR stays part of the line, so the line is no number and is longer than it should be. */
  lemma {:induction false} SplitLineCall(lim: Limits, depth: nat, mark: byte, seen: bytes, more: bytes)
    requires StateFor(mark).Some? && CR in seen
    ensures var o := Run(lim, Collecting(mark, seen), depth, more);
            o.result.Parsed? ==> IsText(o.result.value) && |o.result.value.text| >= |seen|
  {
    MarkFor(mark);
    if FindCrlf(more).Some? {
      var p := FindCrlf(more).value;
      var line := seen + more[..p];
      assert CR in line;
      if ParseI64(line).Some? { ParsedHasNoCr(line); }
    }
  }

  lemma {:induction false} TextCutFails(lim: Limits, depth: nat, w: bytes, mark: byte, v: Value, r: bytes)
    requires StateFor(mark).Some? && IsText(v) && IsLine(w, mark, v.text)
    ensures !Survives(lim, depth, w, v, r, |w| - 1)
  {
    assert w + r == Opened(mark, v.text, r);
    SplitTerminator(lim, depth, mark, v.text, r);
  }

  lemma {:induction false} HeaderCutFails(lim: Limits, depth: nat, w: bytes, mark: byte, n: int, body: int, v: Value, r: bytes)
    requires StateFor(mark).Some? && !IsText(v) && Header(w, mark, n, body)
    ensures !Survives(lim, depth, w, v, r, body - 1)
  {
    HeaderOpens(w, mark, n, body, r);
    SplitTerminator(lim, depth, mark, w[1..body - 2], w[body..] + r);
  }

  /** A cut inside a bulk trailer: the CR is swallowed as data, and the next call underflows. */
  lemma {:induction false} TrailerCut(lim: Limits, depth: nat, bk: BulkKind, line: bytes, s: bytes, r: bytes)
    requires NoCrlf(line) && ParseI64(line) == Some(|s|) && |s| <= lim.maxBulk && BulkValue(bk, s).Some?
    requires s != []
    ensures var first := Run(lim, WaitingForType, depth, Opened(BulkMark(bk), line, s + [CR]));
            Feed(lim, After(first), [LF] + r).result == Panicked
  {
    RunBulk(lim, depth, bk, line, s + [CR]);
    assert [] + (s + [CR]) == s + [CR];
  }

  /** An empty bulk frame leaves the CR in the buffer instead. */
  lemma {:induction false} EmptyTrailerCut(lim: Limits, depth: nat, bk: BulkKind, line: bytes, r: bytes)
    requires NoCrlf(line) && ParseI64(line) == Some(0) && BulkValue(bk, []).Some?
    ensures var first := Run(lim, WaitingForType, depth, Opened(BulkMark(bk), line, [CR]));
            Feed(lim, After(first), [LF] + r) == Outcome(Parsed(BulkValue(bk, []).value), WaitingForType, depth, r)
  {
    hide RunMarker, ParseI64, RunBulkData, Opened, NoCrlf;
    RunBulk(lim, depth, bk, line, [CR]);
    assert RunBulkHeader(lim, bk, line, depth, [CR]) == Outcome(NeedMore, BulkData(bk, 0, []), depth, [CR]);
    var rest := [CR] + ([LF] + r);
    BulkDataCall(lim, bk, 0, [], depth, rest);
    EmptyData(bk, depth, rest, r);
  }

  lemma {:induction false} EmptyData(bk: BulkKind, depth: nat, rest: bytes, r: bytes)
    requires rest == [CR] + ([LF] + r) && BulkValue(bk, []).Some?
    ensures RunBulkData(bk, 0, [], depth, rest) == Outcome(Parsed(BulkValue(bk, []).value), WaitingForType, depth, r)
  {
    assert rest[0..2] == CRLF && rest[2..] == r && [] + rest[..0] == [];
  }

  lemma {:induction false} BulkTrailerCut(lim: Limits, depth: nat, bk: BulkKind, w: bytes, s: bytes, v: Value, r: bytes)
    requires IsBulk(lim, w, BulkMark(bk), s) && BulkValue(bk, s) == Some(v)
    ensures Survives(lim, depth, w, v, r, |w| - 1) <==> s == []
  {
    hide Run, ParseI64, NoCrlf, BulkValue;
    var body :| Header(w, BulkMark(bk), |s|, body) && w[body..] == s + CRLF;
    HeaderOpens(w, BulkMark(bk), |s|, body, r);
    assert |w| == body + |s| + 2;
    var line, tail := w[1..body - 2], s + CRLF + r;
    assert w[body..] + r == tail;
    OpenedSlices(BulkMark(bk), line, tail, |s| + 1, |tail|);
    assert tail[..|s| + 1] == s + [CR] && (w + r)[|w| - 1..] == [LF] + r;
    if s == [] {
      assert s + [CR] == [CR];
      EmptyTrailerCut(lim, depth, bk, line, r);
    } else {
      TrailerCut(lim, depth, bk, line, s, r);
    }
  }

  lemma {:induction false} BulkHeaderCutFails(lim: Limits, depth: nat, bk: BulkKind, w: bytes, s: bytes, v: Value, r: bytes)
    requires IsBulk(lim, w, BulkMark(bk), s) && BulkValue(bk, s) == Some(v)
    ensures !Survives(lim, depth, w, v, r, |w| - |s| - 3)
  {
    var body :| Header(w, BulkMark(bk), |s|, body) && w[body..] == s + CRLF;
    assert |w| == body + |s| + 2;
    HeaderCutFails(lim, depth, w, BulkMark(bk), |s|, body, v, r);
  }

  /** A null or boolean loses its type byte when it does not arrive whole. */
  lemma {:induction false} MarkOnly(lim: Limits, depth: nat, w: bytes, r: bytes, k: nat)
    requires 0 < k < |w| && ((w[0] == NULL_MARK && |w| == 3) || (w[0] == BOOL_MARK && |w| == 4))
    ensures Feed(lim, Seen(lim, depth, w + r, k), (w + r)[k..]) == Run(lim, WaitingForType, depth, w[1..] + r)
  {
    hide Run;
    var part := w[..k];
    PartAndRest(w, r, k);
    MarkAlone(lim, depth, part);
  }

  lemma {:induction false} PartAndRest(w: bytes, r: bytes, k: nat)
    requires 0 < k < |w|
    ensures (w + r)[..k] == w[..k] && w[..k][1..] + (w + r)[k..] == w[1..] + r
  {
  }

  lemma {:induction false} MarkAlone(lim: Limits, depth: nat, part: bytes)
    requires part != [] && ((part[0] == NULL_MARK && |part| < 3) || (part[0] == BOOL_MARK && |part| < 4))
    ensures Run(lim, WaitingForType, depth, part) == Outcome(NeedMore, WaitingForType, depth, part[1..])
  {
  }

  lemma {:induction false} NullCutFails(lim: Limits, depth: nat, w: bytes, r: bytes, k: nat)
    requires w == [NULL_MARK] + CRLF && 0 < k < |w|
    ensures !Survives(lim, depth, w, Null, r, k)
  {
    MarkOnly(lim, depth, w, r, k);
    assert (w[1..] + r)[0] == CR;
  }

  lemma {:induction false} BooleanCutFails(lim: Limits, depth: nat, w: bytes, b: bool, r: bytes, k: nat)
    requires IsFrame(lim, depth, w, Boolean(b)) && 0 < k < |w|
    ensures !Survives(lim, depth, w, Boolean(b), r, k)
  {
    MarkOnly(lim, depth, w, r, k);
    if Survives(lim, depth, w, Boolean(b), r, k) {
      MarkerSound(lim, depth, w[1..] + r);
    }
  }

  // ----- Cuts inside an element of an aggregate -----

  /** A cut that is no boundary falls inside the frame `w[b..b + m]` of some element `j`. */
  lemma {:induction false} LocateCut(lim: Limits, depth: nat, w: bytes, es: seq<Value>, i: nat) returns (j: nat, b: nat, m: nat)
    requires IsFrames(lim, depth, w, es) && i <= |w| && !Boundary(lim, depth, w, es, i)
    ensures j < |es| && b < i < b + m <= |w|
    ensures IsFrames(lim, depth, w[..b], es[..j])
    ensures IsFrame(lim, depth, w[b..b + m], es[j])
    ensures IsFrames(lim, depth, w[b + m..], es[j + 1..])
    decreases |es|
  {
    hide IsFrame;
    if i == 0 || es == [] {
      StartIsBoundary(lim, depth, w, es);
      assert false;
    }
    var k := FramesCut(lim, depth, w, es);
    if i < k {
      j, b, m := 0, 0, k;
      assert w[..0] == [] && es[..0] == [] && w[0..0 + k] == w[..k];
    } else {
      var y := w[k..];
      if Boundary(lim, depth, y, es[1..], i - k) {
        var q :| BoundaryAt(lim, depth, y, es[1..], i - k, q);
        BoundaryShift(lim, depth, w, es, k, i, q);
      }
      j, b, m := LocateCut(lim, depth, y, es[1..], i - k);
      LocateShift(lim, depth, w, es, k, j, b, m);
      j, b := j + 1, b + k;
    }
  }

  lemma {:induction false} StartIsBoundary(lim: Limits, depth: nat, w: bytes, es: seq<Value>)
    requires IsFrames(lim, depth, w, es)
    ensures Boundary(lim, depth, w, es, 0)
  {
    assert w[..0] == [] && w[0..] == w && es[..0] == [] && es[0..] == es;
    assert BoundaryAt(lim, depth, w, es, 0, 0);
  }

  lemma {:induction false} LocateShift(lim: Limits, depth: nat, w: bytes, es: seq<Value>, k: nat, j: nat, b: nat, m: nat)
    requires k + b + m <= |w| && j + 1 < |es| && IsFrame(lim, depth, w[..k], es[0])
    requires IsFrames(lim, depth, w[k..][..b], es[1..][..j])
    requires IsFrame(lim, depth, w[k..][b..b + m], es[1..][j])
    requires IsFrames(lim, depth, w[k..][b + m..], es[1..][j + 1..])
    ensures IsFrames(lim, depth, w[..k + b], es[..j + 1])
    ensures IsFrame(lim, depth, w[k + b..k + b + m], es[j + 1])
    ensures IsFrames(lim, depth, w[k + b + m..], es[j + 2..])
  {
    FramesPrepend(lim, depth, w, es, k, b, j);
    assert w[k..][b..b + m] == w[k + b..k + b + m] && w[k..][b + m..] == w[k + b + m..];
    assert es[1..][j + 1..] == es[j + 2..];
  }

  lemma {:induction false} BoundaryShift(lim: Limits, depth: nat, w: bytes, es: seq<Value>, k: nat, i: nat, q: int)
    requires es != [] && k <= i <= |w| && IsFrame(lim, depth, w[..k], es[0])
    requires BoundaryAt(lim, depth, w[k..], es[1..], i - k, q)
    ensures Boundary(lim, depth, w, es, i)
  {
    FramesPrepend(lim, depth, w, es, k, i - k, q);
    assert w[k..][i - k..] == w[i..] && es[1..][q..] == es[q + 1..];
    assert BoundaryAt(lim, depth, w, es, i, q + 1);
  }

  /** Absorbing a list in two parts. */
  lemma {:induction false} AbsorbConcat(st: State, a: seq<Value>, b: seq<Value>)
    requires st.Aggregate() && st.remaining > 0 && AbsorbAll(st, a).Pending?
    ensures AbsorbAll(st, a + b) == AbsorbAll(AbsorbAll(st, a).state, b)
    decreases |a|
  {
    if a == [] {
      assert a + b == b;
    } else {
      assert (a + b)[0] == a[0] && (a + b)[1..] == a[1..] + b;
      AbsorbConcat(Absorb(st, a[0]).state, a[1..], b);
    }
  }

  /** From the state after `j` elements only the remaining elements finish `v`. */
  lemma {:induction false} RestIsUnique(v: Value, j: nat, es: seq<Value>)
    requires IsAggregate(v) && j < |PartsOf(v).flat|
    requires AbsorbAll(OpenAfter(v, j), es) == Finished(v)
    ensures es == PartsOf(v).flat[j..]
  {
    var p := PartsOf(v);
    var head := p.flat[..j];
    AbsorbConcat(StartAgg(p.kind, p.count), head, es);
    AggregateFinished(p.kind, p.count, head + es, v);
    assert (head + es)[j..] == es;
  }

  /** The element's bytes were consumed and forgotten: what follows cannot be the missing elements. */
  lemma {:induction false} ForgottenElement(lim: Limits, d1: nat, d2: nat, v: Value, j: nat, full: bytes, short: bytes, r: bytes)
    requires IsAggregate(v) && j < |PartsOf(v).flat|
    requires IsFrames(lim, d1, full, PartsOf(v).flat[j..])
    requires IsSuffix(short, full) && |short| < |full|
    ensures var o := RunElements(lim, OpenAfter(v, j), d2, short + r);
            !(o.result == Parsed(v) && o.buf == r)
  {
    var buf := short + r;
    var o := RunElements(lim, OpenAfter(v, j), d2, buf);
    if o.result == Parsed(v) && o.buf == r {
      var es := ElementsSound(lim, OpenAfter(v, j), d2, buf);
      RestIsUnique(v, j, es);
      assert buf[..Consumed(buf, o)] == short;
      FramesSuffix(lim, full, d1, short, d2, es);
    }
  }

  /** The next call after a cut `i` bytes into the frame `e` of element `j`. */
  lemma {:induction false} ElementCutCall(lim: Limits, depth: nat, v: Value, line: bytes, x: bytes, j: nat, e: bytes, i: nat, rest: bytes, r: bytes)
    requires IsAggregate(v) && j < |PartsOf(v).flat| && FitsAggregate(lim, depth, PartsOf(v).count)
    requires NoCrlf(line) && ParseI64(line) == Some(PartsOf(v).count)
    requires IsFrames(lim, depth + 1, x, PartsOf(v).flat[..j])
    requires IsFrame(lim, depth + 1, e, PartsOf(v).flat[j]) && 0 < i < |e|
    requires IsFrames(lim, depth + 1, rest, PartsOf(v).flat[j + 1..])
    ensures var first := Run(lim, WaitingForType, depth, Opened(AggMark(PartsOf(v).kind), line, x + e[..i]));
            var o := Feed(lim, After(first), e[i..] + rest + r);
            !(o.result == Parsed(v) && o.buf == r)
  {
    hide ParseI64, RunMarker, IsFrame, IsFrames, Opened, NoCrlf, IsSuffix;
    AggregateTailRun(lim, depth, v, line, x, j, e[..i]);
    PrefixNeedsMore(lim, depth + 1, e, PartsOf(v).flat[j], i);
    var inner := RunMarker(lim, depth + 1, e[..i]);
    MarkerTakesPrefix(lim, depth + 1, e[..i]);
    var full, short := e + rest, inner.buf + (e[i..] + rest);
    ForgottenBytes(e, i, rest, inner.buf);
    TailFrames(lim, depth + 1, PartsOf(v).flat, j, e, rest);
    assert inner.buf + (e[i..] + rest + r) == short + r;
    ForgottenElement(lim, depth + 1, inner.depth, v, j, full, short, r);
  }

  lemma {:induction false} ForgottenBytes(e: bytes, i: nat, rest: bytes, left: bytes)
    requires i <= |e| && IsSuffix(left, e[..i]) && |left| < i
    ensures IsSuffix(left + (e[i..] + rest), e + rest) && |left + (e[i..] + rest)| < |e + rest|
  {
    assert e + rest == e[..i] + (e[i..] + rest);
  }

  lemma {:induction false} TailFrames(lim: Limits, depth: nat, es: seq<Value>, j: nat, e: bytes, rest: bytes)
    requires j < |es| && IsFrame(lim, depth, e, es[j]) && IsFrames(lim, depth, rest, es[j + 1..])
    ensures IsFrames(lim, depth, e + rest, es[j..])
  {
    var full := e + rest;
    assert full[..|e|] == e && full[|e|..] == rest && es[j..][1..] == es[j + 1..];
    FramesJoin(lim, depth, full, es[j..], |e|);
  }

  lemma {:induction false} ElementCutFails(lim: Limits, depth: nat, v: Value, line: bytes, frames: bytes, r: bytes, i: nat)
    requires IsAggregate(v) && NoCrlf(line) && ParseI64(line) == Some(PartsOf(v).count)
    requires FitsAggregate(lim, depth, PartsOf(v).count)
    requires IsFrames(lim, depth + 1, frames, PartsOf(v).flat)
    requires i <= |frames| && !Boundary(lim, depth + 1, frames, PartsOf(v).flat, i)
    ensures var stream, k := Opened(AggMark(PartsOf(v).kind), line, frames + r), |line| + 3 + i;
            Feed(lim, Seen(lim, depth, stream, k), stream[k..]) != Outcome(Parsed(v), WaitingForType, depth, r)
  {
    hide Run, ParseI64, IsFrame, IsFrames, NoCrlf, Boundary, Opened;
    var mark := AggMark(PartsOf(v).kind);
    var j, b, m := LocateCut(lim, depth + 1, frames, PartsOf(v).flat, i);
    var e, rest := frames[b..b + m], frames[b + m..];
    ElementSlices(mark, line, frames, r, i, b, m);
    ElementCutCall(lim, depth, v, line, frames[..b], j, e, i - b, rest, r);
  }

  lemma {:induction false} ElementSlices(mark: byte, line: bytes, frames: bytes, r: bytes, i: nat, b: nat, m: nat)
    requires b <= i <= b + m <= |frames|
    ensures var stream, k := Opened(mark, line, frames + r), |line| + 3 + i;
            var e, rest := frames[b..b + m], frames[b + m..];
            && stream[..k] == Opened(mark, line, frames[..b] + e[..i - b])
            && stream[k..] == e[i - b..] + rest + r
  {
    OpenedSlices(mark, line, frames + r, i, |frames + r|);
    assert (frames + r)[..i] == frames[..b] + frames[b..b + m][..i - b];
  }

  lemma {:induction false} AggregateCutFails(lim: Limits, depth: nat, w: bytes, v: Value, r: bytes, k: nat)
    requires IsAggregate(v) && IsFrame(lim, depth, w, v) && 0 < k < |w|
    requires !CleanAggregateCut(lim, depth, w, PartsOf(v), k)
    ensures !Survives(lim, depth, w, v, r, k)
  {
    hide Run, ParseI64, IsFrame, IsFrames, NoCrlf, Boundary;
    var p := PartsOf(v);
    var body := AggregateFrame(lim, depth, w, v);
    if k == body - 1 {
      HeaderCutFails(lim, depth, w, AggMark(p.kind), p.count, body, v, r);
    } else {
      HeaderOpens(w, AggMark(p.kind), p.count, body, r);
      ElementCutFails(lim, depth, v, w[1..body - 2], w[body..], r, k - body);
    }
  }

  // ----- The exact condition -----

  /** The one unclean cut that does no harm: inside the trailer of an empty bulk string or error. */
  predicate EmptyBulkTrailer(w: bytes, v: Value, k: nat) {
    k == |w| - 1 && (v == BulkString(Some([])) || v == BulkError([]))
  }

  /** One cut inside a frame leaves the answer unchanged exactly when the cut is clean. */
  lemma {:induction false} CutExactly(lim: Limits, depth: nat, w: bytes, v: Value, r: bytes, k: nat)
    requires IsFrame(lim, depth, w, v) && 0 < k < |w|
    ensures Survives(lim, depth, w, v, r, k) <==> CleanCut(lim, depth, w, v, k) || EmptyBulkTrailer(w, v, k)
  {
    if CleanCut(lim, depth, w, v, k) {
      CleanCutSurvives(lim, depth, w, v, r, k);
    } else {
      UncleanCut(lim, depth, w, v, r, k);
    }
  }

  lemma {:induction false} CleanCutSurvives(lim: Limits, depth: nat, w: bytes, v: Value, r: bytes, k: nat)
    requires IsFrame(lim, depth, w, v) && k < |w| && CleanCut(lim, depth, w, v, k)
    ensures Survives(lim, depth, w, v, r, k)
  {
    CutResumes(lim, depth, w, v, r, k, |w + r|);
    FrameParses(lim, depth, w, v, r);
    assert (w + r)[..|w + r|] == w + r && (w + r)[k..|w + r|] == (w + r)[k..];
  }

  lemma {:induction false} UncleanCut(lim: Limits, depth: nat, w: bytes, v: Value, r: bytes, k: nat)
    requires IsFrame(lim, depth, w, v) && 0 < k < |w| && !CleanCut(lim, depth, w, v, k)
    ensures Survives(lim, depth, w, v, r, k) <==> EmptyBulkTrailer(w, v, k)
  {
    if IsAggregate(v) {
      AggregateCutFails(lim, depth, w, v, r, k);
    } else if IsCounted(v) {
      CountedCut(lim, depth, w, v, r, k);
    } else if IsText(v) {
      TextCutFails(lim, depth, w, w[0], v, r);
    } else {
      NumberCutFails(lim, depth, w, v, r, k);
    }
  }

  /** Frames with a byte count. */
  predicate IsCounted(v: Value) {
    (v.BulkString? && v.content.Some?) || v.BulkError? || v.VerbatimString?
  }

  lemma {:induction false} CountedCut(lim: Limits, depth: nat, w: bytes, v: Value, r: bytes, k: nat)
    requires IsCounted(v) && IsFrame(lim, depth, w, v) && 0 < k < |w| && !CleanCut(lim, depth, w, v, k)
    ensures Survives(lim, depth, w, v, r, k) <==> EmptyBulkTrailer(w, v, k)
  {
    match v
    case BulkString(Some(s)) => BulkCutExactly(lim, depth, StringBulk, w, s, v, r, k);
    case BulkError(s) => BulkCutExactly(lim, depth, ErrorBulk, w, s, v, r, k);
    case VerbatimString(_, _) => VerbatimCut(lim, depth, w, v, r, k);
  }

  /** Nulls, booleans and integers. */
  lemma {:induction false} NumberCutFails(lim: Limits, depth: nat, w: bytes, v: Value, r: bytes, k: nat)
    requires !IsAggregate(v) && !IsCounted(v) && !IsText(v)
    requires IsFrame(lim, depth, w, v) && 0 < k < |w| && !CleanCut(lim, depth, w, v, k)
    ensures !Survives(lim, depth, w, v, r, k)
  {
    match v
    case Integer(i) => HeaderCutFails(lim, depth, w, ':' as byte, i, |w|, v, r);
    case BulkString(None) => HeaderCutFails(lim, depth, w, '$' as byte, -1, |w|, v, r);
    case NullArray => HeaderCutFails(lim, depth, w, '*' as byte, -1, |w|, v, r);
    case Null =>
      if w[0] == NULL_MARK { NullCutFails(lim, depth, w, r, k); }
      else { HeaderCutFails(lim, depth, w, w[0], -1, |w|, v, r); }
    case Boolean(b) => BooleanCutFails(lim, depth, w, b, r, k);
  }

  lemma {:induction false} VerbatimCut(lim: Limits, depth: nat, w: bytes, v: Value, r: bytes, k: nat)
    requires v.VerbatimString? && IsFrame(lim, depth, w, v) && 0 < k < |w| && !CleanCut(lim, depth, w, v, k)
    ensures !Survives(lim, depth, w, v, r, k)
  {
    var s := v.fmt + [':' as byte] + v.data;
    assert s[..3] == v.fmt && s[4..] == v.data;
    BulkCutExactly(lim, depth, VerbatimBulk, w, s, v, r, k);
  }

  lemma {:induction false} BulkCutExactly(lim: Limits, depth: nat, bk: BulkKind, w: bytes, s: bytes, v: Value, r: bytes, k: nat)
    requires IsBulk(lim, w, BulkMark(bk), s) && BulkValue(bk, s) == Some(v)
    requires 0 < k < |w| && (k == |w| - |s| - 3 || k == |w| - 1)
    ensures Survives(lim, depth, w, v, r, k) <==> k == |w| - 1 && s == []
  {
    if k == |w| - 1 {
      BulkTrailerCut(lim, depth, bk, w, s, v, r);
    } else {
      BulkHeaderCutFails(lim, depth, bk, w, s, v, r);
    }
  }
}
