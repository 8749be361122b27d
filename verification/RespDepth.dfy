/**
  * When the parser gives its depth back. A call that runs out of data inside an aggregate which is
  * itself an element forgets that aggregate and keeps its level of depth; no other call does.
  */
module RespDepth {
  import opened Bytes
  import opened Decimal
  import opened RespTypes
  import opened RespParser
  import opened RespGrammar
  import opened RespRefinement
  import opened RespStreaming
  import opened RespRuns

  // ----- The aggregates open at a cut, read off the grammar -----

  lemma {:induction false} BodyExists(lim: Limits, depth: nat, w: bytes, v: Value)
    requires IsAggregate(v) && IsFrame(lim, depth, w, v)
    ensures exists body :: AggregateAt(lim, depth, w, PartsOf(v), body)
  {
    hide IsFrame, AggregateAt;
    var body := AggregateFrame(lim, depth, w, v);
  }

  /** Where the elements of an aggregate's frame begin. */
  ghost function BodyOf(lim: Limits, depth: nat, w: bytes, v: Value): (body: nat)
    requires IsAggregate(v) && IsFrame(lim, depth, w, v)
    ensures AggregateAt(lim, depth, w, PartsOf(v), body)
    ensures 3 <= body <= |w|
  {
    BodyExists(lim, depth, w, v);
    var body :| AggregateAt(lim, depth, w, PartsOf(v), body);
    body
  }

  lemma {:induction false} FirstExists(lim: Limits, depth: nat, w: bytes, es: seq<Value>)
    requires es != [] && IsFrames(lim, depth, w, es)
    ensures exists end :: FirstFrame(lim, depth, w, es, end)
  {
    hide IsFrame;
    var k := FramesCut(lim, depth, w, es);
    assert FirstFrame(lim, depth, w, es, k);
  }

  /** Where the first frame of a list ends. */
  ghost function FirstEnd(lim: Limits, depth: nat, w: bytes, es: seq<Value>): (k: nat)
    requires es != [] && IsFrames(lim, depth, w, es)
    ensures k <= |w| && IsFrame(lim, depth, w[..k], es[0]) && IsFrames(lim, depth, w[k..], es[1..])
  {
    FirstExists(lim, depth, w, es);
    var end :| FirstFrame(lim, depth, w, es, end);
    end
  }

  /** How many aggregates of the frame have their header before `k` and their end after it. */
  ghost function OpenAt(lim: Limits, depth: nat, w: bytes, v: Value, k: nat): (n: nat)
    requires IsFrame(lim, depth, w, v) && k < |w|
    decreases |w|, 0
  {
    if !IsAggregate(v) then 0
    else
      var body := BodyOf(lim, depth, w, v);
      if k < body then 0 else 1 + OpenIn(lim, depth + 1, w[body..], PartsOf(v).flat, k - body)
  }

  ghost function OpenIn(lim: Limits, depth: nat, w: bytes, es: seq<Value>, k: nat): (n: nat)
    requires IsFrames(lim, depth, w, es) && k < |w|
    decreases |w|, 1, |es|
  {
    var j := FirstEnd(lim, depth, w, es);
    if k < j then OpenAt(lim, depth, w[..j], es[0], k) else OpenIn(lim, depth, w[j..], es[1..], k - j)
  }

  // ----- Depth after a prefix of a frame -----

  /** Depth and state of an unfinished call that had no aggregate open. */
  predicate Flat(o: Outcome, depth: nat) {
    o.depth == depth && !o.state.Aggregate()
  }

  lemma {:induction false} NothingIsFlat(lim: Limits, depth: nat)
    ensures Flat(RunMarker(lim, depth, []), depth)
  {
  }

  /** Lines, bulk frames, nulls and booleans never touch the depth. */
  lemma {:induction false} ScalarMarkIsFlat(lim: Limits, depth: nat, buf: bytes)
    requires buf != [] && (StateFor(buf[0]).Some? ==> !StateFor(buf[0]).value.AggLen?)
    requires RunMarker(lim, depth, buf).result.NeedMore?
    ensures Flat(RunMarker(lim, depth, buf), depth)
  {
    hide RunBulkHeader, ParseI64, FindCrlf, LineValue;
    MarkerCases(lim, depth, buf);
    if StateFor(buf[0]).Some? && buf[0] != NULL_MARK && buf[0] != BOOL_MARK {
      MarkFor(buf[0]);
      ScalarRunIsFlat(lim, StateFor(buf[0]).value, depth, buf[1..]);
    }
  }

  /** What a call does with its first byte. */
  lemma {:induction false} MarkerCases(lim: Limits, depth: nat, buf: bytes)
    requires buf != []
    ensures if buf[0] == NULL_MARK || buf[0] == BOOL_MARK || StateFor(buf[0]).None?
            then Flat(RunMarker(lim, depth, buf), depth)
            else RunMarker(lim, depth, buf) == Run(lim, StateFor(buf[0]).value, depth, buf[1..])
  {
    hide Run;
  }

  lemma {:induction false} ScalarRunIsFlat(lim: Limits, st: State, depth: nat, buf: bytes)
    requires st.Line? || st.BulkLen?
    requires Run(lim, st, depth, buf).result.NeedMore?
    ensures Flat(Run(lim, st, depth, buf), depth)
  {
    hide ParseI64, FindCrlf, LineValue;
  }

  /** Neither does the first line of an aggregate while it is incomplete. */
  lemma {:induction false} HeaderPrefixIsFlat(lim: Limits, depth: nat, mark: byte, line: bytes, rest: bytes, k: nat)
    requires NoCrlf(line) && 1 <= k < |line| + 3 && StateFor(mark).Some? && StateFor(mark).value.AggLen?
    ensures Flat(RunMarker(lim, depth, Opened(mark, line, rest)[..k]), depth)
  {
    LinePrefix(lim, depth, mark, line, rest, k);
    hide RunMarker, Opened, RunAggHeader;
    var t := Opened(mark, line, rest)[..k][1..];
    assert FindCrlf(t).None?;
  }

  lemma {:induction false} ScalarPrefixIsFlat(lim: Limits, depth: nat, w: bytes, v: Value, k: nat)
    requires !IsAggregate(v) && IsFrame(lim, depth, w, v) && k < |w|
    ensures Flat(RunMarker(lim, depth, w[..k]), depth)
  {
    hide RunMarker, Run, ParseI64, Flat;
    if k == 0 {
      NothingIsFlat(lim, depth);
      assert w[..k] == [];
    } else {
      PrefixNeedsMore(lim, depth, w, v, k);
      MarkerCall(lim, depth, w[..k]);
      if StateFor(w[0]).Some? && StateFor(w[0]).value.AggLen? {
        NullHeader(lim, depth, w, v);
        HeaderOpens(w, w[0], -1, |w|, []);
        assert w + [] == w;
        HeaderPrefixIsFlat(lim, depth, w[0], w[1..|w| - 2], w[|w|..] + [], k);
      } else {
        ScalarMarkIsFlat(lim, depth, w[..k]);
      }
    }
  }

  lemma {:induction false} MarkerCall(lim: Limits, depth: nat, buf: bytes)
    ensures Run(lim, WaitingForType, depth, buf) == RunMarker(lim, depth, buf)
  {
  }

  /** An aggregate's type byte on a frame that is no aggregate announces a null. */
  lemma {:induction false} NullHeader(lim: Limits, depth: nat, w: bytes, v: Value)
    requires !IsAggregate(v) && IsFrame(lim, depth, w, v) && w != []
    requires StateFor(w[0]).Some? && StateFor(w[0]).value.AggLen?
    ensures IsNumber(w, w[0], -1)
  {
    hide ParseI64, IsFrames, IsPairs, NoCrlf, IsNumber;
    match v
    case SimpleString(_) =>
    case Error(_) =>
    case BigNumber(_) =>
    case Integer(i) => NumberMark(w, ':' as byte, i);
    case BulkString(None) => NumberMark(w, '$' as byte, -1);
    case BulkString(Some(_)) =>
    case BulkError(_) =>
    case VerbatimString(_, _) =>
    case Boolean(_) =>
    case Null => if IsNumber(w, '%' as byte, -1) { NumberMark(w, '%' as byte, -1); } else { NullMarks(w); }
    case NullArray => NumberMark(w, '*' as byte, -1);
  }

  lemma {:induction false} NumberMark(w: bytes, mark: byte, n: int)
    requires IsNumber(w, mark, n)
    ensures w != [] && w[0] == mark
  {
  }

  lemma {:induction false} NullMarks(w: bytes)
    ensures IsNumber(w, '~' as byte, -1) ==> w[0] == '~' as byte
    ensures IsNumber(w, '!' as byte, -1) ==> w[0] == '!' as byte
    ensures IsNumber(w, '=' as byte, -1) ==> w[0] == '=' as byte
  {
  }

  /** Depth and state of an unfinished call with `n` aggregates open, the outermost of them its own. */
  predicate Holding(o: Outcome, depth: nat, n: nat) {
    o.depth == depth + n && o.state.Level() == if n == 0 then 0 else 1
  }

  /**
    * The depth after a proper prefix of a frame is raised by exactly the number of aggregates that are
    * open at the cut.
    */
  lemma {:induction false} DepthAfterPrefix(lim: Limits, depth: nat, w: bytes, v: Value, k: nat)
    requires IsFrame(lim, depth, w, v) && k < |w|
    ensures Holding(Run(lim, WaitingForType, depth, w[..k]), depth, OpenAt(lim, depth, w, v, k))
    decreases |w|, 1
  {
    hide RunMarker, Run, IsFrame;
    MarkerCall(lim, depth, w[..k]);
    if !IsAggregate(v) {
      ScalarPrefixIsFlat(lim, depth, w, v, k);
    } else {
      AggregateDepth(lim, depth, w, v, k);
    }
  }

  lemma {:induction false} AggregateDepth(lim: Limits, depth: nat, w: bytes, v: Value, k: nat)
    requires IsAggregate(v) && IsFrame(lim, depth, w, v) && k < |w|
    ensures Holding(RunMarker(lim, depth, w[..k]), depth, OpenAt(lim, depth, w, v, k))
    decreases |w|, 0
  {
    hide RunMarker, Run, RunAggHeader, IsFrame, IsFrames, ParseI64, NoCrlf;
    var body := BodyOf(lim, depth, w, v);
    var p := PartsOf(v);
    HeaderOpens(w, AggMark(p.kind), p.count, body, []);
    assert w + [] == w && w[body..] + [] == w[body..];
    var line := w[1..body - 2];
    if k == 0 {
      NothingIsFlat(lim, depth);
      assert w[..k] == [];
    } else if k < body {
      HeaderPrefixIsFlat(lim, depth, AggMark(p.kind), line, w[body..], k);
    } else {
      var rest := w[body..];
      assert w[..k] == Opened(AggMark(p.kind), line, rest[..k - body]);
      RunAgg(lim, depth, p.kind, line, rest[..k - body]);
      AggregateBodyDepth(lim, depth, v, line, rest, k - body);
    }
  }

  lemma {:induction false} AggregateBodyDepth(lim: Limits, depth: nat, v: Value, line: bytes, rest: bytes, k: nat)
    requires IsAggregate(v) && ParseI64(line) == Some(PartsOf(v).count) && FitsAggregate(lim, depth, PartsOf(v).count)
    requires IsFrames(lim, depth + 1, rest, PartsOf(v).flat) && k < |rest|
    ensures Holding(RunAggHeader(lim, PartsOf(v).kind, line, depth, rest[..k]), depth,
                    1 + OpenIn(lim, depth + 1, rest, PartsOf(v).flat, k))
    decreases |rest|, 3
  {
    hide ParseI64, RunElements, OpenIn;
    var p := PartsOf(v);
    assert p.count > 0;
    AggregateProgress(v);
    FramesDepth(lim, depth + 1, rest, p.flat, StartAgg(p.kind, p.count), k);
  }

  lemma {:induction false} FramesDepth(lim: Limits, depth: nat, w: bytes, es: seq<Value>, st: State, k: nat)
    requires st.Aggregate() && st.remaining > 0 && depth > 0
    requires IsFrames(lim, depth, w, es) && AbsorbAll(st, es).Finished? && k < |w|
    ensures var o := RunElements(lim, st, depth, w[..k]);
            o.depth == depth + OpenIn(lim, depth, w, es, k) && o.state.Aggregate()
    decreases |w|, 2, |es|
  {
    hide IsFrame, RunMarker, OpenAt, Run;
    var j := FirstEnd(lim, depth, w, es);
    FrameHasBytes(lim, depth, w[..j], es[0]);
    var x, y := w[..j], w[j..];
    assert w == x + y;
    PrefixOfConcat(x, y, k);
    if k < j {
      PrefixNeedsMore(lim, depth, x, es[0], k);
      MarkerCall(lim, depth, x[..k]);
      DepthAfterPrefix(lim, depth, x, es[0], k);
    } else {
      FrameParses(lim, depth, x, es[0], y[..k - j]);
      MarkerCall(lim, depth, x + y[..k - j]);
      assert |es| > 1;
      FramesDepth(lim, depth, y, es[1..], Absorb(st, es[0]).state, k - j);
    }
  }

  // ----- Which cuts of a frame keep a level of depth -----

  /** Element `j` of the frames `w` of `es` is the aggregate frame `w[b..b + m]`, and `k` is in its body. */
  ghost predicate InElementBody(lim: Limits, depth: nat, w: bytes, es: seq<Value>, k: nat, j: int, b: int, m: int, inner: int) {
    && 0 <= j < |es| && 0 <= b <= b + m <= |w| && IsAggregate(es[j])
    && IsFrames(lim, depth, w[..b], es[..j])
    && IsFrame(lim, depth, w[b..b + m], es[j])
    && AggregateAt(lim, depth, w[b..b + m], PartsOf(es[j]), inner)
    && b + inner <= k < b + m
  }

  ghost predicate CutsElement(lim: Limits, depth: nat, w: bytes, es: seq<Value>, k: nat) {
    exists j, b, m, inner :: InElementBody(lim, depth, w, es, k, j, b, m, inner)
  }

  /** The cut falls past the header of an aggregate that is itself an element. */
  ghost predicate CutsElementAggregate(lim: Limits, depth: nat, w: bytes, v: Value, k: nat) {
    && IsAggregate(v)
    && exists body :: AggregateAt(lim, depth, w, PartsOf(v), body) && k >= body &&
                      CutsElement(lim, depth + 1, w[body..], PartsOf(v).flat, k - body)
  }

  lemma {:induction false} HeaderIsUnique(w: bytes, mark: byte, n1: int, b1: int, n2: int, b2: int)
    requires Header(w, mark, n1, b1) && Header(w, mark, n2, b2)
    ensures b1 == b2
  {
    HeaderOpens(w, mark, n1, b1, []);
    HeaderOpens(w, mark, n2, b2, []);
    OpenedLine(mark, w[1..b1 - 2], w[b1..] + []);
    OpenedLine(mark, w[1..b2 - 2], w[b2..] + []);
  }

  lemma {:induction false} BodyIsUnique(lim: Limits, depth: nat, w: bytes, v: Value, body: int)
    requires IsAggregate(v) && IsFrame(lim, depth, w, v) && AggregateAt(lim, depth, w, PartsOf(v), body)
    ensures body == BodyOf(lim, depth, w, v)
  {
    hide IsFrame, IsFrames, Header, ParseI64;
    var p := PartsOf(v);
    HeaderIsUnique(w, AggMark(p.kind), p.count, body, p.count, BodyOf(lim, depth, w, v));
  }

  /** An open element is found where the count says there is one. */
  lemma {:induction false} OpenInCutsElement(lim: Limits, depth: nat, w: bytes, es: seq<Value>, k: nat)
    requires IsFrames(lim, depth, w, es) && k < |w| && OpenIn(lim, depth, w, es, k) > 0
    ensures CutsElement(lim, depth, w, es, k)
    decreases |es|
  {
    hide IsFrame;
    var j := FirstEnd(lim, depth, w, es);
    if k < j {
      FirstElementCut(lim, depth, w, es, k, j);
    } else {
      OpenInCutsElement(lim, depth, w[j..], es[1..], k - j);
      LaterElementCut(lim, depth, w, es, k, j);
    }
  }

  lemma {:induction false} FirstElementCut(lim: Limits, depth: nat, w: bytes, es: seq<Value>, k: nat, j: nat)
    requires es != [] && k < j <= |w| && IsFrame(lim, depth, w[..j], es[0])
    requires OpenAt(lim, depth, w[..j], es[0], k) > 0
    ensures CutsElement(lim, depth, w, es, k)
  {
    hide IsFrame, AggregateAt, OpenIn;
    assert w[..0] == [] && es[..0] == [] && w[0..0 + j] == w[..j];
    assert IsFrames(lim, depth, [], []);
    assert InElementBody(lim, depth, w, es, k, 0, 0, j, BodyOf(lim, depth, w[..j], es[0]));
  }

  lemma {:induction false} LaterElementCut(lim: Limits, depth: nat, w: bytes, es: seq<Value>, k: nat, first: nat)
    requires es != [] && first <= |w| && first <= k && IsFrame(lim, depth, w[..first], es[0])
    requires CutsElement(lim, depth, w[first..], es[1..], k - first)
    ensures CutsElement(lim, depth, w, es, k)
  {
    hide IsFrame, IsFrames, AggregateAt;
    var y := w[first..];
    var j, b, m, inner :| InElementBody(lim, depth, y, es[1..], k - first, j, b, m, inner);
    FramesPrepend(lim, depth, w, es, first, b, j);
    assert y[b..b + m] == w[first + b..first + b + m];
    assert InElementBody(lim, depth, w, es, k, j + 1, first + b, m, inner);
  }

  /** A cut in the body of an element that is an aggregate leaves a level taken beside the state's own. */
  lemma {:induction false} ElementBodyKeepsLevel(
    lim: Limits, depth: nat, w: bytes, v: Value, body: nat, k: nat, j: nat, b: nat, m: nat, inner: nat)
    requires IsAggregate(v) && IsFrame(lim, depth, w, v) && AggregateAt(lim, depth, w, PartsOf(v), body)
    requires body <= k < |w|
    requires InElementBody(lim, depth + 1, w[body..], PartsOf(v).flat, k - body, j, b, m, inner)
    ensures OpenAt(lim, depth, w, v, k) >= 2
  {
    hide IsFrame, IsFrames, ParseI64, NoCrlf, Run, RunElements, RunMarker, OpenAt, Opened;
    var p := PartsOf(v);
    var frames, line := w[body..], w[1..body - 2];
    var x, e, i := frames[..b], frames[b..b + m], k - body - b;
    HeaderOpens(w, AggMark(p.kind), p.count, body, []);
    assert w + [] == w && frames + [] == frames;
    assert e[..i] == frames[b..b + i] && frames[..b + i] == x + e[..i];
    OpenedSlices(AggMark(p.kind), line, frames, b + i, |frames|);
    AggregateTailRun(lim, depth, v, line, x, j, e[..i]);
    DepthAfterPrefix(lim, depth, w, v, k);
    DepthAfterPrefix(lim, depth + 1, e, p.flat[j], i);
    PrefixNeedsMore(lim, depth + 1, e, p.flat[j], i);
    BodyIsUnique(lim, depth + 1, e, p.flat[j], inner);
    OpenPastBody(lim, depth + 1, e, p.flat[j], i);
    MarkerCall(lim, depth + 1, e[..i]);
    UnfinishedElement(lim, OpenAfter(v, j), depth + 1, e[..i]);
  }

  lemma {:induction false} OpenPastBody(lim: Limits, depth: nat, w: bytes, v: Value, k: nat)
    requires IsAggregate(v) && IsFrame(lim, depth, w, v) && BodyOf(lim, depth, w, v) <= k < |w|
    ensures OpenAt(lim, depth, w, v, k) >= 1
  {
  }

  lemma {:induction false} UnfinishedElement(lim: Limits, st: State, depth: nat, buf: bytes)
    requires st.Aggregate() && st.remaining > 0 && RunMarker(lim, depth, buf).result.NeedMore?
    ensures RunElements(lim, st, depth, buf) == RunMarker(lim, depth, buf).(state := st)
  {
    hide RunMarker;
  }

  /**
    * After a proper prefix of a frame the depth is what the parser's state accounts for, exactly unless
    * the cut falls past the header of an aggregate that is itself an element.
    */
  lemma {:induction false} DepthBalancedExactly(lim: Limits, depth: nat, w: bytes, v: Value, k: nat)
    requires IsFrame(lim, depth, w, v) && k < |w|
    ensures var o := Run(lim, WaitingForType, depth, w[..k]);
            o.depth == depth + o.state.Level() <==> !CutsElementAggregate(lim, depth, w, v, k)
  {
    hide IsFrame, IsFrames, ParseI64, Run, CutsElement;
    DepthAfterPrefix(lim, depth, w, v, k);
    if CutsElementAggregate(lim, depth, w, v, k) {
      var body :| AggregateAt(lim, depth, w, PartsOf(v), body) && k >= body &&
                  CutsElement(lim, depth + 1, w[body..], PartsOf(v).flat, k - body);
      CutElementKeepsLevel(lim, depth, w, v, body, k);
    } else if OpenAt(lim, depth, w, v, k) >= 2 {
      var body := BodyOf(lim, depth, w, v);
      OpenInCutsElement(lim, depth + 1, w[body..], PartsOf(v).flat, k - body);
      assert false;
    }
  }

  lemma {:induction false} CutElementKeepsLevel(lim: Limits, depth: nat, w: bytes, v: Value, body: nat, k: nat)
    requires IsAggregate(v) && IsFrame(lim, depth, w, v) && AggregateAt(lim, depth, w, PartsOf(v), body)
    requires body <= k < |w| && CutsElement(lim, depth + 1, w[body..], PartsOf(v).flat, k - body)
    ensures OpenAt(lim, depth, w, v, k) >= 2
  {
    hide IsFrame, IsFrames, ParseI64, OpenAt;
    var j, b, m, inner :| InElementBody(lim, depth + 1, w[body..], PartsOf(v).flat, k - body, j, b, m, inner);
    ElementBodyKeepsLevel(lim, depth, w, v, body, k, j, b, m, inner);
  }

  // ----- Any call -----

  /** `kept` and the first line of `buf` announce a non-empty aggregate within the limits. */
  predicate LineOpens(lim: Limits, depth: nat, kept: bytes, buf: bytes) {
    && FindCrlf(buf).Some?
    && var n := ParseI64(kept + buf[..FindCrlf(buf).value]);
    n.Some? && n.value > 0 && FitsAggregate(lim, depth, n.value)
  }

  /** The open aggregate whose length line has just been completed, and the bytes after the line. */
  function Entering(lim: Limits, k: AggKind, depth: nat, kept: bytes, buf: bytes): (c: Config)
    requires LineOpens(lim, depth, kept, buf)
    ensures c.state.Aggregate() && c.state.remaining > 0 && |c.buf| < |buf|
  {
    var p := FindCrlf(buf).value;
    Config(StartAgg(k, ParseI64(kept + buf[..p]).value), depth + 1, buf[p + 2..])
  }

  /** `buf` begins with the complete header of a non-empty aggregate. */
  predicate OpensAggregate(lim: Limits, depth: nat, buf: bytes) {
    buf != [] && StateFor(buf[0]).Some? && StateFor(buf[0]).value.AggLen? && LineOpens(lim, depth, [], buf[1..])
  }

  ghost predicate HasFrame(lim: Limits, depth: nat, buf: bytes) {
    exists k, v :: 0 <= k <= |buf| && IsFrame(lim, depth, buf[..k], v)
  }

  lemma {:induction false} AggLenBalance(lim: Limits, k: AggKind, kept: bytes, depth: nat, buf: bytes)
    requires Run(lim, AggLen(k, kept), depth, buf).result.NeedMore?
    ensures var o := Run(lim, AggLen(k, kept), depth, buf);
            if LineOpens(lim, depth, kept, buf)
            then var c := Entering(lim, k, depth, kept, buf); o == RunElements(lim, c.state, c.depth, c.buf)
            else Flat(o, depth)
  {
    hide ParseI64, RunElements;
  }

  /** An unfinished call keeps its depth unless it has read the header of a non-empty aggregate. */
  lemma {:induction false} MarkerBalance(lim: Limits, depth: nat, buf: bytes)
    requires depth <= lim.maxDepth && RunMarker(lim, depth, buf).result.NeedMore?
    ensures RunMarker(lim, depth, buf).depth > depth <==> OpensAggregate(lim, depth, buf)
  {
    hide RunMarker, Run, LineOpens, RunElements;
    if buf == [] {
      NothingIsFlat(lim, depth);
    } else if StateFor(buf[0]).Some? && StateFor(buf[0]).value.AggLen? {
      MarkFor(buf[0]);
      MarkerCases(lim, depth, buf);
      var k := StateFor(buf[0]).value.agg;
      AggMarkEnters(buf[0], k);
      AggLenBalance(lim, k, [], depth, buf[1..]);
      if LineOpens(lim, depth, [], buf[1..]) { OpenedHoldsLevel(lim, k, depth, [], buf[1..]); }
    } else {
      ScalarMarkIsFlat(lim, depth, buf);
    }
  }

  lemma {:induction false} AggMarkEnters(b: byte, k: AggKind)
    requires b == AggMark(k)
    ensures b != NULL_MARK && b != BOOL_MARK && StateFor(b) == Some(AggLen(k, []))
  {
  }

  lemma {:induction false} OpenedHoldsLevel(lim: Limits, k: AggKind, depth: nat, kept: bytes, buf: bytes)
    requires depth <= lim.maxDepth && LineOpens(lim, depth, kept, buf)
    requires var c := Entering(lim, k, depth, kept, buf); RunElements(lim, c.state, c.depth, c.buf).result.NeedMore?
    ensures var c := Entering(lim, k, depth, kept, buf); RunElements(lim, c.state, c.depth, c.buf).depth > depth
  {
    hide RunElements, ParseI64;
    var c := Entering(lim, k, depth, kept, buf);
    RunElementsKeeps(lim, c.state, c.depth, c.buf);
    ElementsStayOpen(lim, c.state, c.depth, c.buf);
  }

  /** An aggregate that waits for elements stays the parser's state. */
  lemma {:induction false} ElementsStayOpen(lim: Limits, st: State, depth: nat, buf: bytes)
    requires st.Aggregate() && st.remaining > 0 && RunElements(lim, st, depth, buf).result.NeedMore?
    ensures RunElements(lim, st, depth, buf).state.Aggregate()
    decreases |buf|
  {
    hide RunMarker;
    var o := RunMarker(lim, depth, buf);
    if o.result.Parsed? {
      MarkerShrinks(lim, depth, buf);
      ElementsStayOpen(lim, Absorb(st, o.result.value).state, o.depth, o.buf);
    }
  }

  lemma {:induction false} MarkerShrinks(lim: Limits, depth: nat, buf: bytes)
    requires RunMarker(lim, depth, buf).result.Parsed?
    ensures |RunMarker(lim, depth, buf).buf| < |buf|
  {
  }

  /** An unfinished call on an open aggregate: complete elements, then an unfinished one. */
  lemma {:induction false} ElementsTail(lim: Limits, st: State, depth: nat, buf: bytes) returns (x: bytes, es: seq<Value>, y: bytes)
    requires st.Aggregate() && st.remaining > 0 && RunElements(lim, st, depth, buf).result.NeedMore?
    ensures buf == x + y && IsFrames(lim, depth, x, es) && AbsorbAll(st, es).Pending?
    ensures RunMarker(lim, depth, y).result.NeedMore?
    ensures RunElements(lim, st, depth, buf) == RunMarker(lim, depth, y).(state := AbsorbAll(st, es).state)
    decreases |buf|
  {
    hide RunMarker, IsFrame;
    var o := RunMarker(lim, depth, buf);
    if o.result.NeedMore? {
      x, es, y := [], [], buf;
    } else {
      MarkerSound(lim, depth, buf);
      MarkerShrinks(lim, depth, buf);
      var v, k := o.result.value, Consumed(buf, o);
      var x', es', y' := ElementsTail(lim, Absorb(st, v).state, depth, o.buf);
      x, es, y := buf[..k] + x', [v] + es', y';
      OneFrame(lim, depth, buf[..k], v);
      FramesConcat(lim, depth, buf[..k], [v], x', es');
      assert es[1..] == es';
      assert buf == buf[..k] + o.buf;
    }
  }

  /** After complete elements comes an element that opens an aggregate and does not end. */
  ghost predicate ForgetsAt(lim: Limits, st: State, depth: nat, buf: bytes, x: bytes, es: seq<Value>, y: bytes)
    requires st.Aggregate() && st.remaining > 0
  {
    && buf == x + y && IsFrames(lim, depth, x, es) && AbsorbAll(st, es).Pending?
    && OpensAggregate(lim, depth, y) && !HasFrame(lim, depth, y)
  }

  ghost predicate ForgetsElement(lim: Limits, st: State, depth: nat, buf: bytes)
    requires st.Aggregate() && st.remaining > 0
  {
    exists x, es, y :: ForgetsAt(lim, st, depth, buf, x, es, y)
  }

  lemma {:induction false} UnfinishedHasNoFrame(lim: Limits, depth: nat, y: bytes)
    requires !RunMarker(lim, depth, y).result.Parsed?
    ensures !HasFrame(lim, depth, y)
  {
    hide RunMarker, IsFrame;
    if HasFrame(lim, depth, y) {
      var k, v :| 0 <= k <= |y| && IsFrame(lim, depth, y[..k], v);
      assert y[..k] + y[k..] == y;
      MarkerCall(lim, depth, y);
      FrameParses(lim, depth, y[..k], v, y[k..]);
    }
  }

  lemma {:induction false} ElementsBalance(lim: Limits, st: State, depth: nat, buf: bytes)
    requires st.Aggregate() && st.remaining > 0 && 0 < depth <= lim.maxDepth
    requires RunElements(lim, st, depth, buf).result.NeedMore?
    ensures RunElements(lim, st, depth, buf).depth > depth <==> ForgetsElement(lim, st, depth, buf)
  {
    hide RunElements, RunMarker, IsFrames, HasFrame, OpensAggregate, AbsorbAll;
    if RunElements(lim, st, depth, buf).depth > depth {
      var x, es, y := ElementsTail(lim, st, depth, buf);
      MarkerBalance(lim, depth, y);
      UnfinishedHasNoFrame(lim, depth, y);
      assert ForgetsAt(lim, st, depth, buf, x, es, y);
    }
    if ForgetsElement(lim, st, depth, buf) {
      var x, es, y :| ForgetsAt(lim, st, depth, buf, x, es, y);
      FramesParse(lim, depth, x, es, st, y);
      TailUnfinished(lim, AbsorbAll(st, es).state, depth, y);
      MarkerBalance(lim, depth, y);
    }
  }

  lemma {:induction false} TailUnfinished(lim: Limits, st: State, depth: nat, y: bytes)
    requires st.Aggregate() && st.remaining > 0 && RunElements(lim, st, depth, y).result.NeedMore? && !HasFrame(lim, depth, y)
    ensures RunMarker(lim, depth, y).result.NeedMore? && RunElements(lim, st, depth, y).depth == RunMarker(lim, depth, y).depth
  {
    hide RunMarker, IsFrame;
    var o := RunMarker(lim, depth, y);
    if o.result.Parsed? { MarkerSound(lim, depth, y); }
  }

  /** The aggregate whose elements a call reads: the open one, or one whose header the call completes. */
  function Reads(lim: Limits, st: State, depth: nat, buf: bytes): (r: Option<Config>)
    requires Valid(lim, st, depth)
    ensures r.Some? ==> r.value.state.Aggregate() && r.value.state.remaining > 0
  {
    match st
    case ListData(_, _, _) => Some(Config(st, depth, buf))
    case MapData(_, _, _) => Some(Config(st, depth, buf))
    case AggLen(k, kept) => if LineOpens(lim, depth, kept, buf) then Some(Entering(lim, k, depth, kept, buf)) else None
    case WaitingForType =>
      if OpensAggregate(lim, depth, buf) then Some(Entering(lim, StateFor(buf[0]).value.agg, depth, [], buf[1..])) else None
    case _ => None
  }

  /** The call forgets an aggregate that is an element of the one it reads. */
  ghost predicate Forgets(lim: Limits, st: State, depth: nat, buf: bytes)
    requires Valid(lim, st, depth)
  {
    var r := Reads(lim, st, depth, buf);
    r.Some? && ForgetsElement(lim, r.value.state, r.value.depth, r.value.buf)
  }

  lemma {:induction false} ReadsElements(lim: Limits, st: State, depth: nat, buf: bytes)
    requires Valid(lim, st, depth) && Run(lim, st, depth, buf).result.NeedMore?
    ensures var o, r := Run(lim, st, depth, buf), Reads(lim, st, depth, buf);
            if r.None? then Flat(o, depth) && st.Level() == 0
            else
              && o == RunElements(lim, r.value.state, r.value.depth, r.value.buf)
              && r.value.depth - 1 == depth - st.Level() && 0 < r.value.depth <= lim.maxDepth
  {
    hide RunMarker, RunElements, LineOpens, ParseI64, FindCrlf, OpensAggregate, Entering;
    match st
    case WaitingForType => MarkerReads(lim, depth, buf);
    case AggLen(k, kept) =>
      AggLenBalance(lim, k, kept, depth, buf);
      if LineOpens(lim, depth, kept, buf) { OpeningDepth(lim, k, depth, kept, buf); }
    case ListData(_, _, _) =>
    case MapData(_, _, _) =>
    case Line(_, _) => ScalarRunIsFlat(lim, st, depth, buf);
    case BulkLen(_, _) => ScalarRunIsFlat(lim, st, depth, buf);
    case BulkData(_, _, _) =>
  }

  lemma {:induction false} OpeningDepth(lim: Limits, k: AggKind, depth: nat, kept: bytes, buf: bytes)
    requires LineOpens(lim, depth, kept, buf)
    ensures Entering(lim, k, depth, kept, buf).depth == depth + 1 <= lim.maxDepth
  {
  }

  lemma {:induction false} MarkerReads(lim: Limits, depth: nat, buf: bytes)
    requires depth <= lim.maxDepth && Run(lim, WaitingForType, depth, buf).result.NeedMore?
    ensures var o, r := Run(lim, WaitingForType, depth, buf), Reads(lim, WaitingForType, depth, buf);
            if r.None? then Flat(o, depth)
            else
              && o == RunElements(lim, r.value.state, r.value.depth, r.value.buf)
              && r.value.depth == depth + 1 <= lim.maxDepth
  {
    hide RunMarker, Run, RunElements, LineOpens, Entering;
    MarkerCall(lim, depth, buf);
    if buf == [] {
      NothingIsFlat(lim, depth);
    } else if StateFor(buf[0]).Some? && StateFor(buf[0]).value.AggLen? {
      MarkFor(buf[0]);
      MarkerCases(lim, depth, buf);
      var k := StateFor(buf[0]).value.agg;
      AggMarkEnters(buf[0], k);
      AggLenBalance(lim, k, [], depth, buf[1..]);
      if LineOpens(lim, depth, [], buf[1..]) { OpeningDepth(lim, k, depth, [], buf[1..]); }
    } else {
      ScalarMarkIsFlat(lim, depth, buf);
    }
  }

  /** Levels of depth that the parser's state does not account for. */
  function Slack(c: Config): (n: int) {
    c.depth - c.state.Level()
  }

  /** A call that returns a value keeps the slack; an unfinished one raises it exactly when it forgets an aggregate. */
  lemma {:induction false} CallBalancedExactly(lim: Limits, st: State, depth: nat, buf: bytes)
    requires Valid(lim, st, depth)
    ensures var o, before := Run(lim, st, depth, buf), Slack(Config(st, depth, buf));
            && (o.result.Parsed? ==> Slack(After(o)) == before)
            && (o.result.NeedMore? ==>
                  Slack(After(o)) >= before && (Slack(After(o)) == before <==> !Forgets(lim, st, depth, buf)))
  {
    hide Run, RunElements, ForgetsElement, Reads;
    RunKeeps(lim, st, depth, buf);
    if Run(lim, st, depth, buf).result.NeedMore? {
      ReadsElements(lim, st, depth, buf);
      var r := Reads(lim, st, depth, buf);
      if r.Some? {
        ElementsBalance(lim, r.value.state, r.value.depth, r.value.buf);
        ElementsStayOpen(lim, r.value.state, r.value.depth, r.value.buf);
      }
    }
  }

  // ----- Whole runs -----

  /** No call of the run is answered with an error. */
  predicate Smooth(lim: Limits, c: Config, chunks: seq<bytes>)
    decreases |chunks|
  {
    chunks != [] ==>
      var o := Feed(lim, c, chunks[0]);
      (o.result.NeedMore? || o.result.Parsed?) && Smooth(lim, After(o), chunks[1..])
  }

  /** No unfinished call of the run forgets an aggregate. */
  ghost predicate NeverForgets(lim: Limits, c: Config, chunks: seq<bytes>)
    requires Valid(lim, c.state, c.depth)
    decreases |chunks|
  {
    chunks != [] ==>
      var o := Feed(lim, c, chunks[0]);
      RunKeeps(lim, c.state, c.depth, c.buf + chunks[0]);
      (o.result.NeedMore? ==> !Forgets(lim, c.state, c.depth, c.buf + chunks[0])) &&
      NeverForgets(lim, After(o), chunks[1..])
  }

  lemma {:induction false} SlackOverRun(lim: Limits, c: Config, chunks: seq<bytes>)
    requires Valid(lim, c.state, c.depth) && Smooth(lim, c, chunks)
    ensures var r := AfterCalls(lim, c, chunks);
            Slack(r) >= Slack(c) && (Slack(r) == Slack(c) <==> NeverForgets(lim, c, chunks))
    decreases |chunks|
  {
    hide Run, Forgets;
    if chunks != [] {
      var buf := c.buf + chunks[0];
      RunKeeps(lim, c.state, c.depth, buf);
      CallBalancedExactly(lim, c.state, c.depth, buf);
      SlackOverRun(lim, After(Feed(lim, c, chunks[0])), chunks[1..]);
    }
  }

  /**
    * Over any run of calls without an error on a fresh parser, the depth is what the parser's state
    * accounts for, zero when it is idle, exactly when no call stopped inside an aggregate that is itself
    * an element. A level lost that way is never given back.
    */
  lemma {:induction false} RunBalancedExactly(lim: Limits, chunks: seq<bytes>)
    requires Smooth(lim, FRESH, chunks)
    ensures var c := AfterCalls(lim, FRESH, chunks);
            && c.state.Level() <= c.depth
            && (c.depth == c.state.Level() <==> NeverForgets(lim, FRESH, chunks))
  {
    hide NeverForgets, Smooth, AfterCalls;
    SlackOverRun(lim, FRESH, chunks);
  }
}
