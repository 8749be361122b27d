/** The parser accepts exactly the grammar. */
module RespRefinement {
  import opened Bytes
  import opened Decimal
  import opened RespTypes
  import opened RespParser
  import opened RespGrammar

  // ----- The three kinds of first line -----

  /** A type byte, its line, the terminator, and what follows. */
  function Opened(mark: byte, line: bytes, rest: bytes): (w: bytes) {
    [mark] + line + CRLF + rest
  }

  lemma {:induction false} OpenedLine(mark: byte, line: bytes, rest: bytes)
    requires NoCrlf(line)
    ensures var buf := Opened(mark, line, rest)[1..];
            FindCrlf(buf) == Some(|line|) && buf[..|line|] == line && buf[|line| + 2..] == rest
  {
    FindCrlfAfter(line, rest);
    assert Opened(mark, line, rest)[1..] == line + CRLF + rest;
  }

  lemma {:induction false} RunLine(lim: Limits, depth: nat, k: LineKind, line: bytes, rest: bytes)
    requires NoCrlf(line)
    ensures RunMarker(lim, depth, Opened(LineMark(k), line, rest)) ==
            match LineValue(k, line)
            case None => Outcome(Failed(InvalidLength), Line(k, line), depth, rest)
            case Some(v) => Outcome(Parsed(v), WaitingForType, depth, rest)
  {
    OpenedLine(LineMark(k), line, rest);
    assert [] + line == line;
  }

  lemma {:induction false} RunBulk(lim: Limits, depth: nat, k: BulkKind, line: bytes, rest: bytes)
    requires NoCrlf(line)
    ensures RunMarker(lim, depth, Opened(BulkMark(k), line, rest)) == RunBulkHeader(lim, k, line, depth, rest)
  {
    hide RunBulkHeader, NoCrlf;
    OpenedLine(BulkMark(k), line, rest);
    assert [] + line == line;
  }

  lemma {:induction false} RunAgg(lim: Limits, depth: nat, k: AggKind, line: bytes, rest: bytes)
    requires NoCrlf(line)
    ensures RunMarker(lim, depth, Opened(AggMark(k), line, rest)) == RunAggHeader(lim, k, line, depth, rest)
  {
    hide NoCrlf, ParseI64;
    OpenedLine(AggMark(k), line, rest);
    assert [] + line == line;
  }

  lemma {:induction false} HeaderOpens(w: bytes, mark: byte, n: int, body: int, r: bytes)
    requires Header(w, mark, n, body)
    ensures NoCrlf(w[1..body - 2])
    ensures w + r == Opened(mark, w[1..body - 2], w[body..] + r)
  {
    ParsedHasNoCr(w[1..body - 2]);
  }

  // ----- Lists of elements -----

  datatype Progress = Finished(value: Value) | Pending(state: State) | Overrun

  /** What an open aggregate becomes after taking `es` one by one. */
  function AbsorbAll(st: State, es: seq<Value>): (r: Progress)
    requires st.Aggregate() && st.remaining > 0
    ensures r.Pending? ==> r.state.Aggregate() && r.state.remaining > 0
    decreases |es|
  {
    if es == [] then Pending(st)
    else
      match Absorb(st, es[0])
      case Done(v) => if |es| == 1 then Finished(v) else Overrun
      case More(next) => AbsorbAll(next, es[1..])
  }

  /** Lists close after exactly `remaining` elements and keep their order. */
  lemma {:induction false} ListProgress(k: ListKind, remaining: nat, had: seq<Value>, es: seq<Value>)
    requires remaining > 0
    ensures AbsorbAll(ListData(k, remaining, had), es) ==
            if |es| < remaining then Pending(ListData(k, remaining - |es|, had + es))
            else if |es| == remaining then Finished(ListValue(k, had + es))
            else Overrun
    decreases |es|
  {
    if es == [] {
      assert had + es == had;
    } else {
      assert had + [es[0]] + es[1..] == had + es;
      assert |es| == 1 ==> es == [es[0]];
      if remaining > 1 {
        ListProgress(k, remaining - 1, had + [es[0]], es[1..]);
      }
    }
  }

  /** Maps pair keys with the values that follow them. */
  lemma {:induction false} MapProgress(remaining: nat, had: seq<Pair>, ps: seq<Pair>)
    requires remaining > 0 && |ps| <= remaining
    ensures AbsorbAll(MapData(remaining, had, None), Flatten(ps)) ==
            if |ps| < remaining then Pending(MapData(remaining - |ps|, had + ps, None))
            else Finished(Map(had + ps))
    decreases |ps|
  {
    var flat := Flatten(ps);
    if ps == [] {
      assert had + ps == had;
    } else {
      var p := ps[0];
      assert flat[1..][0] == p.value && flat[1..][1..] == Flatten(ps[1..]);
      assert Pair(p.key, p.value) == p;
      assert had + [p] + ps[1..] == had + ps;
      assert |ps| == 1 ==> ps == [p];
      assert AbsorbAll(MapData(remaining, had, None), flat) == AbsorbAll(MapData(remaining, had, Some(p.key)), flat[1..]);
      if remaining > 1 {
        MapProgress(remaining - 1, had + [p], ps[1..]);
      }
    }
  }

  /** A finished map consumed whole pairs. */
  lemma {:induction false} MapFinished(remaining: nat, had: seq<Pair>, es: seq<Value>) returns (ps: seq<Pair>)
    requires remaining > 0 && AbsorbAll(MapData(remaining, had, None), es).Finished?
    ensures |ps| == remaining && es == Flatten(ps)
    decreases |es|
  {
    var keyed := MapData(remaining, had, Some(es[0]));
    assert AbsorbAll(keyed, es[1..]).Finished?;
    var p := Pair(es[0], es[1]);
    assert es[1..][0] == es[1] && es[1..][1..] == es[2..];
    if remaining == 1 {
      ps := [p];
      assert Flatten(ps[1..]) == [];
      assert es == Flatten(ps);
    } else {
      assert AbsorbAll(keyed, es[1..]) == AbsorbAll(MapData(remaining - 1, had + [p], None), es[2..]);
      var tail := MapFinished(remaining - 1, had + [p], es[2..]);
      ps := [p] + tail;
      assert ps[1..] == tail;
      assert es == [es[0], es[1]] + es[2..];
    }
  }

  // ----- Every frame is accepted -----

  lemma {:induction false} BulkParses(lim: Limits, depth: nat, k: BulkKind, w: bytes, s: bytes, v: Value, r: bytes)
    requires IsBulk(lim, w, BulkMark(k), s)
    requires BulkValue(k, s) == Some(v)
    ensures RunMarker(lim, depth, w + r) == Outcome(Parsed(v), WaitingForType, depth, r)
  {
    hide ParseI64, RunMarker, Opened, NoCrlf;
    var body :| Header(w, BulkMark(k), |s|, body) && w[body..] == s + CRLF;
    HeaderOpens(w, BulkMark(k), |s|, body, r);
    var rest := w[body..] + r;
    RunBulk(lim, depth, k, w[1..body - 2], rest);
    assert rest[..|s|] == s && rest[|s|..|s| + 2] == CRLF && rest[|s| + 2..] == r;
    assert [] + s == s;
    if |s| == 0 { assert rest[..2] == CRLF && s == []; }
  }

  lemma {:induction false} NumberParses(lim: Limits, depth: nat, w: bytes, mark: byte, n: int, r: bytes)
    requires IsNumber(w, mark, n)
    ensures mark == LineMark(IntegerLine) ==>
              RunMarker(lim, depth, w + r) == Outcome(Parsed(Integer(n)), WaitingForType, depth, r)
    ensures forall k: BulkKind :: mark == BulkMark(k) && n == -1 ==>
              RunMarker(lim, depth, w + r) == Outcome(Parsed(NullBulk(k)), WaitingForType, depth, r)
    ensures forall k: AggKind :: mark == AggMark(k) && n == -1 && !k.PushAgg? ==>
              RunMarker(lim, depth, w + r) ==
              Outcome(Parsed(if k.ArrayAgg? then NullArray else Null), WaitingForType, depth, r)
  {
    HeaderOpens(w, mark, n, |w|, r);
    assert w[|w|..] + r == r;
    var line := w[1..|w| - 2];
    if mark == LineMark(IntegerLine) { RunLine(lim, depth, IntegerLine, line, r); }
    forall k: BulkKind | mark == BulkMark(k) && n == -1
      ensures RunMarker(lim, depth, w + r) == Outcome(Parsed(NullBulk(k)), WaitingForType, depth, r)
    {
      RunBulk(lim, depth, k, line, r);
    }
    forall k: AggKind | mark == AggMark(k) && n == -1 && !k.PushAgg?
      ensures RunMarker(lim, depth, w + r) ==
              Outcome(Parsed(if k.ArrayAgg? then NullArray else Null), WaitingForType, depth, r)
    {
      RunAgg(lim, depth, k, line, r);
    }
  }

  lemma {:induction false} LineParses(lim: Limits, depth: nat, k: LineKind, w: bytes, s: bytes, v: Value, r: bytes)
    requires IsLine(w, LineMark(k), s) && LineValue(k, s) == Some(v)
    ensures RunMarker(lim, depth, w + r) == Outcome(Parsed(v), WaitingForType, depth, r)
  {
    assert w + r == Opened(LineMark(k), s, r);
    RunLine(lim, depth, k, s, r);
  }

  /** The kind, announced count and flat element list of an aggregate. */
  datatype Parts = Parts(kind: AggKind, count: nat, flat: seq<Value>)

  predicate IsAggregate(v: Value) {
    v.Array? || v.Map? || v.Set? || v.Push?
  }

  function PartsOf(v: Value): (p: Parts)
    requires IsAggregate(v)
    ensures p.count == 0 <==> p.flat == []
  {
    match v
    case Array(es) => Parts(ArrayAgg, |es|, es)
    case Map(ps) => Parts(MapAgg, |ps|, Flatten(ps))
    case Set(es) => Parts(SetAgg, |es|, es)
    case Push(es) => Parts(PushAgg, |es|, es)
  }

  /** A frame of an aggregate is a header and frames of its flat element list ending at `|w|`. */
  ghost predicate AggregateAt(lim: Limits, depth: nat, w: bytes, p: Parts, body: int) {
    && FitsAggregate(lim, depth, p.count)
    && Header(w, AggMark(p.kind), p.count, body)
    && IsFrames(lim, depth + 1, w[body..], p.flat)
  }

  lemma {:induction false} AggregateFrame(lim: Limits, depth: nat, w: bytes, v: Value) returns (body: int)
    requires IsAggregate(v) && IsFrame(lim, depth, w, v)
    ensures AggregateAt(lim, depth, w, PartsOf(v), body)
  {
    var p := PartsOf(v);
    if v.Map? {
      body :| Header(w, AggMark(p.kind), p.count, body) && IsPairs(lim, depth + 1, w[body..], v.pairs);
      PairsAreFrames(lim, depth + 1, w[body..], v.pairs);
    } else {
      body :| Header(w, AggMark(p.kind), p.count, body) && IsFrames(lim, depth + 1, w[body..], p.flat);
    }
  }

  lemma {:induction false} AggregateFrameJoin(lim: Limits, depth: nat, w: bytes, v: Value, body: int)
    requires IsAggregate(v) && AggregateAt(lim, depth, w, PartsOf(v), body)
    ensures IsFrame(lim, depth, w, v)
  {
    if v.Map? {
      PairsAreFrames(lim, depth + 1, w[body..], v.pairs);
    }
  }

  /** The open aggregate of a header turns into `v` exactly on the flat element list of `v`. */
  lemma {:induction false} AggregateProgress(v: Value)
    requires IsAggregate(v) && PartsOf(v).count > 0
    ensures AbsorbAll(StartAgg(PartsOf(v).kind, PartsOf(v).count), PartsOf(v).flat) == Finished(v)
  {
    hide Flatten, Absorb;
    match v
    case Array(es) => ListProgress(ArrayList, |es|, [], es); assert [] + es == es;
    case Set(es) => ListProgress(SetList, |es|, [], es); assert [] + es == es;
    case Push(es) => ListProgress(PushList, |es|, [], es); assert [] + es == es;
    case Map(ps) => MapProgress(|ps|, [], ps); assert [] + ps == ps;
  }

  lemma {:induction false} AggregateFinished(k: AggKind, n: nat, es: seq<Value>, v: Value)
    requires n > 0 && AbsorbAll(StartAgg(k, n), es) == Finished(v)
    ensures IsAggregate(v) && PartsOf(v) == Parts(k, n, es)
  {
    match k
    case ArrayAgg => ListProgress(ArrayList, n, [], es); assert [] + es == es;
    case SetAgg => ListProgress(SetList, n, [], es); assert [] + es == es;
    case PushAgg => ListProgress(PushList, n, [], es); assert [] + es == es;
    case MapAgg =>
      var ps := MapFinished(n, [], es);
      MapProgress(n, [], ps);
      assert [] + ps == ps;
  }

  lemma {:induction false} BulkValues()
    ensures forall s :: BulkValue(StringBulk, s) == Some(BulkString(Some(s))) && BulkValue(ErrorBulk, s) == Some(BulkError(s))
  {
  }

  lemma {:induction false} VerbatimParts(f: format, d: bytes)
    ensures BulkValue(VerbatimBulk, f + [':' as byte] + d) == Some(VerbatimString(f, d))
  {
    var s := f + [':' as byte] + d;
    assert s[..3] == f && s[4..] == d;
  }

  /** A complete frame followed by any bytes parses to its value and leaves those bytes. */
  lemma {:induction false} FrameParses(lim: Limits, depth: nat, w: bytes, v: Value, r: bytes)
    requires IsFrame(lim, depth, w, v)
    ensures Run(lim, WaitingForType, depth, w + r) == Outcome(Parsed(v), WaitingForType, depth, r)
    decreases |w|, 1
  {
    hide RunMarker, ParseI64, IsList, IsPairs, NoCrlf;
    match v
    case SimpleString(s) => LineParses(lim, depth, SimpleLine, w, s, v, r);
    case Error(s) => LineParses(lim, depth, ErrorLine, w, s, v, r);
    case BigNumber(s) => LineParses(lim, depth, BigNumberLine, w, s, v, r);
    case Integer(i) => NumberParses(lim, depth, w, ':' as byte, i, r);
    case BulkString(None) => NumberParses(lim, depth, w, BulkMark(StringBulk), -1, r);
    case BulkString(Some(s)) => BulkParses(lim, depth, StringBulk, w, s, v, r);
    case BulkError(s) => BulkParses(lim, depth, ErrorBulk, w, s, v, r);
    case VerbatimString(f, d) =>
      VerbatimParts(f, d);
      BulkParses(lim, depth, VerbatimBulk, w, f + [':' as byte] + d, v, r);
    case Boolean(b) => BooleanParses(lim, depth, w, b, r);
    case Null => NullParses(lim, depth, w, r);
    case NullArray => NumberParses(lim, depth, w, AggMark(ArrayAgg), -1, r);
    case Array(_) => AggregateParses(lim, depth, w, v, r);
    case Map(_) => AggregateParses(lim, depth, w, v, r);
    case Set(_) => AggregateParses(lim, depth, w, v, r);
    case Push(_) => AggregateParses(lim, depth, w, v, r);
  }

  lemma {:induction false} BooleanParses(lim: Limits, depth: nat, w: bytes, b: bool, r: bytes)
    requires IsFrame(lim, depth, w, Boolean(b))
    ensures RunMarker(lim, depth, w + r) == Outcome(Parsed(Boolean(b)), WaitingForType, depth, r)
  {
    var rest := (w + r)[1..];
    assert rest[1..3] == w[2..] && rest[3..] == r;
  }

  lemma {:induction false} NullParses(lim: Limits, depth: nat, w: bytes, r: bytes)
    requires IsFrame(lim, depth, w, Null)
    ensures RunMarker(lim, depth, w + r) == Outcome(Parsed(Null), WaitingForType, depth, r)
  {
    if w == ['_' as byte] + CRLF {
      var rest := (w + r)[1..];
      assert rest[..2] == CRLF && rest[2..] == r;
    } else {
      NumberParses(lim, depth, w, w[0], -1, r);
      assert w[0] == BulkMark(ErrorBulk) || w[0] == BulkMark(VerbatimBulk) || w[0] == AggMark(MapAgg) || w[0] == AggMark(SetAgg);
    }
  }

  lemma {:induction false} AggregateParses(lim: Limits, depth: nat, w: bytes, v: Value, r: bytes)
    requires IsAggregate(v) && IsFrame(lim, depth, w, v)
    ensures RunMarker(lim, depth, w + r) == Outcome(Parsed(v), WaitingForType, depth, r)
    decreases |w|, 0
  {
    hide Run, RunMarker, IsFrame, RunElements, AbsorbAll, Absorb, ParseI64, FindCrlf, NoCrlf;
    var body := AggregateFrame(lim, depth, w, v);
    var p := PartsOf(v);
    HeaderOpens(w, AggMark(p.kind), p.count, body, r);
    RunAgg(lim, depth, p.kind, w[1..body - 2], w[body..] + r);
    if p.count == 0 {
      assert w[body..] == [] && w[body..] + r == r;
    } else {
      AggregateProgress(v);
      FramesParse(lim, depth + 1, w[body..], p.flat, StartAgg(p.kind, p.count), r);
    }
  }

  /** An open aggregate takes a list of complete frames one by one. */
  lemma {:induction false} FramesParse(lim: Limits, depth: nat, w: bytes, es: seq<Value>, st: State, r: bytes)
    requires st.Aggregate() && st.remaining > 0 && depth > 0
    requires IsFrames(lim, depth, w, es)
    ensures match AbsorbAll(st, es)
            case Pending(next) => RunElements(lim, st, depth, w + r) == RunElements(lim, next, depth, r)
            case Finished(v) => RunElements(lim, st, depth, w + r) == Outcome(Parsed(v), WaitingForType, depth - 1, r)
            case Overrun => true
    decreases |w|, 2, |es|
  {
    hide IsFrame, RunMarker;
    if es == [] {
      assert w + r == r;
    } else {
      var k := FramesCut(lim, depth, w, es);
      assert w + r == w[..k] + (w[k..] + r);
      FrameParses(lim, depth, w[..k], es[0], w[k..] + r);
      match Absorb(st, es[0])
      case More(next) => FramesParse(lim, depth, w[k..], es[1..], next, r);
      case Done(v) => if |es| == 1 { assert w[k..] + r == r; }
    }
  }

  // ----- Everything accepted is a frame -----

  /** How many bytes a call consumed. */
  function Consumed(buf: bytes, o: Outcome): (n: nat)
    requires |o.buf| <= |buf|
  {
    |buf| - |o.buf|
  }

  /** `o` parsed a frame off the front of `buf` and left the rest. */
  ghost predicate TookFrame(lim: Limits, depth: nat, buf: bytes, o: Outcome)
    requires |o.buf| <= |buf|
  {
    && o.result.Parsed?
    && o.buf == buf[Consumed(buf, o)..]
    && IsFrame(lim, depth, buf[..Consumed(buf, o)], o.result.value)
    && o.state == WaitingForType && o.depth == depth
  }

  /** A buffer whose tail after the type byte has a terminator splits at its first line. */
  lemma {:induction false} FirstLine(buf: bytes)
    requires buf != [] && FindCrlf(buf[1..]).Some?
    ensures var p := FindCrlf(buf[1..]).value;
            var line, rest := buf[1..][..p], buf[1..][p + 2..];
            && NoCrlf(line) && buf == Opened(buf[0], line, rest)
            && line == buf[1..p + 1] && rest == buf[p + 3..] && buf[p + 1..p + 3] == CRLF
  {
    var t := buf[1..];
    var p := FindCrlf(t).value;
    forall i | 0 <= i < p ensures !CrlfAt(t[..p], i) { assert !CrlfAt(t, i); }
    assert CrlfAt(t, p);
    assert t[p..p + 2] == CRLF;
  }

  /** A parsed length line is the header of every prefix that contains it. */
  lemma {:induction false} HeaderOf(buf: bytes, p: nat, n: int, len: nat)
    requires p + 3 <= len <= |buf| && buf[p + 1..p + 3] == CRLF && ParseI64(buf[1..p + 1]) == Some(n)
    ensures Header(buf[..len], buf[0], n, p + 3)
  {
    var w := buf[..len];
    assert w[1..p + 1] == buf[1..p + 1] && w[p + 1..p + 3] == buf[p + 1..p + 3];
  }

  lemma {:induction false} LineSound(lim: Limits, depth: nat, buf: bytes, k: LineKind)
    requires buf != [] && buf[0] == LineMark(k)
    requires RunMarker(lim, depth, buf).result.Parsed?
    ensures TookFrame(lim, depth, buf, RunMarker(lim, depth, buf))
  {
    MarkerFindsLine(lim, depth, buf);
    FirstLine(buf);
    var p := FindCrlf(buf[1..]).value;
    RunLine(lim, depth, k, buf[1..][..p], buf[1..][p + 2..]);
    LineFrameOf(lim, depth, buf, k, p);
  }

  /** Nothing but a null or a boolean is parsed from a buffer without a terminator. */
  lemma {:induction false} MarkerFindsLine(lim: Limits, depth: nat, buf: bytes)
    requires buf != [] && StateFor(buf[0]).Some? && RunMarker(lim, depth, buf).result.Parsed?
    ensures FindCrlf(buf[1..]).Some?
  {
  }

  lemma {:induction false} LineFrameOf(lim: Limits, depth: nat, buf: bytes, k: LineKind, p: nat)
    requires p + 3 <= |buf| && buf[0] == LineMark(k) && buf[p + 1..p + 3] == CRLF && NoCrlf(buf[1..p + 1])
    requires LineValue(k, buf[1..p + 1]).Some?
    ensures IsFrame(lim, depth, buf[..p + 3], LineValue(k, buf[1..p + 1]).value)
  {
    var line := buf[1..p + 1];
    if k.IntegerLine? {
      HeaderOf(buf, p, ParseI64(line).value, p + 3);
    } else {
      assert buf[..p + 3] == [buf[0]] + line + CRLF;
    }
  }

  lemma {:induction false} MarkFor(b: byte)
    requires StateFor(b).Some?
    ensures match StateFor(b).value
            case Line(k, s) => b == LineMark(k) && s == []
            case BulkLen(k, s) => b == BulkMark(k) && s == []
            case AggLen(k, s) => b == AggMark(k) && s == []
            case _ => false
  {
  }

  lemma {:induction false} BulkSound(lim: Limits, depth: nat, buf: bytes, k: BulkKind)
    requires buf != [] && buf[0] == BulkMark(k)
    requires RunMarker(lim, depth, buf).result.Parsed?
    ensures TookFrame(lim, depth, buf, RunMarker(lim, depth, buf))
  {
    hide RunBulkHeader, NoCrlf, Opened;
    FirstLine(buf);
    var p := FindCrlf(buf[1..]).value;
    RunBulk(lim, depth, k, buf[1..][..p], buf[1..][p + 2..]);
    BulkTook(lim, depth, buf, k, p);
  }

  lemma {:induction false} BulkTook(lim: Limits, depth: nat, buf: bytes, k: BulkKind, p: nat)
    requires p + 3 <= |buf| && buf[0] == BulkMark(k) && buf[p + 1..p + 3] == CRLF
    requires RunBulkHeader(lim, k, buf[1..p + 1], depth, buf[p + 3..]).result.Parsed?
    ensures TookFrame(lim, depth, buf, RunBulkHeader(lim, k, buf[1..p + 1], depth, buf[p + 3..]))
  {
    hide RunBulkHeader, IsBulk, ParseI64, BulkValue;
    var line, rest := buf[1..p + 1], buf[p + 3..];
    BulkHeaderSound(lim, k, line, depth, rest);
    var n := ParseI64(line).value;
    if n == -1 {
      HeaderOf(buf, p, n, p + 3);
    } else {
      BulkFrameOf(lim, depth, buf, k, p, n);
      assert rest[n + 2..] == buf[p + 3 + n + 2..];
    }
  }

  lemma {:induction false} BulkHeaderSound(lim: Limits, k: BulkKind, line: bytes, depth: nat, rest: bytes)
    requires RunBulkHeader(lim, k, line, depth, rest).result.Parsed?
    ensures var o := RunBulkHeader(lim, k, line, depth, rest);
            && ParseI64(line).Some? && o.state == WaitingForType && o.depth == depth
            && var n := ParseI64(line).value;
            if n == -1 then o.result.value == NullBulk(k) && o.buf == rest
            else
              && 0 <= n <= lim.maxBulk && n + 2 <= |rest| && rest[n..n + 2] == CRLF
              && BulkValue(k, rest[..n]) == Some(o.result.value) && o.buf == rest[n + 2..]
  {
    hide ParseI64;
    if ParseI64(line).value >= 0 {
      var n := ParseI64(line).value;
      assert |rest| >= n ==> [] + rest[..n] == rest[..n];
      assert n == 0 ==> rest[..n] == [];
    }
  }

  lemma {:induction false} BulkFrameOf(lim: Limits, depth: nat, buf: bytes, k: BulkKind, p: nat, n: nat)
    requires p + 3 + n + 2 <= |buf| && buf[0] == BulkMark(k) && n <= lim.maxBulk
    requires buf[p + 1..p + 3] == CRLF && ParseI64(buf[1..p + 1]) == Some(n)
    requires buf[p + 3..][n..n + 2] == CRLF && BulkValue(k, buf[p + 3..][..n]).Some?
    ensures IsFrame(lim, depth, buf[..p + 3 + n + 2], BulkValue(k, buf[p + 3..][..n]).value)
  {
    hide ParseI64;
    var s := buf[p + 3..][..n];
    var w := buf[..p + 3 + n + 2];
    HeaderOf(buf, p, n, |w|);
    assert w[p + 3..] == s + CRLF by { assert w[p + 3 + n..] == buf[p + 3..][n..n + 2]; }
    assert IsBulk(lim, w, BulkMark(k), s);
    if k.VerbatimBulk? { assert s == s[..3] + [':' as byte] + s[4..]; }
  }

  /** What one call parses from a fresh type byte is a frame of the grammar. */
  lemma {:induction false} MarkerSound(lim: Limits, depth: nat, buf: bytes)
    requires RunMarker(lim, depth, buf).result.Parsed?
    ensures TookFrame(lim, depth, buf, RunMarker(lim, depth, buf))
    decreases |buf|, 1
  {
    if buf[0] == NULL_MARK {
      assert buf[..3] == [NULL_MARK] + CRLF by { assert buf[1..][..2] == buf[1..3]; }
      assert buf[1..][2..] == buf[3..];
    } else if buf[0] == BOOL_MARK {
      assert buf[1..][1..3] == buf[..4][2..] && buf[1..][3..] == buf[4..];
    } else {
      MarkFor(buf[0]);
      match StateFor(buf[0]).value
      case Line(k, _) => LineSound(lim, depth, buf, k);
      case BulkLen(k, _) => BulkSound(lim, depth, buf, k);
      case AggLen(k, _) => AggSound(lim, depth, buf, k);
    }
  }

  lemma {:induction false} AggSound(lim: Limits, depth: nat, buf: bytes, k: AggKind)
    requires buf != [] && buf[0] == AggMark(k)
    requires RunMarker(lim, depth, buf).result.Parsed?
    ensures TookFrame(lim, depth, buf, RunMarker(lim, depth, buf))
    decreases |buf|, 0
  {
    hide RunAggHeader, NoCrlf, Opened;
    FirstLine(buf);
    var p := FindCrlf(buf[1..]).value;
    RunAgg(lim, depth, k, buf[1..][..p], buf[1..][p + 2..]);
    AggTook(lim, depth, buf, k, p);
  }

  lemma {:induction false} AggTook(lim: Limits, depth: nat, buf: bytes, k: AggKind, p: nat)
    requires p + 3 <= |buf| && buf[0] == AggMark(k) && buf[p + 1..p + 3] == CRLF
    requires RunAggHeader(lim, k, buf[1..p + 1], depth, buf[p + 3..]).result.Parsed?
    ensures TookFrame(lim, depth, buf, RunAggHeader(lim, k, buf[1..p + 1], depth, buf[p + 3..]))
    decreases |buf| - 1, 4
  {
    hide Run, RunMarker, RunElements, ParseI64;
    var line, rest := buf[1..p + 1], buf[p + 3..];
    var o := RunAggHeader(lim, k, line, depth, rest);
    var n := ParseI64(line).value;
    if n <= 0 {
      HeaderOf(buf, p, n, p + 3);
      if n == 0 { EmptyAggFrame(lim, depth, buf[..p + 3], k); }
    } else {
      AggElementsTook(lim, depth, buf, k, p, n);
    }
  }

  lemma {:induction false} EmptyAggFrame(lim: Limits, depth: nat, w: bytes, k: AggKind)
    requires Header(w, AggMark(k), 0, |w|)
    ensures IsFrame(lim, depth, w, EmptyAgg(k))
  {
    assert w[|w|..] == [];
    AggregateFrameJoin(lim, depth, w, EmptyAgg(k), |w|);
  }

  lemma {:induction false} AggElementsTook(lim: Limits, depth: nat, buf: bytes, k: AggKind, p: nat, n: nat)
    requires p + 3 <= |buf| && buf[0] == AggMark(k) && buf[p + 1..p + 3] == CRLF
    requires n > 0 && ParseI64(buf[1..p + 1]) == Some(n) && FitsAggregate(lim, depth, n)
    requires RunElements(lim, StartAgg(k, n), depth + 1, buf[p + 3..]).result.Parsed?
    ensures TookFrame(lim, depth, buf, RunElements(lim, StartAgg(k, n), depth + 1, buf[p + 3..]))
    decreases |buf| - 1, 3
  {
    hide Run, RunMarker, RunElements, IsFrame, IsFrames, ParseI64, AbsorbAll, Absorb;
    var rest := buf[p + 3..];
    var o := RunElements(lim, StartAgg(k, n), depth + 1, rest);
    var es := ElementsSound(lim, StartAgg(k, n), depth + 1, rest);
    AggregateFinished(k, n, es, o.result.value);
    var m := Consumed(buf, o);
    HeaderOf(buf, p, n, m);
    assert buf[..m][p + 3..] == rest[..Consumed(rest, o)];
    AggregateFrameJoin(lim, depth, buf[..m], o.result.value, p + 3);
  }

  lemma {:induction false} ElementsSound(lim: Limits, st: State, depth: nat, buf: bytes) returns (es: seq<Value>)
    requires st.Aggregate() && st.remaining > 0
    requires RunElements(lim, st, depth, buf).result.Parsed?
    ensures var o := RunElements(lim, st, depth, buf);
            && o.buf == buf[Consumed(buf, o)..]
            && IsFrames(lim, depth, buf[..Consumed(buf, o)], es)
            && AbsorbAll(st, es) == Finished(o.result.value)
            && o.state == WaitingForType && o.depth + 1 == depth
    decreases |buf|, 2
  {
    hide Run, RunMarker, IsFrame, IsFrames;
    var o := RunElements(lim, st, depth, buf);
    MarkerSound(lim, depth, buf);
    var first := RunMarker(lim, depth, buf);
    var v := first.result.value;
    var k, m := Consumed(buf, first), Consumed(buf, o);
    match Absorb(st, v)
    case Done(_) =>
      es := [v];
      OneFrame(lim, depth, buf[..k], v);
    case More(next) =>
      var tail := ElementsSound(lim, next, depth, first.buf);
      es := [v] + tail;
      var w := buf[..m];
      assert w[..k] == buf[..k] && w[k..] == first.buf[..m - k] && es[1..] == tail;
      FramesJoin(lim, depth, w, es, k);
  }

  /**
    * The state machine refines the grammar: a fresh parser answers `v` and leaves `r` exactly when the
    * buffer is a frame of `v` followed by `r`.
    */
  lemma {:induction false} ParserAcceptsGrammar(lim: Limits, depth: nat, buf: bytes, v: Value, r: bytes)
    ensures var o := Run(lim, WaitingForType, depth, buf);
            && (o.result == Parsed(v) && o.buf == r <==> exists w :: IsFrame(lim, depth, w, v) && buf == w + r)
            && (o.result.Parsed? ==> o.state == WaitingForType && o.depth == depth)
  {
    var o := Run(lim, WaitingForType, depth, buf);
    if o.result.Parsed? {
      MarkerSound(lim, depth, buf);
      var w := buf[..Consumed(buf, o)];
      assert IsFrame(lim, depth, w, o.result.value) && buf == w + o.buf;
    }
    if exists w :: IsFrame(lim, depth, w, v) && buf == w + r {
      var w :| IsFrame(lim, depth, w, v) && buf == w + r;
      FrameParses(lim, depth, w, v, r);
    }
  }

  // ----- A frame that is not complete yet -----

  /** A prefix of `x + y`, as a prefix of `x` or as `x` and a prefix of `y`. */
  lemma {:induction false} PrefixOfConcat(x: bytes, y: bytes, k: nat)
    requires k <= |x| + |y|
    ensures k <= |x| ==> (x + y)[..k] == x[..k]
    ensures k >= |x| ==> (x + y)[..k] == x + y[..k - |x|]
  {
  }

  /** Inside the first line of a frame the parser only collects bytes. */
  lemma {:induction false} LinePrefix(lim: Limits, depth: nat, mark: byte, line: bytes, rest: bytes, k: nat)
    requires NoCrlf(line) && 1 <= k < |line| + 3 && StateFor(mark).Some?
    ensures var buf := Opened(mark, line, rest)[..k];
            RunMarker(lim, depth, buf) == Run(lim, StateFor(mark).value, depth, buf[1..]) && NoCrlf(buf[1..])
    ensures RunMarker(lim, depth, Opened(mark, line, rest)[..k]).result.NeedMore?
  {
    var buf := Opened(mark, line, rest)[..k];
    var t := buf[1..];
    forall i | 0 <= i < |t| ensures !CrlfAt(t, i) {
      if i < |line| { assert !CrlfAt(line, i); }
    }
    assert FindCrlf(t) == None;
  }

  lemma {:induction false} BulkPrefix(lim: Limits, depth: nat, bk: BulkKind, w: bytes, s: bytes, k: nat)
    requires IsBulk(lim, w, BulkMark(bk), s) && BulkValue(bk, s).Some? && k < |w|
    ensures RunMarker(lim, depth, w[..k]).result.NeedMore?
  {
    var body :| Header(w, BulkMark(bk), |s|, body) && w[body..] == s + CRLF;
    HeaderOpens(w, BulkMark(bk), |s|, body, []);
    assert w + [] == w && w[body..] + [] == w[body..];
    var line := w[1..body - 2];
    if 1 <= k < body {
      LinePrefix(lim, depth, BulkMark(bk), line, w[body..], k);
    } else if k >= body {
      var rest := w[body..k];
      assert w[..k] == Opened(BulkMark(bk), line, rest);
      RunBulk(lim, depth, bk, line, rest);
    }
  }

  lemma {:induction false} NumberPrefix(lim: Limits, depth: nat, w: bytes, mark: byte, n: int, k: nat)
    requires IsNumber(w, mark, n) && StateFor(mark).Some? && k < |w|
    ensures RunMarker(lim, depth, w[..k]).result.NeedMore?
  {
    HeaderOpens(w, mark, n, |w|, []);
    assert w + [] == w;
    if k >= 1 { LinePrefix(lim, depth, mark, w[1..|w| - 2], w[|w|..] + [], k); }
  }

  lemma {:induction false} TextPrefix(lim: Limits, depth: nat, w: bytes, mark: byte, s: bytes, k: nat)
    requires IsLine(w, mark, s) && StateFor(mark).Some? && k < |w|
    ensures RunMarker(lim, depth, w[..k]).result.NeedMore?
  {
    assert w == Opened(mark, s, []);
    if k >= 1 { LinePrefix(lim, depth, mark, s, [], k); }
  }

  lemma {:induction false} MarkPrefix(lim: Limits, depth: nat, w: bytes, k: nat)
    requires k < |w| && ((w[0] == NULL_MARK && |w| == 3) || (w[0] == BOOL_MARK && |w| == 4))
    ensures RunMarker(lim, depth, w[..k]).result.NeedMore?
  {
    hide Run;
  }

  lemma {:induction false} NullPrefix(lim: Limits, depth: nat, w: bytes, k: nat)
    requires IsFrame(lim, depth, w, Null) && k < |w|
    ensures RunMarker(lim, depth, w[..k]).result.NeedMore?
  {
    hide RunMarker, ParseI64, NoCrlf;
    if w[0] != NULL_MARK { NumberPrefix(lim, depth, w, w[0], -1, k); } else { MarkPrefix(lim, depth, w, k); }
  }

  /** A proper prefix of a frame asks for more data; it is never an error. */
  lemma {:induction false} PrefixNeedsMore(lim: Limits, depth: nat, w: bytes, v: Value, k: nat)
    requires IsFrame(lim, depth, w, v) && k < |w|
    ensures Run(lim, WaitingForType, depth, w[..k]).result.NeedMore?
    decreases |w|, 1
  {
    hide RunMarker, ParseI64, IsList, IsPairs, NoCrlf, BulkValue;
    BulkValues();
    match v
    case SimpleString(s) => TextPrefix(lim, depth, w, '+' as byte, s, k);
    case Error(s) => TextPrefix(lim, depth, w, '-' as byte, s, k);
    case BigNumber(s) => TextPrefix(lim, depth, w, '(' as byte, s, k);
    case Integer(i) => NumberPrefix(lim, depth, w, ':' as byte, i, k);
    case BulkString(None) => NumberPrefix(lim, depth, w, '$' as byte, -1, k);
    case BulkString(Some(s)) => BulkPrefix(lim, depth, StringBulk, w, s, k);
    case BulkError(s) => BulkPrefix(lim, depth, ErrorBulk, w, s, k);
    case VerbatimString(f, d) => VerbatimParts(f, d); BulkPrefix(lim, depth, VerbatimBulk, w, f + [':' as byte] + d, k);
    case Boolean(b) => MarkPrefix(lim, depth, w, k);
    case Null => NullPrefix(lim, depth, w, k);
    case NullArray => NumberPrefix(lim, depth, w, '*' as byte, -1, k);
    case Array(_) => AggregatePrefix(lim, depth, w, v, k);
    case Map(_) => AggregatePrefix(lim, depth, w, v, k);
    case Set(_) => AggregatePrefix(lim, depth, w, v, k);
    case Push(_) => AggregatePrefix(lim, depth, w, v, k);
  }

  lemma {:induction false} NothingNeedsMore(lim: Limits, depth: nat)
    ensures RunMarker(lim, depth, []).result.NeedMore?
  {
  }

  lemma {:induction false} AggregatePrefix(lim: Limits, depth: nat, w: bytes, v: Value, k: nat)
    requires IsAggregate(v) && IsFrame(lim, depth, w, v) && k < |w|
    ensures RunMarker(lim, depth, w[..k]).result.NeedMore?
    decreases |w|, 0
  {
    hide Run, RunMarker, RunAggHeader, IsFrame, IsFrames, ParseI64, NoCrlf;
    var body := AggregateFrame(lim, depth, w, v);
    var p := PartsOf(v);
    HeaderOpens(w, AggMark(p.kind), p.count, body, []);
    assert w + [] == w && w[body..] + [] == w[body..];
    var line := w[1..body - 2];
    if 1 <= k < body {
      LinePrefix(lim, depth, AggMark(p.kind), line, w[body..], k);
    } else if k >= body {
      var rest := w[body..];
      assert w[..k] == Opened(AggMark(p.kind), line, rest[..k - body]);
      RunAgg(lim, depth, p.kind, line, rest[..k - body]);
      AggregateBodyPrefix(lim, depth, v, line, rest, k - body);
    } else {
      NothingNeedsMore(lim, depth);
      assert w[..k] == [];
    }
  }

  lemma {:induction false} AggregateBodyPrefix(lim: Limits, depth: nat, v: Value, line: bytes, rest: bytes, k: nat)
    requires IsAggregate(v) && ParseI64(line) == Some(PartsOf(v).count) && FitsAggregate(lim, depth, PartsOf(v).count)
    requires IsFrames(lim, depth + 1, rest, PartsOf(v).flat) && k < |rest|
    ensures RunAggHeader(lim, PartsOf(v).kind, line, depth, rest[..k]).result.NeedMore?
    decreases |rest|, 3
  {
    var p := PartsOf(v);
    assert p.count > 0;
    AggregateProgress(v);
    FramesPrefix(lim, depth + 1, rest, p.flat, StartAgg(p.kind, p.count), k);
  }

  lemma {:induction false} FramesPrefix(lim: Limits, depth: nat, w: bytes, es: seq<Value>, st: State, k: nat)
    requires st.Aggregate() && st.remaining > 0 && depth > 0
    requires IsFrames(lim, depth, w, es) && AbsorbAll(st, es).Finished? && k < |w|
    ensures RunElements(lim, st, depth, w[..k]).result.NeedMore?
    decreases |w|, 2, |es|
  {
    var j := FramesCut(lim, depth, w, es);
    var x, y := w[..j], w[j..];
    assert w == x + y;
    PrefixOfConcat(x, y, k);
    if k < j {
      PrefixNeedsMore(lim, depth, x, es[0], k);
    } else {
      FrameParses(lim, depth, x, es[0], y[..k - j]);
      assert |es| > 1;
      FramesPrefix(lim, depth, y, es[1..], Absorb(st, es[0]).state, k - j);
    }
  }
}
