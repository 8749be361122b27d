/**
  * Many cuts of one frame: exactly which ways of cutting it leave the answer unchanged. After a cut that
  * is not clean the parser is doomed, however the rest arrives.
  */
module RespChunks {
  import opened Bytes
  import opened Decimal
  import opened RespTypes
  import opened RespParser
  import opened RespGrammar
  import opened RespRefinement
  import opened RespStreaming
  import opened RespCuts
  import opened RespDepth
  import opened RespInfix

  // ----- Doomed parsers -----

  /** The answer that one buffer would have got. */
  function Target(v: Value, depth: nat, r: bytes): (o: Outcome) {
    Outcome(Parsed(v), WaitingForType, depth, r)
  }

  lemma {:induction false} ConcatTail(chunks: seq<bytes>)
    requires chunks != []
    ensures |Concat(chunks)| == |chunks[0]| + |Concat(chunks[1..])|
  {
  }

  /** A CR kept in a length line or a text is there for good. */
  lemma {:induction false} CollectsOn(lim: Limits, depth: nat, mark: byte, seen: bytes, more: bytes)
    requires StateFor(mark).Some? && CR in seen && Run(lim, Collecting(mark, seen), depth, more).result.NeedMore?
    ensures After(Run(lim, Collecting(mark, seen), depth, more)) == Config(Collecting(mark, seen + more), depth, [])
  {
    hide LineValue, ParseI64;
    MarkFor(mark);
    if FindCrlf(more).Some? {
      var line := seen + more[..FindCrlf(more).value];
      assert CR in line;
      if ParseI64(line).Some? { ParsedHasNoCr(line); }
    }
  }

  lemma {:induction false} LineDoomed(lim: Limits, depth: nat, mark: byte, seen: bytes, chunks: seq<bytes>, v: Value, d: nat, r: bytes)
    requires StateFor(mark).Some? && CR in seen && chunks != [] && (IsText(v) ==> |seen| > |v.text|)
    ensures !StreamsTo(lim, Config(Collecting(mark, seen), depth, []), chunks, Target(v, d, r))
    decreases |chunks|
  {
    hide Run, Collecting;
    var more := chunks[0];
    assert [] + more == more;
    SplitLineCall(lim, depth, mark, seen, more);
    if |chunks| > 1 && Run(lim, Collecting(mark, seen), depth, more).result.NeedMore? {
      CollectsOn(lim, depth, mark, seen, more);
      assert CR in seen + more;
      LineDoomed(lim, depth, mark, seen + more, chunks[1..], v, d, r);
    }
  }

  lemma {:induction false} PoisonDoomed(lim: Limits, depth: nat, bk: BulkKind, len: nat, data: bytes, chunks: seq<bytes>, v: Value, d: nat, r: bytes)
    requires chunks != [] && |data| == len + 1
    ensures !StreamsTo(lim, Config(BulkData(bk, len, data), depth, []), chunks, Target(v, d, r))
    decreases |chunks|
  {
    hide Run;
    var more := chunks[0];
    assert [] + more == more;
    BulkDataCall(lim, bk, len, data, depth, more);
    if |chunks| > 1 && more == [] {
      assert data + more == data;
      PoisonDoomed(lim, depth, bk, len, data, chunks[1..], v, d, r);
    }
  }

  /** A null without its type byte: the CR is no type byte. */
  lemma {:induction false} NullDoomed(lim: Limits, depth: nat, b: bytes, chunks: seq<bytes>, v: Value, d: nat, r: bytes)
    requires chunks != [] && b + Concat(chunks) != [] && (b + Concat(chunks))[0] == CR
    ensures !StreamsTo(lim, Config(WaitingForType, depth, b), chunks, Target(v, d, r))
    decreases |chunks|
  {
    hide Run, RunMarker;
    var buf := b + chunks[0];
    MarkerCall(lim, depth, buf);
    assert buf + Concat(chunks[1..]) == b + Concat(chunks);
    if buf == [] {
      NothingWaits(lim, depth);
      assert chunks[1..] != [];
      NullDoomed(lim, depth, [], chunks[1..], v, d, r);
    } else {
      assert buf[0] == CR;
      CrIsNoMark(lim, depth, buf);
    }
  }

  lemma {:induction false} NothingWaits(lim: Limits, depth: nat)
    ensures RunMarker(lim, depth, []) == Outcome(NeedMore, WaitingForType, depth, [])
  {
  }

  lemma {:induction false} CrIsNoMark(lim: Limits, depth: nat, buf: bytes)
    requires buf != [] && buf[0] == CR
    ensures RunMarker(lim, depth, buf).result.Failed?
  {
    hide Run;
  }

  /** Only a whole boolean frame yields a boolean. */
  lemma {:induction false} BooleanTakesFour(lim: Limits, st: State, depth: nat, buf: bytes)
    requires Run(lim, st, depth, buf).result.Parsed? && Run(lim, st, depth, buf).result.value.Boolean?
    ensures |Run(lim, st, depth, buf).buf| + 4 <= |buf|
  {
    hide ParseI64, RunElements, FindCrlf;
    match st
    case WaitingForType =>
      if buf[0] != BOOL_MARK && buf[0] != NULL_MARK {
        MarkFor(buf[0]);
        MarkerCases(lim, depth, buf);
        NotBoolean(lim, StateFor(buf[0]).value, depth, buf[1..]);
      }
    case _ => NotBoolean(lim, st, depth, buf);
  }

  lemma {:induction false} NotBoolean(lim: Limits, st: State, depth: nat, buf: bytes)
    requires !st.WaitingForType? && Run(lim, st, depth, buf).result.Parsed?
    ensures !Run(lim, st, depth, buf).result.value.Boolean?
  {
    hide ParseI64, FindCrlf, RunElements;
    match st
    case ListData(_, _, _) => ElementsGiveAggregate(lim, st, depth, buf);
    case MapData(_, _, _) => ElementsGiveAggregate(lim, st, depth, buf);
    case AggLen(k, kept) =>
      if FindCrlf(buf).Some? { HeaderNotBoolean(lim, k, kept + buf[..FindCrlf(buf).value], depth, buf[FindCrlf(buf).value + 2..]); }
    case _ =>
  }

  lemma {:induction false} HeaderNotBoolean(lim: Limits, k: AggKind, line: bytes, depth: nat, rest: bytes)
    requires RunAggHeader(lim, k, line, depth, rest).result.Parsed?
    ensures !RunAggHeader(lim, k, line, depth, rest).result.value.Boolean?
  {
    hide ParseI64, RunElements;
    if ParseI64(line).Some? && OpenAgg(lim, k, ParseI64(line).value, depth).Open? {
      ElementsGiveAggregate(lim, OpenAgg(lim, k, ParseI64(line).value, depth).start, depth + 1, rest);
    }
  }

  lemma {:induction false} ElementsGiveAggregate(lim: Limits, st: State, depth: nat, buf: bytes)
    requires st.Aggregate() && RunElements(lim, st, depth, buf).result.Parsed?
    ensures IsAggregate(RunElements(lim, st, depth, buf).result.value)
    decreases |buf|
  {
    hide RunMarker;
    var o := RunMarker(lim, depth, buf);
    if st.remaining > 0 && o.result.Parsed? && Absorb(st, o.result.value).More? {
      MarkerShrinks(lim, depth, buf);
      ElementsGiveAggregate(lim, Absorb(st, o.result.value).state, o.depth, o.buf);
    }
  }

  lemma {:induction false} BooleanDoomed(lim: Limits, c: Config, chunks: seq<bytes>, flag: bool, d: nat, r: bytes)
    requires chunks != [] && |c.buf| + |Concat(chunks)| < 4 + |r|
    ensures !StreamsTo(lim, c, chunks, Target(Boolean(flag), d, r))
    decreases |chunks|
  {
    hide Run;
    ConcatTail(chunks);
    var o := Feed(lim, c, chunks[0]);
    if |chunks| == 1 {
      assert Concat(chunks[1..]) == [];
      if o == Target(Boolean(flag), d, r) { BooleanTakesFour(lim, c.state, c.depth, c.buf + chunks[0]); }
    } else if o.result.NeedMore? {
      BooleanDoomed(lim, After(o), chunks[1..], flag, d, r);
    }
  }

  /** No elements complete `v` any more. */
  ghost predicate Lost(st: State, v: Value)
    requires st.Aggregate() && st.remaining > 0
  {
    forall es :: AbsorbAll(st, es) != Finished(v)
  }

  lemma {:induction false} LostDoomed(lim: Limits, c: Config, chunks: seq<bytes>, v: Value, d: nat, r: bytes)
    requires chunks != [] && c.state.Aggregate() && c.state.remaining > 0 && Lost(c.state, v)
    ensures !StreamsTo(lim, c, chunks, Target(v, d, r))
    decreases |chunks|
  {
    hide Run, RunElements, AbsorbAll, IsFrames;
    var buf := c.buf + chunks[0];
    AggregateCall(lim, c.state, c.depth, buf);
    var o := RunElements(lim, c.state, c.depth, buf);
    if |chunks| == 1 {
      if o == Target(v, d, r) { var es := ElementsSound(lim, c.state, c.depth, buf); }
    } else if o.result.NeedMore? {
      var x, es, y := ElementsTail(lim, c.state, c.depth, buf);
      forall more ensures AbsorbAll(o.state, more) != Finished(v) { AbsorbConcat(c.state, es, more); }
      LostDoomed(lim, After(o), chunks[1..], v, d, r);
    }
  }

  /** The elements that came are not the next ones of `v`. */
  lemma {:induction false} WrongElements(v: Value, j: nat, es: seq<Value>)
    requires IsAggregate(v) && j < |PartsOf(v).flat| && AbsorbAll(OpenAfter(v, j), es).Pending?
    requires !(j + |es| < |PartsOf(v).flat| && es == PartsOf(v).flat[j..j + |es|])
    ensures Lost(AbsorbAll(OpenAfter(v, j), es).state, v)
  {
    hide AbsorbAll;
    var next := AbsorbAll(OpenAfter(v, j), es).state;
    forall more ensures AbsorbAll(next, more) != Finished(v) {
      if AbsorbAll(next, more) == Finished(v) {
        AbsorbConcat(OpenAfter(v, j), es, more);
        RestIsUnique(v, j, es + more);
        var flat := PartsOf(v).flat;
        assert es == (es + more)[..|es|] && flat[j..][..|es|] == flat[j..j + |es|];
        NothingFinishes(next, v, more);
      }
    }
  }

  lemma {:induction false} NothingFinishes(st: State, v: Value, es: seq<Value>)
    requires st.Aggregate() && st.remaining > 0 && AbsorbAll(st, es) == Finished(v)
    ensures es != []
  {
  }

  lemma {:induction false} OpenLater(v: Value, j: nat, m: nat)
    requires IsAggregate(v) && j + m < |PartsOf(v).flat|
    ensures AbsorbAll(OpenAfter(v, j), PartsOf(v).flat[j..j + m]) == Pending(OpenAfter(v, j + m))
  {
    hide AbsorbAll;
    var p, st := PartsOf(v), OpenAfter(v, j);
    AbsorbConcat(StartAgg(p.kind, p.count), p.flat[..j], p.flat[j..j + m]);
    assert p.flat[..j] + p.flat[j..j + m] == p.flat[..j + m];
  }

  /** A list of frames splits after any number of elements. */
  lemma {:induction false} FramesSplit(lim: Limits, depth: nat, w: bytes, es: seq<Value>, m: nat) returns (k: nat)
    requires IsFrames(lim, depth, w, es) && m <= |es|
    ensures k <= |w| && IsFrames(lim, depth, w[..k], es[..m]) && IsFrames(lim, depth, w[k..], es[m..])
    ensures m == 0 ==> k == 0
    decreases m
  {
    hide IsFrame;
    if m == 0 {
      k := 0;
      assert w[..0] == [] && w[0..] == w && es[..0] == [] && es[0..] == es;
    } else {
      var first := FramesCut(lim, depth, w, es);
      var more := FramesSplit(lim, depth, w[first..], es[1..], m - 1);
      k := first + more;
      FramesPrepend(lim, depth, w, es, first, more, m - 1);
      assert w[first..][more..] == w[k..] && es[1..][m - 1..] == es[m..];
    }
  }

  /**
    * Bytes `rest` are left of the frames `full` of the elements from some point on, after elements
    * framed by `x` were read from their front: still fewer than the elements after those need.
    */
  lemma {:induction false} StillShort(
    lim: Limits, d1: nat, full: bytes, d2: nat, x: bytes, es: seq<Value>, m: nat, rest: bytes, left: bytes) returns (k: nat)
    requires m <= |es| && IsFrames(lim, d1, full, es) && IsFrames(lim, d2, x, es[..m])
    requires IsSuffix(rest, full) && |rest| < |full| && x <= rest
    requires IsSuffix(left, rest) && |left| + |x| <= |rest|
    ensures k <= |full| && IsFrames(lim, d1, full[k..], es[m..])
    ensures IsSuffix(left, full[k..]) && |left| < |full[k..]|
  {
    hide IsFrame, IsFrames;
    k := FramesSplit(lim, d1, full, es, m);
    var o := |full| - |rest|;
    SuffixTransitive(left, rest, full);
    if m > 0 && o + |x| <= k {
      PrefixOfSuffix(x, rest, full);
      InfixOf(x, full, o, k);
      assert es[..m] != [];
      FramesInfix(lim, d2, x, d1, full[..k], es[..m], o);
      assert false;
    }
    SuffixOfTail(left, full, k);
  }

  lemma {:induction false} PrefixOfSuffix(x: bytes, rest: bytes, full: bytes)
    requires x <= rest && IsSuffix(rest, full)
    ensures InfixAt(x, full, |full| - |rest|)
  {
    assert rest[..|x|] == x;
  }

  lemma {:induction false} SuffixOfTail(left: bytes, full: bytes, k: nat)
    requires IsSuffix(left, full) && k + |left| <= |full|
    ensures IsSuffix(left, full[k..])
  {
  }

  /** The bytes before and after a call that stops inside an element. */
  lemma {:induction false} BytesLeft(x: bytes, y: bytes, left: bytes, rest: bytes, b: bytes, chunks: seq<bytes>, r: bytes)
    requires chunks != [] && b + Concat(chunks) == rest + r && b + chunks[0] == x + y && IsSuffix(left, y)
    requires |b + chunks[0]| <= |rest|
    ensures var later := left + rest[|x| + |y|..];
            && x <= rest && IsSuffix(later, rest) && |later| + |x| <= |rest| && left + Concat(chunks[1..]) == later + r
            && |later| - |left| == |rest| - |b| - |chunks[0]|
  {
    hide Concat, IsSuffix;
    ConcatSplits(chunks);
    var n, tail := |x| + |y|, Concat(chunks[1..]);
    assert b + Concat(chunks) == x + y + tail by { assert b + (chunks[0] + tail) == b + chunks[0] + tail; }
    HeadAndTail(x + y, tail, rest, r);
    assert left + tail == left + rest[n..] + r;
    SuffixAfter(x, y, left, rest);
  }

  lemma {:induction false} HeadAndTail(head: bytes, tail: bytes, rest: bytes, r: bytes)
    requires head + tail == rest + r && |head| <= |rest|
    ensures rest[..|head|] == head && tail == rest[|head|..] + r
  {
    assert (rest + r)[..|head|] == rest[..|head|] && (head + tail)[..|head|] == head;
    assert (rest + r)[|head|..] == rest[|head|..] + r && (head + tail)[|head|..] == tail;
  }

  lemma {:induction false} SuffixAfter(x: bytes, y: bytes, left: bytes, rest: bytes)
    requires |x| + |y| <= |rest| && rest[..|x| + |y|] == x + y && IsSuffix(left, y)
    ensures x <= rest && IsSuffix(left + rest[|x| + |y|..], rest) && |left| <= |y|
  {
    var n := |x| + |y|;
    assert rest == x + y + rest[n..];
    assert rest[n - |left|..n] == left by { assert rest[n - |left|..n] == (x + y)[n - |left|..]; }
    assert rest[n - |left|..] == rest[n - |left|..n] + rest[n..];
  }

  /**
    * An aggregate that has lost bytes of an element is never completed with the right leftover, however
    * the rest of its frame is cut.
    */
  lemma {:induction false} ElementsDoomed(
    lim: Limits, v: Value, j: nat, depth: nat, b: bytes, chunks: seq<bytes>, d1: nat, full: bytes, rest: bytes, d: nat, r: bytes)
    requires IsAggregate(v) && j < |PartsOf(v).flat| && IsFrames(lim, d1, full, PartsOf(v).flat[j..])
    requires IsSuffix(rest, full) && |rest| < |full|
    requires chunks != [] && b + Concat(chunks) == rest + r && InsideCuts(rest, |b|, chunks)
    ensures !StreamsTo(lim, Config(OpenAfter(v, j), depth, b), chunks, Target(v, d, r))
    decreases |chunks|
  {
    hide Run, RunElements, RunMarker, AbsorbAll, IsFrames, IsSuffix, Lost, Concat;
    var st, buf := OpenAfter(v, j), b + chunks[0];
    AggregateCall(lim, st, depth, buf);
    var o := RunElements(lim, st, depth, buf);
    if |chunks| == 1 {
      OneChunk(chunks);
      ForgottenElement(lim, d1, depth, v, j, full, rest, r);
    } else if o.result.NeedMore? {
      var x, es, y := ElementsTail(lim, st, depth, buf);
      var flat, m := PartsOf(v).flat, |es|;
      if j + m < |flat| && es == flat[j..j + m] {
        OpenLater(v, j, m);
        MarkerTakesPrefix(lim, depth, y);
        BytesLeft(x, y, o.buf, rest, b, chunks, r);
        var later := o.buf + rest[|x| + |y|..];
        assert flat[j..][..m] == es && flat[j..][m..] == flat[j + m..];
        var k := StillShort(lim, d1, full, depth, x, flat[j..], m, rest, later);
        InsideShift(rest, |b| + |chunks[0]|, later, |o.buf|, chunks[1..]);
        ElementsDoomed(lim, v, j + m, o.depth, o.buf, chunks[1..], d1, full[k..], later, d, r);
      } else {
        WrongElements(v, j, es);
        LostDoomed(lim, After(o), chunks[1..], v, d, r);
      }
    }
  }

  lemma {:induction false} OneChunk(chunks: seq<bytes>)
    requires |chunks| == 1
    ensures Concat(chunks) == chunks[0]
  {
    assert Concat(chunks[1..]) == [];
  }

  lemma {:induction false} InsideShift(w: bytes, k: nat, w': bytes, k': nat, chunks: seq<bytes>)
    requires chunks != [] && |w| - k == |w'| - k' && InsideCuts(w, k, chunks)
    ensures InsideCuts(w', k', chunks)
    decreases |chunks|
  {
    if |chunks| > 1 { InsideShift(w, k + |chunks[0]|, w', k' + |chunks[0]|, chunks[1..]); }
  }

  lemma {:induction false} AggregateCall(lim: Limits, st: State, depth: nat, buf: bytes)
    requires st.Aggregate()
    ensures Run(lim, st, depth, buf) == RunElements(lim, st, depth, buf)
  {
  }

  // ----- Cuts that doom the parser -----

  /** The next chunk ends at `next`. */
  predicate NextCut(stream: bytes, k: nat, next: nat, chunks: seq<bytes>) {
    && |chunks| >= 2 && k <= next <= |stream|
    && chunks[0] == stream[k..next] && Concat(chunks[1..]) == stream[next..]
  }

  lemma {:induction false} DoomedFrom(lim: Limits, depth: nat, stream: bytes, k: nat, next: nat, chunks: seq<bytes>, o: Outcome)
    requires NextCut(stream, k, next, chunks) && Resumes(lim, depth, stream, k, next)
    ensures StreamsTo(lim, Seen(lim, depth, stream, k), chunks, o) <==>
            var first := Run(lim, WaitingForType, depth, stream[..next]);
            first.result.NeedMore? && StreamsTo(lim, After(first), chunks[1..], o)
  {
    hide Run;
  }

  lemma {:induction false} TerminatorDoomed(
    lim: Limits, depth: nat, mark: byte, line: bytes, tail: bytes, k: nat, chunks: seq<bytes>, v: Value, r: bytes)
    requires StateFor(mark).Some? && NoCrlf(line) && k <= |line| + 1 && (IsText(v) ==> |v.text| <= |line|)
    requires NextCut(Opened(mark, line, tail), k, |line| + 2, chunks)
    ensures !StreamsTo(lim, Seen(lim, depth, Opened(mark, line, tail), k), chunks, Target(v, depth, r))
  {
    hide Run, StreamsTo, Collecting, NextCut;
    var stream, next := Opened(mark, line, tail), |line| + 2;
    if k == 0 { NothingCut(lim, depth, stream, next); } else { HeaderCut(lim, depth, mark, line, tail, k, next); }
    DoomedFrom(lim, depth, stream, k, next, chunks, Target(v, depth, r));
    var seen := line + [CR];
    assert stream[..next] == [mark] + seen;
    KeptCr(line);
    LineHeld(lim, depth, mark, seen);
    ChunksLeft(stream, k, next, chunks);
    LineDoomed(lim, depth, mark, seen, chunks[1..], v, depth, r);
  }

  lemma {:induction false} KeptCr(line: bytes)
    requires NoCrlf(line)
    ensures NoCrlf(line + [CR]) && CR in line + [CR]
  {
    var seen := line + [CR];
    forall i | 0 <= i < |seen| ensures !CrlfAt(seen, i) { assert !CrlfAt(line, i); }
    assert seen[|line|] == CR;
  }

  lemma {:induction false} HeaderDoomed(
    lim: Limits, depth: nat, w: bytes, mark: byte, n: int, body: int, r: bytes, k: nat, chunks: seq<bytes>, v: Value)
    requires StateFor(mark).Some? && Header(w, mark, n, body) && !IsText(v) && k <= body - 2
    requires NextCut(w + r, k, body - 1, chunks)
    ensures !StreamsTo(lim, Seen(lim, depth, w + r, k), chunks, Target(v, depth, r))
  {
    hide StreamsTo, Run, NextCut, ParseI64, NoCrlf;
    HeaderOpens(w, mark, n, body, r);
    TerminatorDoomed(lim, depth, mark, w[1..body - 2], w[body..] + r, k, chunks, v, r);
  }

  lemma {:induction false} TextDoomed(lim: Limits, depth: nat, w: bytes, mark: byte, r: bytes, k: nat, chunks: seq<bytes>, v: Value)
    requires StateFor(mark).Some? && IsText(v) && IsLine(w, mark, v.text) && k <= |w| - 2
    requires NextCut(w + r, k, |w| - 1, chunks)
    ensures !StreamsTo(lim, Seen(lim, depth, w + r, k), chunks, Target(v, depth, r))
  {
    hide StreamsTo, Run, NextCut, NoCrlf;
    assert w + r == Opened(mark, v.text, r);
    TerminatorDoomed(lim, depth, mark, v.text, r, k, chunks, v, r);
  }

  /** What is left of a call that stops inside a bulk trailer and had to read the header too. */
  lemma {:induction false} TrailerAfterHeader(lim: Limits, depth: nat, bk: BulkKind, line: bytes, s: bytes)
    requires NoCrlf(line) && ParseI64(line) == Some(|s|) && |s| <= lim.maxBulk && BulkValue(bk, s).Some?
    ensures Run(lim, WaitingForType, depth, Opened(BulkMark(bk), line, s + [CR])) ==
            if s == [] then Outcome(NeedMore, BulkData(bk, 0, []), depth, [CR])
            else Outcome(NeedMore, BulkData(bk, |s|, s + [CR]), depth, [])
  {
    hide RunMarker, ParseI64, Opened, NoCrlf;
    RunBulk(lim, depth, bk, line, s + [CR]);
    assert [] + (s + [CR]) == s + [CR];
  }

  lemma {:induction false} TrailerAfterData(bk: BulkKind, s: bytes, i: nat, depth: nat)
    requires i <= |s|
    ensures RunBulkData(bk, |s|, s[..i], depth, (s + [CR])[i..]) == Outcome(NeedMore, BulkData(bk, |s|, s + [CR]), depth, [])
  {
    assert s[..i] + (s + [CR])[i..] == s + [CR];
  }

  /** A cut inside a bulk trailer is survived only by an empty frame whose header came in the same call, and only as the last cut. */
  lemma {:induction false} TrailerStreams(
    lim: Limits, depth: nat, bk: BulkKind, line: bytes, s: bytes, r: bytes, k: nat, chunks: seq<bytes>, v: Value)
    requires NoCrlf(line) && ParseI64(line) == Some(|s|) && |s| <= lim.maxBulk && BulkValue(bk, s) == Some(v)
    requires k <= |line| + 1 || |line| + 3 <= k <= |line| + 3 + |s|
    requires NextCut(Opened(BulkMark(bk), line, s + CRLF + r), k, |line| + 3 + |s| + 1, chunks)
    requires |chunks| > 2 ==> chunks[1] == []
    ensures StreamsTo(lim, Seen(lim, depth, Opened(BulkMark(bk), line, s + CRLF + r), k), chunks, Target(v, depth, r)) <==>
            s == [] && k <= |line| + 1 && |chunks| == 2
  {
    hide Run, RunBulkData, StreamsTo, ParseI64, NoCrlf, BulkValue, Opened, NextCut;
    var mark, tail := BulkMark(bk), s + CRLF + r;
    var stream, next := Opened(mark, line, tail), |line| + 3 + |s| + 1;
    TrailerSlices(mark, line, s, r);
    if k <= |line| + 1 {
      if k == 0 { NothingCut(lim, depth, stream, next); } else { HeaderCut(lim, depth, mark, line, tail, k, next); }
      DoomedFrom(lim, depth, stream, k, next, chunks, Target(v, depth, r));
      TrailerAfterHeader(lim, depth, bk, line, s);
      ChunksLeft(stream, k, next, chunks);
      if s == [] {
        EmptyTrailerStreams(lim, depth, bk, chunks[1..], v, r);
      } else {
        PoisonDoomed(lim, depth, bk, |s|, s + [CR], chunks[1..], v, depth, r);
      }
    } else {
      TrailerFromData(lim, depth, bk, line, s, r, k, chunks, v);
    }
  }

  lemma {:induction false} ChunksLeft(stream: bytes, k: nat, next: nat, chunks: seq<bytes>)
    requires NextCut(stream, k, next, chunks)
    ensures |chunks| >= 2 && next <= |stream| && Concat(chunks[1..]) == stream[next..]
  {
  }

  lemma {:induction false} TrailerSlices(mark: byte, line: bytes, s: bytes, r: bytes)
    ensures var stream, next := Opened(mark, line, s + CRLF + r), |line| + 3 + |s| + 1;
            next <= |stream| && stream[..next] == Opened(mark, line, s + [CR]) && stream[next..] == [LF] + r
  {
  }

  lemma {:induction false} EmptyTrailerStreams(lim: Limits, depth: nat, bk: BulkKind, chunks: seq<bytes>, v: Value, r: bytes)
    requires chunks != [] && Concat(chunks) == [LF] + r && BulkValue(bk, []) == Some(v) && (|chunks| > 1 ==> chunks[0] == [])
    ensures StreamsTo(lim, Config(BulkData(bk, 0, []), depth, [CR]), chunks, Target(v, depth, r)) <==> |chunks| == 1
  {
    hide Run, RunBulkData;
    var c := Config(BulkData(bk, 0, []), depth, [CR]);
    BulkDataCall(lim, bk, 0, [], depth, [CR] + chunks[0]);
    if |chunks| == 1 {
      assert Concat(chunks[1..]) == [] && chunks[0] == [LF] + r;
      EmptyData(bk, depth, [CR] + chunks[0], r);
    } else {
      assert [CR] + chunks[0] == [CR];
      OneByteSwallowed(bk, depth);
      PoisonDoomed(lim, depth, bk, 0, [CR], chunks[1..], v, depth, r);
    }
  }

  lemma {:induction false} OneByteSwallowed(bk: BulkKind, depth: nat)
    ensures RunBulkData(bk, 0, [], depth, [CR]) == Outcome(NeedMore, BulkData(bk, 0, [CR]), depth, [])
  {
    assert [] + [CR] == [CR];
  }

  lemma {:induction false} TrailerFromData(
    lim: Limits, depth: nat, bk: BulkKind, line: bytes, s: bytes, r: bytes, k: nat, chunks: seq<bytes>, v: Value)
    requires NoCrlf(line) && ParseI64(line) == Some(|s|) && |s| <= lim.maxBulk && BulkValue(bk, s) == Some(v)
    requires |line| + 3 <= k <= |line| + 3 + |s|
    requires NextCut(Opened(BulkMark(bk), line, s + CRLF + r), k, |line| + 3 + |s| + 1, chunks)
    ensures !StreamsTo(lim, Seen(lim, depth, Opened(BulkMark(bk), line, s + CRLF + r), k), chunks, Target(v, depth, r))
  {
    hide Run, RunBulkData, ParseI64, NoCrlf, BulkValue, Opened;
    var mark, tail, i := BulkMark(bk), s + CRLF + r, k - |line| - 3;
    OpenedSlices(mark, line, tail, i, |s| + 1);
    BulkTailRun(lim, depth, bk, line, s, r, i);
    assert tail[..i] == s[..i] && tail[i..|s| + 1] == (s + [CR])[i..];
    assert [] + chunks[0] == chunks[0];
    BulkDataCall(lim, bk, |s|, s[..i], depth, chunks[0]);
    TrailerAfterData(bk, s, i, depth);
    PoisonDoomed(lim, depth, bk, |s|, s + [CR], chunks[1..], v, depth, r);
  }

  lemma {:induction false} MarkDoomed(lim: Limits, depth: nat, w: bytes, r: bytes, next: nat, chunks: seq<bytes>, v: Value)
    requires 0 < next < |w| && NextCut(w + r, 0, next, chunks)
    requires (w == [NULL_MARK] + CRLF && v == Null) || (|w| == 4 && w[0] == BOOL_MARK && v.Boolean?)
    ensures !StreamsTo(lim, Seen(lim, depth, w + r, 0), chunks, Target(v, depth, r))
  {
    hide Run, StreamsTo;
    var part := w[..next];
    NothingCut(lim, depth, w + r, next);
    DoomedFrom(lim, depth, w + r, 0, next, chunks, Target(v, depth, r));
    assert (w + r)[..next] == part && part[0] == w[0];
    MarkAlone(lim, depth, part);
    var rest := Concat(chunks[1..]);
    assert part[1..] + rest == w[1..] + r;
    if v == Null {
      NullDoomed(lim, depth, part[1..], chunks[1..], v, depth, r);
    } else {
      BooleanDoomed(lim, Config(WaitingForType, depth, part[1..]), chunks[1..], v.flag, depth, r);
    }
  }

  lemma {:induction false} ElementCutDoomed(
    lim: Limits, depth: nat, w: bytes, v: Value, r: bytes, body: nat, k: nat, next: nat, chunks: seq<bytes>)
    requires IsAggregate(v) && IsFrame(lim, depth, w, v) && AggregateAt(lim, depth, w, PartsOf(v), body)
    requires body <= next < |w| && !Boundary(lim, depth + 1, w[body..], PartsOf(v).flat, next - body)
    requires NextCut(w + r, k, next, chunks) && Resumes(lim, depth, w + r, k, next) && InsideCuts(w, next, chunks[1..])
    ensures !StreamsTo(lim, Seen(lim, depth, w + r, k), chunks, Target(v, depth, r))
  {
    hide Run, StreamsTo, IsFrame, IsFrames, ParseI64, NoCrlf, Boundary, Opened, Resumes, RunElements, RunMarker, IsSuffix, InsideCuts;
    var p, frames, line, i := PartsOf(v), w[body..], w[1..body - 2], next - body;
    DoomedFrom(lim, depth, w + r, k, next, chunks, Target(v, depth, r));
    HeaderOpens(w, AggMark(p.kind), p.count, body, r);
    var j, b, m := LocateCut(lim, depth + 1, frames, p.flat, i);
    var x, e := frames[..b], frames[b..b + m];
    ElementSlices(AggMark(p.kind), line, frames, r, i, b, m);
    assert |line| + 3 + i == next;
    AggregateTailRun(lim, depth, v, line, x, j, e[..i - b]);
    PrefixNeedsMore(lim, depth + 1, e, p.flat[j], i - b);
    MarkerCall(lim, depth + 1, e[..i - b]);
    UnfinishedElement(lim, OpenAfter(v, j), depth + 1, e[..i - b]);
    MarkerTakesPrefix(lim, depth + 1, e[..i - b]);
    var inner := RunMarker(lim, depth + 1, e[..i - b]);
    var after, full := frames[b + m..], e + frames[b + m..];
    var rest := inner.buf + (e[i - b..] + after);
    TailFrames(lim, depth + 1, p.flat, j, e, after);
    ForgottenBytes(e, i - b, after, inner.buf);
    InsideShift(w, next, rest, |inner.buf|, chunks[1..]);
    assert inner.buf + (e[i - b..] + after + r) == rest + r;
    ElementsDoomed(lim, v, j, inner.depth, inner.buf, chunks[1..], depth + 1, full, rest, depth, r);
  }

  lemma {:induction false} AggregateDoomed(lim: Limits, depth: nat, w: bytes, v: Value, r: bytes, k: nat, next: nat, chunks: seq<bytes>)
    requires IsAggregate(v) && IsFrame(lim, depth, w, v)
    requires CleanCut(lim, depth, w, v, k) && 0 < next < |w| && !CleanAggregateCut(lim, depth, w, PartsOf(v), next)
    requires NextCut(w + r, k, next, chunks) && InsideCuts(w, next, chunks[1..])
    ensures !StreamsTo(lim, Seen(lim, depth, w + r, k), chunks, Target(v, depth, r))
  {
    hide Run, StreamsTo, IsFrame, IsFrames, ParseI64, Boundary, Resumes, Concat, InsideCuts;
    var p := PartsOf(v);
    var body := AggregateFrame(lim, depth, w, v);
    if next == body - 1 {
      assert k <= body - 2 by { CleanBefore(lim, depth, w, v, body, k); }
      HeaderDoomed(lim, depth, w, AggMark(p.kind), p.count, body, r, k, chunks, v);
    } else {
      if k == 0 { NothingCut(lim, depth, w + r, next); } else { AggregateCut(lim, depth, w, v, r, k, next); }
      ElementCutDoomed(lim, depth, w, v, r, body, k, next, chunks);
    }
  }

  /** A clean cut does not fall inside the terminator of the header. */
  lemma {:induction false} CleanBefore(lim: Limits, depth: nat, w: bytes, v: Value, body: int, k: nat)
    requires IsAggregate(v) && IsFrame(lim, depth, w, v) && AggregateAt(lim, depth, w, PartsOf(v), body)
    requires CleanCut(lim, depth, w, v, k)
    ensures k != body - 1
  {
    hide IsFrame, IsFrames, ParseI64, Boundary;
    if k != 0 {
      var p := PartsOf(v);
      var other :| AggregateAt(lim, depth, w, p, other) && Spares(other, k) &&
                   (k < other || Boundary(lim, depth + 1, w[other..], p.flat, k - other));
      HeaderIsUnique(w, AggMark(p.kind), p.count, body, p.count, other);
    }
  }

  // ----- The exact condition -----

  /** Every cut between two chunks falls inside the frame. */
  predicate InsideCuts(w: bytes, k: nat, chunks: seq<bytes>)
    requires chunks != []
    decreases |chunks|
  {
    |chunks| == 1 || (k + |chunks[0]| < |w| && InsideCuts(w, k + |chunks[0]|, chunks[1..]))
  }

  /**
    * Every cut is clean; only the last may instead fall inside the trailer of an empty bulk frame, when
    * the cut before it left the length line incomplete.
    */
  ghost predicate GoodCuts(lim: Limits, depth: nat, w: bytes, v: Value, k: nat, chunks: seq<bytes>)
    requires chunks != []
    decreases |chunks|
  {
    |chunks| == 1 ||
    var next := k + |chunks[0]|;
    || (CleanCut(lim, depth, w, v, next) && GoodCuts(lim, depth, w, v, next, chunks[1..]))
    || (EmptyBulkTrailer(w, v, next) && k < |w| - 2 && |chunks| == 2)
  }

  lemma {:induction false} NextChunk(w: bytes, r: bytes, k: nat, chunks: seq<bytes>)
    requires |chunks| >= 2 && k <= |w| && Concat(chunks) == (w + r)[k..] && k + |chunks[0]| <= |w|
    ensures NextCut(w + r, k, k + |chunks[0]|, chunks)
  {
    hide Concat;
    var stream, next := w + r, k + |chunks[0]|;
    ConcatSplits(chunks);
    assert chunks[0] == stream[k..][..|chunks[0]|] && stream[k..][..|chunks[0]|] == stream[k..next];
    assert Concat(chunks[1..]) == stream[k..][|chunks[0]|..] && stream[k..][|chunks[0]|..] == stream[next..];
  }

  lemma {:induction false} ConcatSplits(chunks: seq<bytes>)
    requires chunks != []
    ensures Concat(chunks) == chunks[0] + Concat(chunks[1..])
  {
  }

  /** A clean cut after a clean cut: the parser is where one buffer up to there would have left it. */
  lemma {:induction false} CleanNext(lim: Limits, depth: nat, w: bytes, v: Value, r: bytes, k: nat, next: nat, chunks: seq<bytes>, o: Outcome)
    requires IsFrame(lim, depth, w, v) && CleanCut(lim, depth, w, v, k) && CleanCut(lim, depth, w, v, next)
    requires next < |w| && NextCut(w + r, k, next, chunks)
    ensures StreamsTo(lim, Seen(lim, depth, w + r, k), chunks, o) <==>
            StreamsTo(lim, Seen(lim, depth, w + r, next), chunks[1..], o)
  {
    hide Run, StreamsTo, IsFrame, CleanCut, Resumes, NextCut;
    ChunksLeft(w + r, k, next, chunks);
    CutOrder(w + r, k, next, chunks);
    CutResumes(lim, depth, w, v, r, k, next);
    DoomedFrom(lim, depth, w + r, k, next, chunks, o);
    assert (w + r)[..next] == w[..next];
    PrefixNeedsMore(lim, depth, w, v, next);
  }

  lemma {:induction false} CutOrder(stream: bytes, k: nat, next: nat, chunks: seq<bytes>)
    requires NextCut(stream, k, next, chunks)
    ensures k <= next
  {
  }

  /** An unclean cut after a clean one: lost, but for the trailer of an empty bulk frame. */
  lemma {:induction false} UncleanNext(lim: Limits, depth: nat, w: bytes, v: Value, r: bytes, k: nat, next: nat, chunks: seq<bytes>)
    requires IsFrame(lim, depth, w, v)
    requires CleanCut(lim, depth, w, v, k) && !CleanCut(lim, depth, w, v, next) && next < |w|
    requires NextCut(w + r, k, next, chunks) && InsideCuts(w, next, chunks[1..])
    ensures StreamsTo(lim, Seen(lim, depth, w + r, k), chunks, Target(v, depth, r)) <==>
            EmptyBulkTrailer(w, v, next) && k < |w| - 2 && |chunks| == 2
  {
    hide Run, StreamsTo, ParseI64, IsFrames, Concat, Seen;
    if IsAggregate(v) {
      AggregateDoomed(lim, depth, w, v, r, k, next, chunks);
    } else if IsCounted(v) {
      CountedNext(lim, depth, w, v, r, k, next, chunks);
    } else if IsText(v) {
      TextDoomed(lim, depth, w, w[0], r, k, chunks, v);
    } else {
      ScalarNext(lim, depth, w, v, r, k, next, chunks);
    }
  }

  /** The type byte and number of a frame that is one length line. */
  lemma {:induction false} NumberForm(lim: Limits, depth: nat, w: bytes, v: Value) returns (n: int)
    requires IsFrame(lim, depth, w, v) && !IsAggregate(v) && !IsCounted(v) && !IsText(v) && !v.Boolean?
    ensures w != [] && (w[0] == NULL_MARK ==> w == [NULL_MARK] + CRLF && v == Null)
    ensures w[0] != NULL_MARK ==> IsNumber(w, w[0], n) && StateFor(w[0]).Some?
  {
    hide ParseI64;
    match v
    case Integer(i) => n := i;
    case BulkString(None) => n := -1;
    case NullArray => n := -1;
    case Null => n := -1;
  }

  /** Integers, nulls and booleans. */
  lemma {:induction false} ScalarNext(lim: Limits, depth: nat, w: bytes, v: Value, r: bytes, k: nat, next: nat, chunks: seq<bytes>)
    requires IsFrame(lim, depth, w, v) && !IsAggregate(v) && !IsCounted(v) && !IsText(v)
    requires CleanCut(lim, depth, w, v, k) && !CleanCut(lim, depth, w, v, next) && next < |w|
    requires NextCut(w + r, k, next, chunks)
    ensures !StreamsTo(lim, Seen(lim, depth, w + r, k), chunks, Target(v, depth, r))
  {
    hide Run, StreamsTo, ParseI64, Concat, Seen, NextCut, IsNumber, StateFor;
    CutOrder(w + r, k, next, chunks);
    if v.Boolean? {
      MarkDoomed(lim, depth, w, r, next, chunks, v);
    } else {
      var n := NumberForm(lim, depth, w, v);
      if w[0] == NULL_MARK {
        MarkDoomed(lim, depth, w, r, next, chunks, v);
      } else {
        FrameHasBytes(lim, depth, w, v);
        NumberDoomed(lim, depth, w, w[0], n, r, k, chunks, v);
      }
    }
  }

  lemma {:induction false} NumberDoomed(lim: Limits, depth: nat, w: bytes, mark: byte, n: int, r: bytes, k: nat, chunks: seq<bytes>, v: Value)
    requires StateFor(mark).Some? && IsNumber(w, mark, n) && !IsText(v) && k <= |w| - 2
    requires NextCut(w + r, k, |w| - 1, chunks)
    ensures !StreamsTo(lim, Seen(lim, depth, w + r, k), chunks, Target(v, depth, r))
  {
    hide Run, StreamsTo, ParseI64, Seen, NextCut;
    HeaderDoomed(lim, depth, w, mark, n, |w|, r, k, chunks, v);
  }

  lemma {:induction false} CountedNext(lim: Limits, depth: nat, w: bytes, v: Value, r: bytes, k: nat, next: nat, chunks: seq<bytes>)
    requires IsFrame(lim, depth, w, v) && IsCounted(v)
    requires CleanCut(lim, depth, w, v, k) && !CleanCut(lim, depth, w, v, next) && next < |w|
    requires NextCut(w + r, k, next, chunks) && InsideCuts(w, next, chunks[1..])
    ensures StreamsTo(lim, Seen(lim, depth, w + r, k), chunks, Target(v, depth, r)) <==>
            EmptyBulkTrailer(w, v, next) && k < |w| - 2 && |chunks| == 2
  {
    hide Run, StreamsTo, ParseI64, Concat, Seen, IsBulk, NextCut, InsideCuts;
    CutOrder(w + r, k, next, chunks);
    match v
    case BulkString(Some(s)) => BulkNext(lim, depth, StringBulk, w, s, v, r, k, next, chunks);
    case BulkError(s) => BulkNext(lim, depth, ErrorBulk, w, s, v, r, k, next, chunks);
    case VerbatimString(f, d) =>
      var s := f + [':' as byte] + d;
      assert s[..3] == f && s[4..] == d;
      BulkNext(lim, depth, VerbatimBulk, w, s, v, r, k, next, chunks);
  }

  lemma {:induction false} BulkNext(
    lim: Limits, depth: nat, bk: BulkKind, w: bytes, s: bytes, v: Value, r: bytes, k: nat, next: nat, chunks: seq<bytes>)
    requires IsBulk(lim, w, BulkMark(bk), s) && BulkValue(bk, s) == Some(v)
    requires next < |w| && (next == |w| - |s| - 3 || next == |w| - 1)
    requires k == 0 || (k != |w| - |s| - 3 && k != |w| - 1)
    requires NextCut(w + r, k, next, chunks) && InsideCuts(w, next, chunks[1..])
    ensures StreamsTo(lim, Seen(lim, depth, w + r, k), chunks, Target(v, depth, r)) <==>
            next == |w| - 1 && s == [] && k < |w| - 2 && |chunks| == 2
  {
    hide Run, StreamsTo, ParseI64, Concat, Seen;
    var mark := BulkMark(bk);
    var body :| Header(w, mark, |s|, body) && w[body..] == s + CRLF;
    assert |w| == body + |s| + 2;
    if next == body - 1 {
      HeaderDoomed(lim, depth, w, mark, |s|, body, r, k, chunks, v);
    } else {
      HeaderOpens(w, mark, |s|, body, r);
      assert w[body..] + r == s + CRLF + r;
      TrailerStreams(lim, depth, bk, w[1..body - 2], s, r, k, chunks, v);
    }
  }

  lemma {:induction false} StreamsExactlyFrom(lim: Limits, depth: nat, w: bytes, v: Value, r: bytes, k: nat, chunks: seq<bytes>)
    requires IsFrame(lim, depth, w, v)
    requires k < |w| && CleanCut(lim, depth, w, v, k)
    requires chunks != [] && Concat(chunks) == (w + r)[k..] && InsideCuts(w, k, chunks)
    ensures StreamsTo(lim, Seen(lim, depth, w + r, k), chunks, Target(v, depth, r)) <==> GoodCuts(lim, depth, w, v, k, chunks)
    decreases |chunks|
  {
    hide Run, StreamsTo, IsFrame, CleanCut, Concat, Seen, NextCut;
    if |chunks| == 1 {
      StreamFrom(lim, depth, w, v, r, k, chunks);
    } else {
      var next := k + |chunks[0]|;
      NextChunk(w, r, k, chunks);
      ChunksLeft(w + r, k, next, chunks);
      if CleanCut(lim, depth, w, v, next) {
        CleanNext(lim, depth, w, v, r, k, next, chunks, Target(v, depth, r));
        StreamsExactlyFrom(lim, depth, w, v, r, next, chunks[1..]);
        FrameHasBytes(lim, depth, w, v);
        if EmptyBulkTrailer(w, v, next) { TrailerIsUnclean(lim, depth, w, v, next); }
      } else {
        UncleanNext(lim, depth, w, v, r, k, next, chunks);
      }
    }
  }

  lemma {:induction false} TrailerIsUnclean(lim: Limits, depth: nat, w: bytes, v: Value, k: nat)
    requires EmptyBulkTrailer(w, v, k) && k > 0
    ensures !CleanCut(lim, depth, w, v, k)
  {
  }

  /**
    * However a frame of `v` is cut, in whatever form it is written, every chunk but the last is answered
    * with "need more data" and the last one like one buffer, if and only if the cuts are good.
    */
  lemma {:induction false} StreamsExactly(lim: Limits, w: bytes, v: Value, r: bytes, chunks: seq<bytes>)
    requires IsFrame(lim, 0, w, v)
    requires chunks != [] && Concat(chunks) == w + r && InsideCuts(w, 0, chunks)
    ensures StreamsTo(lim, FRESH, chunks, Run(lim, WaitingForType, 0, w + r)) <==> GoodCuts(lim, 0, w, v, 0, chunks)
  {
    hide StreamsTo, GoodCuts, IsFrame, Concat, InsideCuts;
    FrameParses(lim, 0, w, v, r);
    FrameHasBytes(lim, 0, w, v);
    assert (w + r)[0..] == w + r && (w + r)[..0] == [];
    StreamsExactlyFrom(lim, 0, w, v, r, 0, chunks);
    NothingSeen(lim, w + r);
  }

  lemma {:induction false} NothingSeen(lim: Limits, stream: bytes)
    ensures Seen(lim, 0, stream, 0) == FRESH
  {
    assert stream[..0] == [];
  }
}
