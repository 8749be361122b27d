/** What holds of a parser over whole runs of calls: depth, panics and the nesting of self-calls. */
module RespRuns {
  import opened Bytes
  import opened Decimal
  import opened RespTypes
  import opened RespParser
  import opened RespRefinement
  import opened RespStreaming

  /** The parser after a run of calls, one per chunk, whatever the calls answered. */
  function AfterCalls(lim: Limits, c: Config, chunks: seq<bytes>): (r: Config)
    decreases |chunks|
  {
    if chunks == [] then c else AfterCalls(lim, After(Feed(lim, c, chunks[0])), chunks[1..])
  }

  /**
    * Over any run of calls on a fresh parser, errors included, the depth stays within `maxDepth`, an
    * open aggregate always owns a level of depth, and the next call panics exactly when a bulk trailer's
    * CR has been swallowed as data. So no depth decrement underflows.
    */
  lemma {:induction false} RunsStayValid(lim: Limits, chunks: seq<bytes>, next: bytes)
    ensures var c := AfterCalls(lim, FRESH, chunks);
            && Valid(lim, c.state, c.depth)
            && (Feed(lim, c, next).result == Panicked <==> Poisoned(c.state, c.buf + next))
            && (Feed(lim, c, next).result.Parsed? ==>
                  Feed(lim, c, next).state == WaitingForType && Feed(lim, c, next).depth == c.depth - c.state.Level())
  {
    CallsKeepValid(lim, FRESH, chunks);
    var c := AfterCalls(lim, FRESH, chunks);
    RunKeeps(lim, c.state, c.depth, c.buf + next);
  }

  lemma {:induction false} CallsKeepValid(lim: Limits, c: Config, chunks: seq<bytes>)
    requires Valid(lim, c.state, c.depth)
    ensures var r := AfterCalls(lim, c, chunks); Valid(lim, r.state, r.depth)
    decreases |chunks|
  {
    if chunks != [] {
      RunKeeps(lim, c.state, c.depth, c.buf + chunks[0]);
      CallsKeepValid(lim, After(Feed(lim, c, chunks[0])), chunks[1..]);
    }
  }

  // ----- How deeply a call nests calls of itself -----

  function Max(a: nat, b: nat): (m: nat) {
    if a < b then b else a
  }

  /** The deepest chain of self-calls one call makes. */
  function Nesting(lim: Limits, st: State, depth: nat, buf: bytes): (n: nat)
    decreases |buf|, 3
  {
    match st
    case WaitingForType => NestingMarker(lim, depth, buf)
    case AggLen(k, lb) =>
      if FindCrlf(buf).None? then 0
      else
        var p := FindCrlf(buf).value;
        (match ParseI64(lb + buf[..p])
         case None => 0
         case Some(len) =>
           match OpenAgg(lim, k, len, depth)
           case Open(start) => NestingElements(lim, start, depth + 1, buf[p + 2..])
           case _ => 0)
    case ListData(_, _, _) => NestingElements(lim, st, depth, buf)
    case MapData(_, _, _) => NestingElements(lim, st, depth, buf)
    case _ => 0
  }

  function NestingMarker(lim: Limits, depth: nat, buf: bytes): (n: nat)
    decreases |buf|, 0
  {
    if buf == [] || StateFor(buf[0]).None? then 0 else Nesting(lim, StateFor(buf[0]).value, depth, buf[1..])
  }

  function NestingElements(lim: Limits, st: State, depth: nat, buf: bytes): (n: nat)
    requires st.Aggregate()
    decreases |buf|, 1
  {
    if st.remaining == 0 then 0
    else
      var o := RunMarker(lim, depth, buf);
      var here := 1 + NestingMarker(lim, depth, buf);
      if o.result.Parsed? && Absorb(st, o.result.value).More? then
        Max(here, NestingElements(lim, Absorb(st, o.result.value).state, o.depth, o.buf))
      else here
  }

  /** Self-calls nest no deeper than the depth limit allows. */
  lemma {:induction false} NestingBound(lim: Limits, st: State, depth: nat, buf: bytes)
    requires Valid(lim, st, depth)
    ensures Nesting(lim, st, depth, buf) <= lim.maxDepth - depth + st.Level()
    decreases |buf|, 3
  {
    hide ParseI64, FindCrlf, NestingElements, NestingMarker;
    match st
    case WaitingForType => NestingMarkerBound(lim, depth, buf);
    case AggLen(k, lb) =>
      if FindCrlf(buf).Some? {
        var p := FindCrlf(buf).value;
        if ParseI64(lb + buf[..p]).Some? && OpenAgg(lim, k, ParseI64(lb + buf[..p]).value, depth).Open? {
          NestingElementsBound(lim, OpenAgg(lim, k, ParseI64(lb + buf[..p]).value, depth).start, depth + 1, buf[p + 2..]);
        }
      }
    case ListData(_, _, _) => NestingElementsBound(lim, st, depth, buf);
    case MapData(_, _, _) => NestingElementsBound(lim, st, depth, buf);
    case _ =>
  }

  lemma {:induction false} NestingMarkerBound(lim: Limits, depth: nat, buf: bytes)
    requires depth <= lim.maxDepth
    ensures NestingMarker(lim, depth, buf) <= lim.maxDepth - depth
    decreases |buf|, 0
  {
    if buf != [] && StateFor(buf[0]).Some? {
      MarkFor(buf[0]);
      NestingBound(lim, StateFor(buf[0]).value, depth, buf[1..]);
    }
  }

  lemma {:induction false} NestingElementsBound(lim: Limits, st: State, depth: nat, buf: bytes)
    requires Valid(lim, st, depth) && st.Aggregate()
    ensures NestingElements(lim, st, depth, buf) <= lim.maxDepth - depth + 1
    decreases |buf|, 1
  {
    RunMarkerKeeps(lim, depth, buf);
    NestingMarkerBound(lim, depth, buf);
    var o := RunMarker(lim, depth, buf);
    if o.result.Parsed? && Absorb(st, o.result.value).More? {
      NestingElementsBound(lim, Absorb(st, o.result.value).state, o.depth, o.buf);
    }
  }

  // ----- A level of depth that is never given back -----

  /**
    * When the input stops inside an aggregate that is itself an element, the inner aggregate is
    * forgotten but its level of depth stays taken: depth is not restored between frames.
    */
  lemma {:induction false} ForgottenAggregateKeepsItsLevel(
    lim: Limits, depth: nat, k1: AggKind, line1: bytes, n1: nat, k2: AggKind, line2: bytes, n2: nat)
    requires NoCrlf(line1) && ParseI64(line1) == Some(n1) && 0 < n1 <= lim.maxArray
    requires NoCrlf(line2) && ParseI64(line2) == Some(n2) && 0 < n2 <= lim.maxArray
    requires depth + 2 <= lim.maxDepth
    ensures Run(lim, WaitingForType, depth, Opened(AggMark(k1), line1, Opened(AggMark(k2), line2, []))) ==
            Outcome(NeedMore, StartAgg(k1, n1), depth + 2, [])
  {
    var inner := Opened(AggMark(k2), line2, []);
    RunAgg(lim, depth, k1, line1, inner);
    RunAgg(lim, depth + 1, k2, line2, []);
    OpenAggregateWaits(lim, StartAgg(k2, n2), depth + 2);
    assert RunMarker(lim, depth + 1, inner) == Outcome(NeedMore, StartAgg(k2, n2), depth + 2, []);
  }
}
