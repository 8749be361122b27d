/** Encoder and parser are inverse to each other; frames pipeline; the size estimate is a bound. */
module RespRoundTrip {
  import opened Bytes
  import opened Decimal
  import opened RespTypes
  import opened RespParser
  import opened RespGrammar
  import opened RespRefinement
  import E = RespEncoder

  // ----- Well-formed values are the values that have frames -----

  lemma {:induction false} LengthLine(mark: byte, n: nat, rest: bytes)
    requires n <= I64_MAX
    ensures var w := E.Line(mark, FormatNat(n)) + rest;
            Header(w, mark, n, |FormatNat(n)| + 3) && w[|FormatNat(n)| + 3..] == rest
  {
    ParseFormatI64(n);
    var w := E.Line(mark, FormatNat(n)) + rest;
    assert w[1..|FormatNat(n)| + 1] == FormatNat(n);
    assert w[|FormatNat(n)| + 1..|FormatNat(n)| + 3] == CRLF;
  }

  lemma {:induction false} NumberFrame(mark: byte, i: int)
    requires I64_MIN <= i <= I64_MAX
    ensures IsNumber(E.Line(mark, FormatInt(i)), mark, i)
  {
    ParseFormatI64(i);
    var w := E.Line(mark, FormatInt(i));
    assert w[1..|w| - 2] == FormatInt(i);
    assert |FormatInt(i)| >= 1 && w[|w| - 2..|w|] == CRLF;
  }

  lemma {:induction false} BulkFrame(lim: Limits, mark: byte, s: bytes)
    requires LengthFits(|s|, lim.maxBulk)
    ensures IsBulk(lim, E.Bulk(mark, s), mark, s)
  {
    LengthLine(mark, |s|, s + CRLF);
    assert E.Bulk(mark, s) == E.Line(mark, FormatNat(|s|)) + (s + CRLF);
  }

  /** The encoder's output is a frame of the grammar. */
  lemma {:induction false} EncodeIsFrame(lim: Limits, depth: nat, v: Value)
    requires WellFormed(lim, depth, v)
    ensures IsFrame(lim, depth, E.Encode(v), v)
    decreases v, 2
  {
    match v
    case SimpleString(_) =>
    case Error(_) =>
    case BigNumber(_) =>
    case Boolean(_) =>
    case Null =>
    case Integer(i) => NumberFrame(':' as byte, i);
    case BulkString(None) => NumberFrame('$' as byte, -1);
    case NullArray => NumberFrame('*' as byte, -1);
    case BulkString(Some(s)) => BulkFrame(lim, '$' as byte, s);
    case BulkError(s) => BulkFrame(lim, '!' as byte, s);
    case VerbatimString(f, d) => BulkFrame(lim, '=' as byte, f + [':' as byte] + d);
    case Array(es) => EncodeIsList(lim, depth, '*' as byte, es);
    case Set(es) => EncodeIsList(lim, depth, '~' as byte, es);
    case Push(es) => EncodeIsList(lim, depth, '>' as byte, es);
    case Map(ps) =>
      EncodeIsPairs(lim, depth + 1, ps);
      LengthLine('%' as byte, |ps|, E.EncodePairs(ps));
  }

  lemma {:induction false} EncodeIsList(lim: Limits, depth: nat, mark: byte, es: seq<Value>)
    requires WellFormedAll(lim, depth, es)
    ensures IsList(lim, depth, E.Line(mark, FormatNat(|es|)) + E.EncodeAll(es), mark, es)
    decreases es, 1
  {
    EncodeIsFrames(lim, depth + 1, es);
    LengthLine(mark, |es|, E.EncodeAll(es));
  }

  lemma {:induction false} EncodeIsFrames(lim: Limits, depth: nat, es: seq<Value>)
    requires forall i :: 0 <= i < |es| ==> WellFormed(lim, depth, es[i])
    ensures IsFrames(lim, depth, E.EncodeAll(es), es)
    decreases es, 0
  {
    if es != [] {
      EncodeIsFrame(lim, depth, es[0]);
      EncodeIsFrames(lim, depth, es[1..]);
      var w, k := E.EncodeAll(es), |E.Encode(es[0])|;
      assert w[..k] == E.Encode(es[0]) && w[k..] == E.EncodeAll(es[1..]);
      FramesJoin(lim, depth, w, es, k);
    }
  }

  lemma {:induction false} EncodeIsPairs(lim: Limits, depth: nat, ps: seq<Pair>)
    requires forall i :: 0 <= i < |ps| ==> WellFormed(lim, depth, ps[i].key) && WellFormed(lim, depth, ps[i].value)
    ensures IsPairs(lim, depth, E.EncodePairs(ps), ps)
    decreases ps, 0
  {
    if ps != [] {
      var p := ps[0];
      EncodeIsPair(lim, depth, p);
      EncodeIsPairs(lim, depth, ps[1..]);
      var w, j, k := E.EncodePairs(ps), |E.Encode(p.key)|, |E.EncodePair(p)|;
      assert w[..j] == E.Encode(p.key) && w[j..k] == E.Encode(p.value) && w[k..] == E.EncodePairs(ps[1..]);
      assert FirstPair(lim, depth, w, ps, j, k);
    }
  }

  lemma {:induction false} EncodeIsPair(lim: Limits, depth: nat, p: Pair)
    requires WellFormed(lim, depth, p.key) && WellFormed(lim, depth, p.value)
    ensures IsPair(lim, depth, E.Encode(p.key), E.Encode(p.value), p)
    decreases p, 0
  {
    EncodeIsFrame(lim, depth, p.key);
    EncodeIsFrame(lim, depth, p.value);
  }

  /** Only well-formed values have frames. */
  lemma {:induction false} FrameIsWellFormed(lim: Limits, depth: nat, w: bytes, v: Value)
    requires IsFrame(lim, depth, w, v)
    ensures WellFormed(lim, depth, v)
    decreases v, 2
  {
    match v
    case SimpleString(_) =>
    case Error(_) =>
    case BigNumber(_) =>
    case Boolean(_) =>
    case Null =>
    case Integer(_) =>
    case BulkString(_) =>
    case NullArray =>
    case BulkError(_) =>
    case VerbatimString(_, _) =>
    case Array(es) => ListIsWellFormed(lim, depth, w, '*' as byte, es);
    case Set(es) => ListIsWellFormed(lim, depth, w, '~' as byte, es);
    case Push(es) => ListIsWellFormed(lim, depth, w, '>' as byte, es);
    case Map(ps) =>
      var body :| Header(w, '%' as byte, |ps|, body) && IsPairs(lim, depth + 1, w[body..], ps);
      PairsAreWellFormed(lim, depth + 1, w[body..], ps);
  }

  lemma {:induction false} ListIsWellFormed(lim: Limits, depth: nat, w: bytes, mark: byte, es: seq<Value>)
    requires IsList(lim, depth, w, mark, es)
    ensures WellFormedAll(lim, depth, es)
    decreases es, 1
  {
    var body :| Header(w, mark, |es|, body) && IsFrames(lim, depth + 1, w[body..], es);
    FramesAreWellFormed(lim, depth + 1, w[body..], es);
  }

  lemma {:induction false} FramesAreWellFormed(lim: Limits, depth: nat, w: bytes, es: seq<Value>)
    requires IsFrames(lim, depth, w, es)
    ensures forall i :: 0 <= i < |es| ==> WellFormed(lim, depth, es[i])
    decreases es, 0
  {
    if es != [] {
      var k := FramesCut(lim, depth, w, es);
      FrameIsWellFormed(lim, depth, w[..k], es[0]);
      FramesAreWellFormed(lim, depth, w[k..], es[1..]);
      forall i | 0 <= i < |es| ensures WellFormed(lim, depth, es[i]) {
        if i > 0 { assert es[i] == es[1..][i - 1]; }
      }
    }
  }

  lemma {:induction false} PairsAreWellFormed(lim: Limits, depth: nat, w: bytes, ps: seq<Pair>)
    requires IsPairs(lim, depth, w, ps)
    ensures forall i :: 0 <= i < |ps| ==> WellFormed(lim, depth, ps[i].key) && WellFormed(lim, depth, ps[i].value)
    decreases ps, 0
  {
    if ps != [] {
      var j, k := PairsCut(lim, depth, w, ps);
      var p := ps[0];
      PairIsWellFormed(lim, depth, w[..j], w[j..k], p);
      PairsAreWellFormed(lim, depth, w[k..], ps[1..]);
      forall i | 0 <= i < |ps| ensures WellFormed(lim, depth, ps[i].key) && WellFormed(lim, depth, ps[i].value) {
        if i > 0 { assert ps[i] == ps[1..][i - 1]; }
      }
    }
  }

  lemma {:induction false} PairIsWellFormed(lim: Limits, depth: nat, wk: bytes, wv: bytes, p: Pair)
    requires IsPair(lim, depth, wk, wv, p)
    ensures WellFormed(lim, depth, p.key) && WellFormed(lim, depth, p.value)
    decreases p, 0
  {
    FrameIsWellFormed(lim, depth, wk, p.key);
    FrameIsWellFormed(lim, depth, wv, p.value);
  }

  // ----- Round trips -----

  /** Parsing the encoding of `v` followed by any bytes returns `v` and leaves exactly those bytes. */
  lemma {:induction false} RoundTrip(lim: Limits, depth: nat, v: Value, r: bytes)
    requires WellFormed(lim, depth, v)
    ensures Run(lim, WaitingForType, depth, E.Encode(v) + r) == Outcome(Parsed(v), WaitingForType, depth, r)
  {
    EncodeIsFrame(lim, depth, v);
    FrameParses(lim, depth, E.Encode(v), v, r);
  }

  /** The round trip succeeds for the well-formed values and for no others. */
  lemma {:induction false} RoundTripExactly(lim: Limits, depth: nat, v: Value)
    ensures WellFormed(lim, depth, v) <==>
            Run(lim, WaitingForType, depth, E.Encode(v)) == Outcome(Parsed(v), WaitingForType, depth, [])
  {
    var w := E.Encode(v);
    if WellFormed(lim, depth, v) {
      RoundTrip(lim, depth, v, []);
      assert w + [] == w;
    }
    if Run(lim, WaitingForType, depth, w) == Outcome(Parsed(v), WaitingForType, depth, []) {
      MarkerSound(lim, depth, w);
      FrameIsWellFormed(lim, depth, w[..|w|], v);
    }
  }

  /** Whatever form a value arrived in, its encoding is a canonical form that parses to it again. */
  lemma {:induction false} CanonicalForm(lim: Limits, depth: nat, buf: bytes, r: bytes)
    requires Run(lim, WaitingForType, depth, buf).result.Parsed?
    ensures var v := Run(lim, WaitingForType, depth, buf).result.value;
            && WellFormed(lim, depth, v)
            && Run(lim, WaitingForType, depth, E.Encode(v) + r) == Outcome(Parsed(v), WaitingForType, depth, r)
  {
    var o := Run(lim, WaitingForType, depth, buf);
    MarkerSound(lim, depth, buf);
    FrameIsWellFormed(lim, depth, buf[..Consumed(buf, o)], o.result.value);
    RoundTrip(lim, depth, o.result.value, r);
  }

  // ----- Sequences of frames -----

  /** What repeated `decode` calls on one buffer return before the first answer that is not a value. */
  function DecodeAll(lim: Limits, state: State, depth: nat, buf: bytes): (r: (seq<Value>, Outcome))
    decreases |buf|
  {
    var o := Run(lim, state, depth, buf);
    if o.result.Parsed? && |o.buf| < |buf| then
      var (vs, last) := DecodeAll(lim, o.state, o.depth, o.buf);
      ([o.result.value] + vs, last)
    else ([], o)
  }

  /** Pipelined frames come back in order and leave the buffer empty. */
  lemma {:induction false} Pipeline(lim: Limits, vs: seq<Value>)
    requires forall i :: 0 <= i < |vs| ==> WellFormed(lim, 0, vs[i])
    ensures DecodeAll(lim, WaitingForType, 0, E.EncodeAll(vs)) == (vs, Outcome(NeedMore, WaitingForType, 0, []))
    decreases |vs|
  {
    if vs != [] {
      RoundTrip(lim, 0, vs[0], E.EncodeAll(vs[1..]));
      Pipeline(lim, vs[1..]);
      assert vs == [vs[0]] + vs[1..];
    }
  }

  /** No frame is a proper prefix of another, and a byte string is a frame of one value only. */
  lemma {:induction false} PrefixFree(lim: Limits, depth: nat, w1: bytes, v1: Value, w2: bytes, v2: Value)
    requires IsFrame(lim, depth, w1, v1) && IsFrame(lim, depth, w2, v2) && w1 <= w2
    ensures w1 == w2 && v1 == v2
  {
    var r := w2[|w1|..];
    assert w2 == w1 + r && w2 == w2 + [];
    FrameParses(lim, depth, w1, v1, r);
    FrameParses(lim, depth, w2, v2, []);
  }

  /** Two lists of well-formed values with the same wire form are the same list. */
  lemma {:induction false} EncodingsAreUnique(lim: Limits, vs: seq<Value>, us: seq<Value>)
    requires forall i :: 0 <= i < |vs| ==> WellFormed(lim, 0, vs[i])
    requires forall i :: 0 <= i < |us| ==> WellFormed(lim, 0, us[i])
    requires E.EncodeAll(vs) == E.EncodeAll(us)
    ensures vs == us
  {
    Pipeline(lim, vs);
    Pipeline(lim, us);
  }

  // ----- The encoder's frame is the shortest -----

  lemma {:induction false} ValueBelowPower(s: bytes)
    requires AllDigits(s)
    ensures ValueOf(s) < Pow10(|s|)
    decreases |s|
  {
    if s != [] { ValueBelowPower(s[..|s| - 1]); }
  }

  lemma {:induction false} DigitsAtLeast(s: bytes)
    requires s != [] && AllDigits(s)
    ensures |FormatNat(ValueOf(s))| <= |s|
  {
    hide ValueOf, FormatNat, Pow10;
    ValueBelowPower(s);
    FormatNatLength(ValueOf(s), |s|);
  }

  /** No text of a number is shorter than the printed one. */
  lemma {:induction false} NumberTextAtLeast(s: bytes)
    requires ParseI64(s).Some?
    ensures |FormatInt(ParseI64(s).value)| <= |s|
  {
    hide ValueOf, FormatNat, Pow10;
    var digits := if s[0] == MINUS || s[0] == PLUS then s[1..] else s;
    assert digits != [] && AllDigits(digits);
    DigitsAtLeast(digits);
    ZeroIsShort();
  }

  lemma {:induction false} ZeroIsShort()
    ensures |FormatNat(0)| == 1
  {
  }

  lemma {:induction false} HeaderAtLeast(w: bytes, mark: byte, n: int, body: int)
    requires Header(w, mark, n, body)
    ensures |FormatInt(n)| + 3 <= body
  {
    hide ParseI64, FormatInt;
    NumberTextAtLeast(w[1..body - 2]);
  }

  lemma {:induction false} BulkAtLeast(lim: Limits, w: bytes, mark: byte, s: bytes)
    requires IsBulk(lim, w, mark, s)
    ensures |E.Bulk(mark, s)| <= |w|
  {
    hide ParseI64, FormatNat;
    var body :| Header(w, mark, |s|, body) && w[body..] == s + CRLF;
    HeaderAtLeast(w, mark, |s|, body);
    assert |w[body..]| == |s| + 2;
  }

  lemma {:induction false} NumberAtLeast(w: bytes, mark: byte, n: int)
    requires IsNumber(w, mark, n)
    ensures |E.Line(mark, FormatInt(n))| <= |w|
  {
    hide ParseI64, FormatInt;
    HeaderAtLeast(w, mark, n, |w|);
  }

  /** No frame of a value is shorter than its encoding. */
  lemma {:induction false} FrameAtLeast(lim: Limits, depth: nat, w: bytes, v: Value)
    requires IsFrame(lim, depth, w, v)
    ensures |E.Encode(v)| <= |w|
    decreases |w|, 0
  {
    match v
    case SimpleString(_) =>
    case Error(_) =>
    case BigNumber(_) =>
    case Boolean(_) =>
    case Integer(i) => NumberAtLeast(w, ':' as byte, i);
    case BulkString(None) => NumberAtLeast(w, '$' as byte, -1);
    case NullArray => NumberAtLeast(w, '*' as byte, -1);
    case Null => FrameHasBytes(lim, depth, w, v);
    case BulkString(Some(s)) => BulkAtLeast(lim, w, '$' as byte, s);
    case BulkError(s) => BulkAtLeast(lim, w, '!' as byte, s);
    case VerbatimString(f, d) => BulkAtLeast(lim, w, '=' as byte, f + [':' as byte] + d);
    case _ =>
      var body := AggregateFrame(lim, depth, w, v);
      var p := PartsOf(v);
      HeaderAtLeast(w, AggMark(p.kind), p.count, body);
      FramesAtLeast(lim, depth + 1, w[body..], p.flat);
      EncodedParts(v);
  }

  lemma {:induction false} FramesAtLeast(lim: Limits, depth: nat, w: bytes, es: seq<Value>)
    requires IsFrames(lim, depth, w, es)
    ensures |E.EncodeAll(es)| <= |w|
    decreases |w|, 1, |es|
  {
    hide IsFrame, E.Encode;
    if es != [] {
      var k := FramesCut(lim, depth, w, es);
      FrameAtLeast(lim, depth, w[..k], es[0]);
      FramesAtLeast(lim, depth, w[k..], es[1..]);
    }
  }

  /** An aggregate's encoding: its header and its elements in wire order. */
  lemma {:induction false} EncodedParts(v: Value)
    requires IsAggregate(v)
    ensures var p := PartsOf(v);
            E.Encode(v) == E.Line(AggMark(p.kind), FormatNat(p.count)) + E.EncodeAll(p.flat)
  {
    hide E.EncodeAll, E.EncodePairs, FormatNat;
    if v.Map? { EncodedPairs(v.pairs); }
  }

  lemma {:induction false} EncodedPairs(ps: seq<Pair>)
    ensures E.EncodePairs(ps) == E.EncodeAll(Flatten(ps))
    decreases |ps|
  {
    hide E.Encode;
    if ps != [] {
      EncodedPairs(ps[1..]);
      var flat, p := Flatten(ps), ps[0];
      assert flat[0] == p.key && flat[1..][0] == p.value && flat[1..][1..] == Flatten(ps[1..]);
    }
  }

  // ----- The size estimate -----

  /** Integers print in at most twelve characters and every length fits the default limits. */
  predicate Modest(v: Value)
    decreases v
  {
    match v
    case Integer(i) => |FormatInt(i)| <= 12
    case BulkString(c) => c.Some? ==> |c.value| <= DEFAULT_LIMITS.maxBulk
    case BulkError(m) => |m| <= DEFAULT_LIMITS.maxBulk
    case VerbatimString(_, d) => 4 + |d| <= DEFAULT_LIMITS.maxBulk
    case Array(es) => |es| <= DEFAULT_LIMITS.maxArray && forall i :: 0 <= i < |es| ==> Modest(es[i])
    case Set(es) => |es| <= DEFAULT_LIMITS.maxArray && forall i :: 0 <= i < |es| ==> Modest(es[i])
    case Push(es) => |es| <= DEFAULT_LIMITS.maxArray && forall i :: 0 <= i < |es| ==> Modest(es[i])
    case Map(ps) =>
      |ps| <= DEFAULT_LIMITS.maxArray && forall i :: 0 <= i < |ps| ==> Modest(ps[i].key) && Modest(ps[i].value)
    case _ => true
  }

  lemma {:induction false} Pow10Values()
    ensures Pow10(6) == 1_000_000 && Pow10(7) == 10_000_000 && Pow10(9) == 1_000_000_000
  {
    assert Pow10(3) == 1000;
    assert Pow10(6) == 1_000_000;
  }

  /** By how much the estimate of a value exceeds its encoding; negative when it falls short. */
  function Slack(v: Value): (n: int)
    decreases v
  {
    match v
    case SimpleString(_) => 7
    case Error(_) => 7
    case BigNumber(_) => 7
    case Null => 7
    case Boolean(_) => 6
    case BulkString(None) => 0
    case NullArray => 0
    case Integer(i) => 12 - |FormatInt(i)|
    case BulkString(Some(s)) => 10 - |FormatNat(|s|)|
    case BulkError(s) => 10 - |FormatNat(|s|)|
    case VerbatimString(_, d) => 11 - |FormatNat(4 + |d|)|
    case Array(es) => 7 - |FormatNat(|es|)| + SlackAll(es)
    case Set(es) => 7 - |FormatNat(|es|)| + SlackAll(es)
    case Push(es) => 7 - |FormatNat(|es|)| + SlackAll(es)
    case Map(ps) => 7 - |FormatNat(|ps|)| + SlackPairs(ps)
  }

  function SlackAll(es: seq<Value>): (n: int)
    decreases es
  {
    if es == [] then 0 else Slack(es[0]) + SlackAll(es[1..])
  }

  function SlackPairs(ps: seq<Pair>): (n: int)
    decreases ps
  {
    if ps == [] then 0
    else
      var p := ps[0];
      SlackPair(p) + SlackPairs(ps[1..])
  }

  function SlackPair(p: Pair): (n: int)
    decreases p
  {
    Slack(p.key) + Slack(p.value)
  }

  /** The estimate of every value is its encoded length and its slack. */
  lemma {:induction false} SizeExactly(v: Value)
    ensures SizeEstimate(v) == |E.Encode(v)| + Slack(v)
    decreases v, 1
  {
    hide FormatNat;
    match v
    case Array(es) => SizesExactly(es);
    case Set(es) => SizesExactly(es);
    case Push(es) => SizesExactly(es);
    case Map(ps) => PairSizesExactly(ps);
    case BulkString(None) => MinusOneText();
    case NullArray => MinusOneText();
    case _ =>
  }

  lemma {:induction false} MinusOneText()
    ensures |FormatInt(-1)| == 2
  {
  }

  lemma {:induction false} SizesExactly(es: seq<Value>)
    ensures SizeEstimates(es) == |E.EncodeAll(es)| + SlackAll(es)
    decreases es, 0
  {
    hide E.Encode, SizeEstimate, Slack;
    if es != [] {
      SizeExactly(es[0]);
      SizesExactly(es[1..]);
    }
  }

  lemma {:induction false} PairSizesExactly(ps: seq<Pair>)
    ensures PairSizeEstimates(ps) == |E.EncodePairs(ps)| + SlackPairs(ps)
    decreases ps, 0
  {
    hide E.EncodePair, PairSizeEstimate, SlackPair;
    if ps != [] {
      var p := ps[0];
      PairSizeExactly(p);
      PairSizesExactly(ps[1..]);
    }
  }

  lemma {:induction false} PairSizeExactly(p: Pair)
    ensures PairSizeEstimate(p) == |E.EncodePair(p)| + SlackPair(p)
    decreases p, 0
  {
    SizeExactly(p.key);
    SizeExactly(p.value);
  }

  /** `size_estimate` never falls short of the encoded length. */
  lemma {:induction false} SizeBound(v: Value)
    requires Modest(v)
    ensures |E.Encode(v)| <= SizeEstimate(v)
    decreases v, 1
  {
    Pow10Values();
    match v
    case BulkString(Some(s)) => FormatNatLength(|s|, 9);
    case BulkError(m) => FormatNatLength(|m|, 9);
    case VerbatimString(_, d) => FormatNatLength(4 + |d|, 9);
    case Array(es) => SizeBounds(es); FormatNatLength(|es|, 7);
    case Set(es) => SizeBounds(es); FormatNatLength(|es|, 7);
    case Push(es) => SizeBounds(es); FormatNatLength(|es|, 7);
    case Map(ps) => PairSizeBounds(ps); FormatNatLength(|ps|, 7);
    case _ => assert |FormatInt(-1)| == 2;
  }

  /**
    * Where the estimate is tight: null bulk strings and arrays meet it exactly, an integer fits exactly
    * when it prints in twelve characters, and an aggregate's header fits its ten bytes exactly up to
    * seven digits, which 1,000,000 elements use up.
    */
  lemma {:induction false} SizeBoundIsTight(i: i64, es: seq<Value>)
    ensures |E.Encode(BulkString(None))| == SizeEstimate(BulkString(None))
    ensures |E.Encode(NullArray)| == SizeEstimate(NullArray)
    ensures |E.Encode(Integer(i))| <= SizeEstimate(Integer(i)) <==> |FormatInt(i)| <= 12
    ensures var header := |E.Encode(Array(es))| - |E.EncodeAll(es)|;
            var allowed := SizeEstimate(Array(es)) - SizeEstimates(es);
            (header <= allowed <==> |es| < 10_000_000) && (|es| == DEFAULT_LIMITS.maxArray ==> header == allowed)
  {
    Pow10Values();
    assert |FormatInt(-1)| == 2;
    FormatNatLength(|es|, 7);
    FormatNatLength(|es|, 6);
  }

  lemma {:induction false} SizeBounds(es: seq<Value>)
    requires forall i :: 0 <= i < |es| ==> Modest(es[i])
    ensures |E.EncodeAll(es)| <= SizeEstimates(es)
    decreases es, 0
  {
    if es != [] {
      SizeBound(es[0]);
      SizeBounds(es[1..]);
    }
  }

  lemma {:induction false} PairSizeBounds(ps: seq<Pair>)
    requires forall i :: 0 <= i < |ps| ==> Modest(ps[i].key) && Modest(ps[i].value)
    ensures |E.EncodePairs(ps)| <= PairSizeEstimates(ps)
    decreases ps, 0
  {
    if ps != [] {
      var p := ps[0];
      PairSizeBound(p);
      PairSizeBounds(ps[1..]);
    }
  }

  lemma {:induction false} PairSizeBound(p: Pair)
    requires Modest(p.key) && Modest(p.value)
    ensures |E.EncodePair(p)| <= PairSizeEstimate(p)
    decreases p, 0
  {
    SizeBound(p.key);
    SizeBound(p.value);
  }
}
