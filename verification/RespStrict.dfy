/**
  * What a sender may write: the grammar of the Redis serialization protocol specification without the
  * parser's leniency. Numbers have no plus and no leading zeros, booleans are `t` or `f`, and nulls are
  * `_`, `$-1` or `*-1`. Every value has one such frame, and it is what the encoder writes.
  */
module RespStrict {
  import opened Bytes
  import opened Decimal
  import opened RespTypes
  import opened RespGrammar
  import opened RespRoundTrip
  import E = RespEncoder

  const ZERO_DIGIT: byte := '0' as byte

  /** Digits without a leading zero, or the one digit zero. */
  predicate StrictDigits(s: bytes) {
    Digits(s) && (|s| == 1 || s[0] != ZERO_DIGIT)
  }

  /** The one strict text of a number. */
  predicate StrictNumber(s: bytes, i: int) {
    NumberText(s, i) && if i < 0 then s != [] && s[0] == '-' as byte && StrictDigits(s[1..]) else StrictDigits(s)
  }

  predicate StrictHeader(w: bytes, mark: byte, n: int, body: int) {
    3 <= body <= |w| && w[0] == mark && w[body - 2..body] == CRLF && StrictNumber(w[1..body - 2], n)
  }

  ghost predicate StrictBulk(w: bytes, mark: byte, s: bytes) {
    exists body :: StrictHeader(w, mark, |s|, body) && w[body..] == s + CRLF
  }

  /** `w` is the strict frame of `v`. */
  ghost predicate IsStrict(w: bytes, v: Value)
    decreases v
  {
    match v
    case SimpleString(s) => w == ['+' as byte] + s + CRLF
    case Error(s) => w == ['-' as byte] + s + CRLF
    case BigNumber(s) => w == ['(' as byte] + s + CRLF
    case Integer(i) => StrictHeader(w, ':' as byte, i, |w|)
    case BulkString(None) => w == ['$' as byte, '-' as byte, '1' as byte] + CRLF
    case NullArray => w == ['*' as byte, '-' as byte, '1' as byte] + CRLF
    case Null => w == ['_' as byte] + CRLF
    case Boolean(b) => w == ['#' as byte, if b then 't' as byte else 'f' as byte] + CRLF
    case BulkString(Some(s)) => StrictBulk(w, '$' as byte, s)
    case BulkError(s) => StrictBulk(w, '!' as byte, s)
    case VerbatimString(f, d) => StrictBulk(w, '=' as byte, f + [':' as byte] + d)
    case Array(es) => StrictList(w, '*' as byte, es)
    case Set(es) => StrictList(w, '~' as byte, es)
    case Push(es) => StrictList(w, '>' as byte, es)
    case Map(ps) => StrictMap(w, ps)
  }

  ghost predicate StrictMap(w: bytes, ps: seq<Pair>)
    decreases ps, 1
  {
    exists body :: StrictHeader(w, '%' as byte, |ps|, body) && StrictPairs(w[body..], ps)
  }

  ghost predicate StrictList(w: bytes, mark: byte, es: seq<Value>)
    decreases es, 1
  {
    exists body :: StrictHeader(w, mark, |es|, body) && StrictAll(w[body..], es)
  }

  ghost predicate StrictAll(w: bytes, es: seq<Value>)
    decreases es, 0
  {
    if es == [] then w == [] else exists k :: 0 <= k <= |w| && IsStrict(w[..k], es[0]) && StrictAll(w[k..], es[1..])
  }

  ghost predicate StrictPairs(w: bytes, ps: seq<Pair>)
    decreases ps, 0
  {
    if ps == [] then w == []
    else
      var p := ps[0];
      exists j, k :: 0 <= j <= k <= |w| && StrictPair(w[..j], w[j..k], p) && StrictPairs(w[k..], ps[1..])
  }

  ghost predicate StrictPair(wk: bytes, wv: bytes, p: Pair)
    decreases p
  {
    IsStrict(wk, p.key) && IsStrict(wv, p.value)
  }

  // ----- Strict numbers are the printed ones -----

  lemma {:induction false} LeadingDigit(s: bytes)
    requires Digits(s) && s[0] != ZERO_DIGIT
    ensures ValueOf(s) >= 1
    decreases |s|
  {
    if |s| > 1 { LeadingDigit(s[..|s| - 1]); } else { assert s[..0] == []; }
  }

  lemma {:induction false} StrictDigitsPrinted(s: bytes)
    requires StrictDigits(s)
    ensures s == FormatNat(ValueOf(s))
    decreases |s|
  {
    var init, last := s[..|s| - 1], s[|s| - 1];
    assert s == init + [last];
    if |s| == 1 {
      assert init == [];
    } else {
      LeadingDigit(init);
      StrictDigitsPrinted(init);
    }
  }

  lemma {:induction false} PrintedIsStrict(n: nat)
    ensures StrictDigits(FormatNat(n)) && (n > 0 ==> FormatNat(n)[0] != ZERO_DIGIT)
  {
    FormatNatValue(n);
    if n >= 10 { PrintedIsStrict(n / 10); }
  }

  lemma {:induction false} StrictNumberExactly(s: bytes, i: int)
    requires I64_MIN <= i <= I64_MAX
    ensures StrictNumber(s, i) <==> s == FormatInt(i)
  {
    hide FormatNat, ValueOf;
    if StrictNumber(s, i) {
      StrictDigitsPrinted(if i < 0 then s[1..] else s);
      if i < 0 { assert s == [s[0]] + s[1..]; }
    }
    if s == FormatInt(i) {
      var m := if i < 0 then -i else i;
      PrintedIsStrict(m);
      FormatNatValue(m);
      if i < 0 { assert s[1..] == FormatNat(m); }
    }
  }

  // ----- Strict frames are the encodings -----

  lemma {:induction false} StrictHeaderIs(w: bytes, mark: byte, n: int, body: int)
    requires StrictHeader(w, mark, n, body)
    ensures w[..body] == E.Line(mark, FormatInt(n)) && w == E.Line(mark, FormatInt(n)) + w[body..]
  {
    hide FormatInt, StrictDigits, ValueOf, AllDigits;
    StrictNumberExactly(w[1..body - 2], n);
    assert w[..body] == [w[0]] + w[1..body - 2] + w[body - 2..body];
    assert w == w[..body] + w[body..];
  }

  lemma {:induction false} LineIsStrict(mark: byte, n: int, rest: bytes)
    requires I64_MIN <= n <= I64_MAX
    ensures var line := E.Line(mark, FormatInt(n)); StrictHeader(line + rest, mark, n, |line|) && (line + rest)[|line|..] == rest
  {
    hide NumberText, StrictDigits;
    StrictNumberExactly(FormatInt(n), n);
    PrintedHasText(n);
    var line := E.Line(mark, FormatInt(n));
    var w := line + rest;
    assert w[1..|line| - 2] == FormatInt(n) && w[|line| - 2..|line|] == CRLF;
  }

  lemma {:induction false} PrintedHasText(n: int)
    ensures |FormatInt(n)| >= 1
  {
  }

  lemma {:induction false} MinusOne()
    ensures FormatInt(-1) == ['-' as byte, '1' as byte]
  {
  }

  /** A strict frame is the encoding of its value: there is only one. */
  lemma {:induction false} StrictIsEncoding(w: bytes, v: Value)
    requires IsStrict(w, v)
    ensures w == E.Encode(v)
    decreases v, 1
  {
    hide FormatInt, FormatNat, NumberText, StrictNumber, StrictHeader;
    MinusOne();
    match v
    case SimpleString(_) =>
    case Error(_) =>
    case BigNumber(_) =>
    case Null =>
    case Boolean(_) =>
    case BulkString(None) =>
    case NullArray =>
    case Integer(i) => NumberIsEncoding(w, i);
    case BulkString(Some(s)) => BulkIsEncoding(w, '$' as byte, s);
    case BulkError(s) => BulkIsEncoding(w, '!' as byte, s);
    case VerbatimString(f, d) => BulkIsEncoding(w, '=' as byte, f + [':' as byte] + d);
    case Array(es) => ListIsEncoding(w, '*' as byte, es);
    case Set(es) => ListIsEncoding(w, '~' as byte, es);
    case Push(es) => ListIsEncoding(w, '>' as byte, es);
    case Map(ps) => MapIsEncoding(w, ps);
  }

  lemma {:induction false} MapIsEncoding(w: bytes, ps: seq<Pair>)
    requires StrictMap(w, ps)
    ensures w == E.Line('%' as byte, FormatNat(|ps|)) + E.EncodePairs(ps)
    decreases ps, 1
  {
    hide FormatInt, FormatNat, StrictNumber;
    var body :| StrictHeader(w, '%' as byte, |ps|, body) && StrictPairs(w[body..], ps);
    StrictHeaderIs(w, '%' as byte, |ps|, body);
    PairsAreEncoding(w[body..], ps);
    PrintedNat(|ps|);
  }

  lemma {:induction false} PrintedNat(n: nat)
    ensures FormatInt(n) == FormatNat(n)
  {
  }

  lemma {:induction false} NumberIsEncoding(w: bytes, i: int)
    requires StrictHeader(w, ':' as byte, i, |w|)
    ensures w == E.Line(':' as byte, FormatInt(i))
  {
    hide FormatInt, StrictHeader;
    StrictHeaderIs(w, ':' as byte, i, |w|);
    assert w[..|w|] == w;
  }

  lemma {:induction false} BulkIsEncoding(w: bytes, mark: byte, s: bytes)
    requires StrictBulk(w, mark, s)
    ensures w == E.Bulk(mark, s)
  {
    hide FormatInt, FormatNat, StrictNumber;
    var body :| StrictHeader(w, mark, |s|, body) && w[body..] == s + CRLF;
    StrictHeaderIs(w, mark, |s|, body);
    PrintedNat(|s|);
    assert E.Bulk(mark, s) == E.Line(mark, FormatNat(|s|)) + (s + CRLF);
  }

  lemma {:induction false} ListIsEncoding(w: bytes, mark: byte, es: seq<Value>)
    requires StrictList(w, mark, es)
    ensures w == E.Line(mark, FormatNat(|es|)) + E.EncodeAll(es)
    decreases es, 1
  {
    hide FormatInt, FormatNat, StrictNumber;
    var body :| StrictHeader(w, mark, |es|, body) && StrictAll(w[body..], es);
    StrictHeaderIs(w, mark, |es|, body);
    AllAreEncoding(w[body..], es);
    PrintedNat(|es|);
  }

  lemma {:induction false} AllAreEncoding(w: bytes, es: seq<Value>)
    requires StrictAll(w, es)
    ensures w == E.EncodeAll(es)
    decreases es, 0
  {
    hide IsStrict, E.Encode;
    if es != [] {
      var k :| 0 <= k <= |w| && IsStrict(w[..k], es[0]) && StrictAll(w[k..], es[1..]);
      StrictIsEncoding(w[..k], es[0]);
      AllAreEncoding(w[k..], es[1..]);
      assert w == w[..k] + w[k..];
    }
  }

  lemma {:induction false} PairsAreEncoding(w: bytes, ps: seq<Pair>)
    requires StrictPairs(w, ps)
    ensures w == E.EncodePairs(ps)
    decreases ps, 0
  {
    hide E.EncodePair, StrictPair;
    if ps != [] {
      var p := ps[0];
      var j, k :| 0 <= j <= k <= |w| && StrictPair(w[..j], w[j..k], p) && StrictPairs(w[k..], ps[1..]);
      PairIsEncoding(w[..j], w[j..k], p);
      PairsAreEncoding(w[k..], ps[1..]);
      assert w == w[..j] + w[j..k] + w[k..];
    }
  }

  lemma {:induction false} PairIsEncoding(wk: bytes, wv: bytes, p: Pair)
    requires StrictPair(wk, wv, p)
    ensures wk + wv == E.EncodePair(p)
    decreases p, 0
  {
    hide IsStrict, E.Encode;
    StrictIsEncoding(wk, p.key);
    StrictIsEncoding(wv, p.value);
  }

  /** The encoding of a well-formed value is strict. */
  lemma {:induction false} EncodingIsStrict(lim: Limits, depth: nat, v: Value)
    requires WellFormed(lim, depth, v)
    ensures IsStrict(E.Encode(v), v)
    decreases v, 1
  {
    hide FormatInt, FormatNat, NumberText, StrictNumber, StrictHeader;
    MinusOne();
    match v
    case SimpleString(_) =>
    case Error(_) =>
    case BigNumber(_) =>
    case Null =>
    case Boolean(_) =>
    case BulkString(None) =>
    case NullArray =>
    case Integer(i) => IntegerIsStrict(i);
    case BulkString(Some(s)) => BulkIsStrict('$' as byte, s);
    case BulkError(s) => BulkIsStrict('!' as byte, s);
    case VerbatimString(f, d) => BulkIsStrict('=' as byte, f + [':' as byte] + d);
    case Array(es) => ListIsStrict(lim, depth, '*' as byte, es);
    case Set(es) => ListIsStrict(lim, depth, '~' as byte, es);
    case Push(es) => ListIsStrict(lim, depth, '>' as byte, es);
    case Map(ps) =>
      PairsAreStrict(lim, depth + 1, ps);
      LineIsStrict('%' as byte, |ps|, E.EncodePairs(ps));
      PrintedNat(|ps|);
  }

  lemma {:induction false} IntegerIsStrict(i: i64)
    ensures var w := E.Line(':' as byte, FormatInt(i)); StrictHeader(w, ':' as byte, i, |w|)
  {
    hide FormatInt, StrictHeader;
    LineIsStrict(':' as byte, i, []);
    var w := E.Line(':' as byte, FormatInt(i));
    assert w + [] == w;
  }

  lemma {:induction false} BulkIsStrict(mark: byte, s: bytes)
    requires |s| <= I64_MAX
    ensures StrictBulk(E.Bulk(mark, s), mark, s)
  {
    hide FormatInt, FormatNat, StrictHeader;
    LineIsStrict(mark, |s|, s + CRLF);
    PrintedNat(|s|);
    assert E.Bulk(mark, s) == E.Line(mark, FormatNat(|s|)) + (s + CRLF);
  }

  lemma {:induction false} ListIsStrict(lim: Limits, depth: nat, mark: byte, es: seq<Value>)
    requires WellFormedAll(lim, depth, es)
    ensures StrictList(E.Line(mark, FormatNat(|es|)) + E.EncodeAll(es), mark, es)
    decreases es, 1
  {
    hide FormatInt, FormatNat, StrictHeader;
    AllAreStrict(lim, depth + 1, es);
    LineIsStrict(mark, |es|, E.EncodeAll(es));
    PrintedNat(|es|);
  }

  lemma {:induction false} AllAreStrict(lim: Limits, depth: nat, es: seq<Value>)
    requires forall i :: 0 <= i < |es| ==> WellFormed(lim, depth, es[i])
    ensures StrictAll(E.EncodeAll(es), es)
    decreases es, 0
  {
    hide IsStrict, E.Encode, WellFormed;
    if es != [] {
      EncodingIsStrict(lim, depth, es[0]);
      AllAreStrict(lim, depth, es[1..]);
      var w, k := E.EncodeAll(es), |E.Encode(es[0])|;
      assert w[..k] == E.Encode(es[0]) && w[k..] == E.EncodeAll(es[1..]);
    }
  }

  lemma {:induction false} PairsAreStrict(lim: Limits, depth: nat, ps: seq<Pair>)
    requires forall i :: 0 <= i < |ps| ==> WellFormed(lim, depth, ps[i].key) && WellFormed(lim, depth, ps[i].value)
    ensures StrictPairs(E.EncodePairs(ps), ps)
    decreases ps, 0
  {
    hide IsStrict, WellFormed;
    if ps != [] {
      var p := ps[0];
      PairIsStrict(lim, depth, p);
      PairsAreStrict(lim, depth, ps[1..]);
      var w, j, k := E.EncodePairs(ps), |E.Encode(p.key)|, |E.EncodePair(p)|;
      assert w[..j] == E.Encode(p.key) && w[j..k] == E.Encode(p.value) && w[k..] == E.EncodePairs(ps[1..]);
    }
  }

  lemma {:induction false} PairIsStrict(lim: Limits, depth: nat, p: Pair)
    requires WellFormed(lim, depth, p.key) && WellFormed(lim, depth, p.value)
    ensures StrictPair(E.Encode(p.key), E.Encode(p.value), p)
    decreases p, 0
  {
    EncodingIsStrict(lim, depth, p.key);
    EncodingIsStrict(lim, depth, p.value);
  }

  /** For a well-formed value the strict frame, the encoding, is a frame, and nothing else is strict. */
  lemma {:induction false} StrictExactly(lim: Limits, depth: nat, w: bytes, v: Value)
    requires WellFormed(lim, depth, v)
    ensures IsStrict(w, v) <==> w == E.Encode(v)
    ensures IsStrict(w, v) ==> IsFrame(lim, depth, w, v)
  {
    hide IsStrict, IsFrame, E.Encode;
    EncodingIsStrict(lim, depth, v);
    EncodeIsFrame(lim, depth, v);
    if IsStrict(w, v) { StrictIsEncoding(w, v); }
  }
}
