/**
  * The RESP wire format as a grammar: which byte strings are a frame of which value. It follows the
  * sections of the Redis serialization protocol specification (and the leniency of the parser about
  * -1 lengths, signs, zero padding and boolean letters), and knows nothing about parser states.
  */
module RespGrammar {
  import opened Bytes
  import opened Decimal
  import opened RespTypes

  /** `w` opens with type byte `mark`, then decimal text for `n`, then CR LF ending before `body`. */
  predicate Header(w: bytes, mark: byte, n: int, body: int) {
    && 3 <= body <= |w|
    && w[0] == mark
    && w[body - 2..body] == CRLF
    && NumberText(w[1..body - 2], n)
  }

  predicate IsLine(w: bytes, mark: byte, s: bytes) {
    NoCrlf(s) && w == [mark] + s + CRLF
  }

  predicate IsNumber(w: bytes, mark: byte, n: int) {
    Header(w, mark, n, |w|)
  }

  ghost predicate IsBulk(lim: Limits, w: bytes, mark: byte, s: bytes) {
    && |s| <= lim.maxBulk
    && exists body :: Header(w, mark, |s|, body) && w[body..] == s + CRLF
  }

  /** An aggregate of `n` members fits the limits when `depth` aggregates are open around it. */
  predicate FitsAggregate(lim: Limits, depth: nat, n: nat) {
    n <= lim.maxArray && (n > 0 ==> depth < lim.maxDepth)
  }

  /** `w` is one complete frame of `v`. */
  ghost predicate IsFrame(lim: Limits, depth: nat, w: bytes, v: Value)
    decreases v
  {
    match v
    case SimpleString(s) => IsLine(w, '+' as byte, s)
    case Error(s) => IsLine(w, '-' as byte, s)
    case BigNumber(s) => IsLine(w, '(' as byte, s)
    case Integer(i) => IsNumber(w, ':' as byte, i)
    case BulkString(None) => IsNumber(w, '$' as byte, -1)
    case BulkString(Some(s)) => IsBulk(lim, w, '$' as byte, s)
    case BulkError(s) => IsBulk(lim, w, '!' as byte, s)
    case VerbatimString(f, d) => IsBulk(lim, w, '=' as byte, f + [':' as byte] + d)
    case Boolean(b) => |w| == 4 && w[0] == '#' as byte && w[2..] == CRLF && b == (w[1] == 't' as byte)
    case Null =>
      || w == ['_' as byte] + CRLF
      || IsNumber(w, '!' as byte, -1) || IsNumber(w, '=' as byte, -1)
      || IsNumber(w, '%' as byte, -1) || IsNumber(w, '~' as byte, -1)
    case NullArray => IsNumber(w, '*' as byte, -1)
    case Array(es) => IsList(lim, depth, w, '*' as byte, es)
    case Set(es) => IsList(lim, depth, w, '~' as byte, es)
    case Push(es) => IsList(lim, depth, w, '>' as byte, es)
    case Map(ps) =>
      && FitsAggregate(lim, depth, |ps|)
      && exists body :: Header(w, '%' as byte, |ps|, body) && IsPairs(lim, depth + 1, w[body..], ps)
  }

  ghost predicate IsList(lim: Limits, depth: nat, w: bytes, mark: byte, es: seq<Value>)
    decreases es, 2
  {
    && FitsAggregate(lim, depth, |es|)
    && exists body :: Header(w, mark, |es|, body) && IsFrames(lim, depth + 1, w[body..], es)
  }

  /** `w` is the concatenation of frames of `es`. */
  ghost predicate IsFrames(lim: Limits, depth: nat, w: bytes, es: seq<Value>)
    decreases es, 1
  {
    if es == [] then w == [] else exists k :: FirstFrame(lim, depth, w, es, k)
  }

  /** The first frame of a non-empty list ends at `k`. */
  ghost predicate FirstFrame(lim: Limits, depth: nat, w: bytes, es: seq<Value>, k: int)
    requires es != []
    decreases es, 0
  {
    0 <= k <= |w| && IsFrame(lim, depth, w[..k], es[0]) && IsFrames(lim, depth, w[k..], es[1..])
  }

  ghost predicate IsPairs(lim: Limits, depth: nat, w: bytes, ps: seq<Pair>)
    decreases ps, 1
  {
    if ps == [] then w == [] else exists j, k :: FirstPair(lim, depth, w, ps, j, k)
  }

  /** The first key of a non-empty map ends at `j` and its value at `k`. */
  ghost predicate FirstPair(lim: Limits, depth: nat, w: bytes, ps: seq<Pair>, j: int, k: int)
    requires ps != []
    decreases ps, 0
  {
    0 <= j <= k <= |w| && IsPair(lim, depth, w[..j], w[j..k], ps[0]) && IsPairs(lim, depth, w[k..], ps[1..])
  }

  ghost predicate IsPair(lim: Limits, depth: nat, wk: bytes, wv: bytes, p: Pair)
    decreases p
  {
    IsFrame(lim, depth, wk, p.key) && IsFrame(lim, depth, wv, p.value)
  }

  // ----- Facts about the grammar alone -----

  lemma {:induction false} FrameHasBytes(lim: Limits, depth: nat, w: bytes, v: Value)
    requires IsFrame(lim, depth, w, v)
    ensures |w| >= 3
  {
    hide ParseI64, IsFrames, IsPairs;
  }

  /** Where the first frame of a list ends. */
  lemma {:induction false} FramesCut(lim: Limits, depth: nat, w: bytes, es: seq<Value>) returns (k: nat)
    requires es != [] && IsFrames(lim, depth, w, es)
    ensures k <= |w| && IsFrame(lim, depth, w[..k], es[0]) && IsFrames(lim, depth, w[k..], es[1..])
  {
    k :| FirstFrame(lim, depth, w, es, k);
  }

  lemma {:induction false} FramesJoin(lim: Limits, depth: nat, w: bytes, es: seq<Value>, k: nat)
    requires es != [] && k <= |w|
    requires IsFrame(lim, depth, w[..k], es[0]) && IsFrames(lim, depth, w[k..], es[1..])
    ensures IsFrames(lim, depth, w, es)
  {
    assert FirstFrame(lim, depth, w, es, k);
  }

  /** Frames of the first elements of the tail, after the first frame, are frames of one more element. */
  lemma {:induction false} FramesPrepend(lim: Limits, depth: nat, w: bytes, es: seq<Value>, k: nat, b: nat, j: nat)
    requires es != [] && k + b <= |w| && j < |es|
    requires IsFrame(lim, depth, w[..k], es[0]) && IsFrames(lim, depth, w[k..][..b], es[1..][..j])
    ensures IsFrames(lim, depth, w[..k + b], es[..j + 1])
  {
    hide IsFrame, IsFrames;
    var x := w[..k + b];
    assert x[..k] == w[..k] && x[k..] == w[k..][..b] && es[..j + 1][1..] == es[1..][..j];
    FramesJoin(lim, depth, x, es[..j + 1], k);
  }

  lemma {:induction false} PairsCut(lim: Limits, depth: nat, w: bytes, ps: seq<Pair>) returns (j: nat, k: nat)
    requires ps != [] && IsPairs(lim, depth, w, ps)
    ensures j <= k <= |w| && IsPair(lim, depth, w[..j], w[j..k], ps[0]) && IsPairs(lim, depth, w[k..], ps[1..])
  {
    j, k :| FirstPair(lim, depth, w, ps, j, k);
  }

  /** Frames of lists concatenate. */
  lemma {:induction false} FramesConcat(lim: Limits, depth: nat, w1: bytes, es1: seq<Value>, w2: bytes, es2: seq<Value>)
    requires IsFrames(lim, depth, w1, es1) && IsFrames(lim, depth, w2, es2)
    ensures IsFrames(lim, depth, w1 + w2, es1 + es2)
    decreases |es1|
  {
    if es1 == [] {
      assert w1 + w2 == w2 && es1 + es2 == es2;
    } else {
      var k := FramesCut(lim, depth, w1, es1);
      FramesConcat(lim, depth, w1[k..], es1[1..], w2, es2);
      var w, es := w1 + w2, es1 + es2;
      assert w[..k] == w1[..k] && w[k..] == w1[k..] + w2;
      assert es[0] == es1[0] && es[1..] == es1[1..] + es2;
      FramesJoin(lim, depth, w, es, k);
    }
  }

  lemma {:induction false} OneFrame(lim: Limits, depth: nat, w: bytes, v: Value)
    requires IsFrame(lim, depth, w, v)
    ensures IsFrames(lim, depth, w, [v])
  {
    assert w[..|w|] == w && w[|w|..] == [] && [v][1..] == [];
    FramesJoin(lim, depth, w, [v], |w|);
  }

  /** A map's pairs are its keys and values read as one list. */
  lemma {:induction false} PairsAreFrames(lim: Limits, depth: nat, w: bytes, ps: seq<Pair>)
    ensures IsPairs(lim, depth, w, ps) <==> IsFrames(lim, depth, w, Flatten(ps))
    decreases |ps|
  {
    hide IsFrame;
    if ps != [] {
      if IsPairs(lim, depth, w, ps) {
        var j, k := PairsCut(lim, depth, w, ps);
        PairsAreFrames(lim, depth, w[k..], ps[1..]);
        PairIntro(lim, depth, w, ps, j, k);
      }
      if IsFrames(lim, depth, w, Flatten(ps)) {
        var j := FramesCut(lim, depth, w, Flatten(ps));
        var y := w[j..];
        assert Flatten(ps)[1..] != [];
        var m := FramesCut(lim, depth, y, Flatten(ps)[1..]);
        assert y[m..] == w[j + m..] && y[..m] == w[j..j + m];
        assert Flatten(ps)[1..][1..] == Flatten(ps[1..]);
        PairsAreFrames(lim, depth, w[j + m..], ps[1..]);
        assert FirstPair(lim, depth, w, ps, j, j + m);
      }
    }
  }

  lemma {:induction false} PairIntro(lim: Limits, depth: nat, w: bytes, ps: seq<Pair>, j: int, k: int)
    requires ps != [] && 0 <= j <= k <= |w|
    requires IsPair(lim, depth, w[..j], w[j..k], ps[0])
    requires IsFrames(lim, depth, w[k..], Flatten(ps[1..]))
    ensures IsFrames(lim, depth, w, Flatten(ps))
  {
    var flat, y := Flatten(ps), w[j..];
    assert flat[1..][1..] == Flatten(ps[1..]);
    assert y[..k - j] == w[j..k] && y[k - j..] == w[k..];
    FramesJoin(lim, depth, y, flat[1..], k - j);
    FramesJoin(lim, depth, w, flat, j);
  }
}
