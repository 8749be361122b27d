/** Where a frame of a value can lie inside another frame of the same value: at its start only. */
module RespInfix {
  import opened Bytes
  import opened Decimal
  import opened RespTypes
  import opened RespParser
  import opened RespGrammar
  import opened RespRefinement
  import opened RespCuts

  /** `x` stands in `w` from position `o` on. */
  predicate InfixAt(x: bytes, w: bytes, o: nat) {
    o + |x| <= |w| && w[o..o + |x|] == x
  }

  lemma {:induction false} InfixByte(x: bytes, w: bytes, o: nat, i: nat)
    requires InfixAt(x, w, o) && i < |x|
    ensures w[o + i] == x[i]
  {
  }

  /** The part of `x` after its first `i` bytes stands `i` bytes later. */
  lemma {:induction false} InfixTail(x: bytes, w: bytes, o: nat, i: nat)
    requires InfixAt(x, w, o) && i <= |x|
    ensures InfixAt(x[i..], w, o + i) && InfixAt(x[..i], w, o)
  {
    assert w[o..o + |x|][i..] == w[o + i..o + |x|] && w[o..o + |x|][..i] == w[o..o + i];
  }

  /** What stands in the tail or in the head of `w`. */
  lemma {:induction false} InfixOf(x: bytes, w: bytes, o: nat, k: nat)
    requires InfixAt(x, w, o) && k <= |w|
    ensures k <= o ==> InfixAt(x, w[k..], o - k)
    ensures o + |x| <= k ==> InfixAt(x, w[..k], o)
  {
    if k <= o { assert w[k..][o - k..o - k + |x|] == w[o..o + |x|]; }
    if o + |x| <= k { assert w[..k][o..o + |x|] == w[o..o + |x|]; }
  }

  /** A byte that can open a frame: no part of a number and no part of a terminator. */
  predicate TypeByte(b: byte) {
    IsMark(b) && b != CR && b != LF
  }

  /** A type byte inside a frame that opens with a header lies at its start or in its body. */
  lemma {:induction false} MarkPosition(w: bytes, mark: byte, n: int, body: int, o: nat)
    requires Header(w, mark, n, body) && o < |w| && TypeByte(w[o])
    ensures o == 0 || o >= body
  {
    hide ParseI64;
    assert w[body - 2] == w[body - 2..body][0] && w[body - 1] == w[body - 2..body][1];
    if 1 <= o < body - 2 { HeaderText(w, mark, n, body, o); }
  }

  lemma {:induction false} NumberInfix(x: bytes, m1: byte, n1: int, w: bytes, m2: byte, n2: int, o: nat)
    requires IsNumber(x, m1, n1) && IsNumber(w, m2, n2) && TypeByte(m1) && InfixAt(x, w, o)
    ensures o == 0
  {
    hide ParseI64, TypeByte, InfixAt;
    InfixByte(x, w, o, 0);
    InfixFits(x, w, o);
    MarkPosition(w, m2, n2, |w|, o);
  }

  lemma {:induction false} InfixFits(x: bytes, w: bytes, o: nat)
    requires InfixAt(x, w, o)
    ensures o + |x| <= |w|
  {
  }

  lemma {:induction false} NullType(lim: Limits, w: bytes, depth: nat)
    requires IsFrame(lim, depth, w, Null)
    ensures w != [] && TypeByte(w[0])
  {
    hide ParseI64;
  }

  lemma {:induction false} NullInfix(lim: Limits, d1: nat, x: bytes, d2: nat, w: bytes, o: nat)
    requires IsFrame(lim, d1, x, Null) && IsFrame(lim, d2, w, Null) && InfixAt(x, w, o)
    ensures o == 0
  {
    NullType(lim, x, d1);
    hide IsFrame, ParseI64, TypeByte;
    NullForm(lim, x, d1);
    NullForm(lim, w, d2);
    FrameHasBytes(lim, d1, x, Null);
    InfixByte(x, w, o, 0);
    if w[0] != NULL_MARK { MarkPosition(w, w[0], -1, |w|, o); }
  }

  lemma {:induction false} BulkInfix(lim: Limits, x: bytes, w: bytes, mark: byte, s: bytes, o: nat)
    requires IsBulk(lim, x, mark, s) && IsBulk(lim, w, mark, s) && TypeByte(mark) && InfixAt(x, w, o)
    ensures o == 0
  {
    hide ParseI64, TypeByte;
    var b1 :| Header(x, mark, |s|, b1) && x[b1..] == s + CRLF;
    var b2 :| Header(w, mark, |s|, b2) && w[b2..] == s + CRLF;
    assert |x[b1..]| == |w[b2..]|;
    InfixByte(x, w, o, 0);
    MarkPosition(w, mark, |s|, b2, o);
  }

  lemma {:induction false} FrameInfix(lim: Limits, d1: nat, x: bytes, d2: nat, w: bytes, v: Value, o: nat)
    requires IsFrame(lim, d1, x, v) && IsFrame(lim, d2, w, v) && InfixAt(x, w, o)
    ensures o == 0
    decreases |w|, 0
  {
    hide ParseI64, NoCrlf, IsList, IsPairs, InfixAt, IsBulk, IsNumber, IsLine, TypeByte;
    TypeBytes();
    match v
    case SimpleString(t) => LineInfix(x, w, '+' as byte, t, o);
    case Error(t) => LineInfix(x, w, '-' as byte, t, o);
    case BigNumber(t) => LineInfix(x, w, '(' as byte, t, o);
    case Boolean(_) => InfixFits(x, w, o);
    case Integer(i) => NumberInfix(x, ':' as byte, i, w, ':' as byte, i, o);
    case BulkString(None) => NumberInfix(x, '$' as byte, -1, w, '$' as byte, -1, o);
    case NullArray => NumberInfix(x, '*' as byte, -1, w, '*' as byte, -1, o);
    case Null => NullInfix(lim, d1, x, d2, w, o);
    case BulkString(Some(s)) => BulkInfix(lim, x, w, '$' as byte, s, o);
    case BulkError(s) => BulkInfix(lim, x, w, '!' as byte, s, o);
    case VerbatimString(f, d) => BulkInfix(lim, x, w, '=' as byte, f + [':' as byte] + d, o);
    case _ => AggregateInfix(lim, d1, x, d2, w, v, o);
  }

  lemma {:induction false} TypeBytes()
    ensures TypeByte(':' as byte) && TypeByte('$' as byte) && TypeByte('*' as byte)
    ensures TypeByte('!' as byte) && TypeByte('=' as byte)
  {
  }

  lemma {:induction false} LineInfix(x: bytes, w: bytes, mark: byte, s: bytes, o: nat)
    requires IsLine(x, mark, s) && IsLine(w, mark, s) && InfixAt(x, w, o)
    ensures o == 0
  {
    hide NoCrlf;
    InfixFits(x, w, o);
  }

  lemma {:induction false} AggregateInfix(lim: Limits, d1: nat, x: bytes, d2: nat, w: bytes, v: Value, o: nat)
    requires IsAggregate(v) && IsFrame(lim, d1, x, v) && IsFrame(lim, d2, w, v) && InfixAt(x, w, o)
    ensures o == 0
    decreases |w| - 1, 4
  {
    hide IsFrame, IsFrames, ParseI64, TypeByte, InfixAt;
    var p := PartsOf(v);
    var b1 := AggregateFrame(lim, d1, x, v);
    var b2 := AggregateFrame(lim, d2, w, v);
    InfixFits(x, w, o);
    InfixByte(x, w, o, 0);
    AggMarkOpens(p.kind);
    MarkPosition(w, AggMark(p.kind), p.count, b2, o);
    if o != 0 {
      InfixTail(x, w, o, b1);
      InfixOf(x[b1..], w, o + b1, b2);
      if p.flat == [] {
        NoBody(lim, d2 + 1, w[b2..]);
      } else {
        FramesInfix(lim, d1 + 1, x[b1..], d2 + 1, w[b2..], p.flat, o + b1 - b2);
      }
    }
  }

  lemma {:induction false} AggMarkOpens(k: AggKind)
    ensures TypeByte(AggMark(k))
  {
  }

  lemma {:induction false} NoBody(lim: Limits, depth: nat, w: bytes)
    requires IsFrames(lim, depth, w, [])
    ensures w == []
  {
  }

  /** No frames of a list of values stand inside other frames of that list, but at their start. */
  lemma {:induction false} FramesInfix(lim: Limits, d1: nat, x: bytes, d2: nat, w: bytes, es: seq<Value>, o: nat)
    requires es != [] && IsFrames(lim, d1, x, es) && IsFrames(lim, d2, w, es) && InfixAt(x, w, o)
    ensures o == 0
    decreases |w|, 2, |es|
  {
    hide IsFrame, IsFrames, InfixAt, IsSuffix;
    var k1 := FramesCut(lim, d1, x, es);
    var k2 := FramesCut(lim, d2, w, es);
    InfixFits(x, w, o);
    InfixTail(x, w, o, k1);
    var a, b := x[..k1], w[..k2];
    if o + k1 <= k2 {
      InfixOf(a, w, o, k2);
      FrameInfix(lim, d1, a, d2, b, es[0], o);
    } else if es[1..] == [] {
      LastFrame(lim, d2, w, es, k2);
    } else {
      InfixOf(x[k1..], w, o + k1, k2);
      FrameHasBytes(lim, d2, b, es[0]);
      FramesInfix(lim, d1, x[k1..], d2, w[k2..], es[1..], o + k1 - k2);
    }
  }

  lemma {:induction false} LastFrame(lim: Limits, depth: nat, w: bytes, es: seq<Value>, k: nat)
    requires k <= |w| && es != [] && es[1..] == [] && IsFrames(lim, depth, w[k..], es[1..])
    ensures k == |w|
  {
    NoBody(lim, depth, w[k..]);
  }
}
