/** The RESP encoder (crates/resp/src/encoder.rs). */
module RespEncoder {
  import opened Bytes
  import opened Decimal
  import opened RespTypes
  import opened Buffers

  function Line(mark: byte, text: bytes): (w: bytes) {
    [mark] + text + CRLF
  }

  function Bulk(mark: byte, s: bytes): (w: bytes) {
    Line(mark, FormatNat(|s|)) + s + CRLF
  }

  /** The wire form of a value. */
  function Encode(v: Value): (w: bytes)
    decreases v
  {
    match v
    case SimpleString(s) => Line('+' as byte, s)
    case Error(s) => Line('-' as byte, s)
    case Integer(i) => Line(':' as byte, FormatInt(i))
    case BulkString(None) => Line('$' as byte, FormatInt(-1))
    case BulkString(Some(s)) => Bulk('$' as byte, s)
    case NullArray => Line('*' as byte, FormatInt(-1))
    case Array(es) => Line('*' as byte, FormatNat(|es|)) + EncodeAll(es)
    case Null => ['_' as byte] + CRLF
    case Boolean(b) => ['#' as byte, if b then 't' as byte else 'f' as byte] + CRLF
    case BigNumber(s) => Line('(' as byte, s)
    case BulkError(s) => Bulk('!' as byte, s)
    case VerbatimString(f, d) => Bulk('=' as byte, f + [':' as byte] + d)
    case Map(ps) => Line('%' as byte, FormatNat(|ps|)) + EncodePairs(ps)
    case Set(es) => Line('~' as byte, FormatNat(|es|)) + EncodeAll(es)
    case Push(es) => Line('>' as byte, FormatNat(|es|)) + EncodeAll(es)
  }

  function EncodeAll(es: seq<Value>): (w: bytes)
    decreases es
  {
    if es == [] then [] else Encode(es[0]) + EncodeAll(es[1..])
  }

  function EncodePairs(ps: seq<Pair>): (w: bytes)
    decreases ps
  {
    if ps == [] then []
    else
      var p := ps[0];
      EncodePair(p) + EncodePairs(ps[1..])
  }

  function EncodePair(p: Pair): (w: bytes)
    decreases p
  {
    Encode(p.key) + Encode(p.value)
  }

  lemma {:induction false} EncodeAllSnoc(es: seq<Value>, v: Value)
    ensures EncodeAll(es + [v]) == EncodeAll(es) + Encode(v)
    decreases |es|
  {
    if es == [] {
      assert [v][1..] == [];
    } else {
      assert (es + [v])[1..] == es[1..] + [v];
      EncodeAllSnoc(es[1..], v);
    }
  }

  lemma {:induction false} EncodePairsSnoc(ps: seq<Pair>, p: Pair)
    ensures EncodePairs(ps + [p]) == EncodePairs(ps) + EncodePair(p)
    decreases |ps|
  {
    if ps == [] {
      assert [p][1..] == [];
    } else {
      assert (ps + [p])[1..] == ps[1..] + [p];
      EncodePairsSnoc(ps[1..], p);
    }
  }

  /** `RespEncoder::encode`: appends the wire form to the buffer. */
  method EncodeTo(v: Value, buf: Buffer)
    modifies buf
    ensures buf.data == old(buf.data) + Encode(v)
    decreases v, 2
  {
    match v
    case SimpleString(s) => PutLine('+' as byte, s, buf);
    case Error(s) => PutLine('-' as byte, s, buf);
    case Integer(i) => PutLine(':' as byte, FormatInt(i), buf);
    case BulkString(None) => PutLine('$' as byte, FormatInt(-1), buf);
    case BulkString(Some(s)) => PutBulk('$' as byte, s, buf);
    case NullArray => PutLine('*' as byte, FormatInt(-1), buf);
    case Array(es) => PutList('*' as byte, es, buf);
    case Null => buf.Put(['_' as byte] + CRLF);
    case Boolean(b) => buf.Put(['#' as byte, if b then 't' as byte else 'f' as byte] + CRLF);
    case BigNumber(s) => PutLine('(' as byte, s, buf);
    case BulkError(s) => PutBulk('!' as byte, s, buf);
    case VerbatimString(f, d) => PutBulk('=' as byte, f + [':' as byte] + d, buf);
    case Map(ps) => PutMap('%' as byte, ps, buf);
    case Set(es) => PutList('~' as byte, es, buf);
    case Push(es) => PutList('>' as byte, es, buf);
  }

  method PutLine(mark: byte, text: bytes, buf: Buffer)
    modifies buf
    ensures buf.data == old(buf.data) + Line(mark, text)
  {
    buf.Put([mark]);
    buf.Put(text);
    buf.Put(CRLF);
  }

  method PutBulk(mark: byte, s: bytes, buf: Buffer)
    modifies buf
    ensures buf.data == old(buf.data) + Bulk(mark, s)
  {
    PutLine(mark, FormatNat(|s|), buf);
    buf.Put(s);
    buf.Put(CRLF);
  }

  method PutList(mark: byte, es: seq<Value>, buf: Buffer)
    modifies buf
    ensures buf.data == old(buf.data) + (Line(mark, FormatNat(|es|)) + EncodeAll(es))
    decreases es, 1
  {
    PutLine(mark, FormatNat(|es|), buf);
    PutAll(es, buf);
  }

  method PutMap(mark: byte, ps: seq<Pair>, buf: Buffer)
    modifies buf
    ensures buf.data == old(buf.data) + (Line(mark, FormatNat(|ps|)) + EncodePairs(ps))
    decreases ps, 1
  {
    PutLine(mark, FormatNat(|ps|), buf);
    PutPairs(ps, buf);
  }

  method PutAll(es: seq<Value>, buf: Buffer)
    modifies buf
    ensures buf.data == old(buf.data) + EncodeAll(es)
    decreases es, 0
  {
    for i := 0 to |es|
      invariant buf.data == old(buf.data) + EncodeAll(es[..i])
    {
      EncodeAllSnoc(es[..i], es[i]);
      assert es[..i + 1] == es[..i] + [es[i]];
      EncodeTo(es[i], buf);
    }
    assert es[..|es|] == es;
  }

  method PutPairs(ps: seq<Pair>, buf: Buffer)
    modifies buf
    ensures buf.data == old(buf.data) + EncodePairs(ps)
    decreases ps, 0
  {
    hide EncodePair;
    for i := 0 to |ps|
      invariant buf.data == old(buf.data) + EncodePairs(ps[..i])
    {
      EncodePairsSnoc(ps[..i], ps[i]);
      assert ps[..i + 1] == ps[..i] + [ps[i]];
      PutPair(ps[i], buf);
    }
    assert ps[..|ps|] == ps;
  }

  method PutPair(p: Pair, buf: Buffer)
    modifies buf
    ensures buf.data == old(buf.data) + EncodePair(p)
    decreases p, 0
  {
    EncodeTo(p.key, buf);
    EncodeTo(p.value, buf);
  }
}
