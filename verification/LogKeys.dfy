/** Keys of the Raft log families and their byte-lexicographic order. */
module LogKeys {
  import opened Bytes
  import opened Decimal

  /** RocksDB's default order: byte by byte, a proper prefix first. */
  predicate Below(a: bytes, b: bytes) {
    b != [] && (a == [] || a[0] < b[0] || (a[0] == b[0] && Below(a[1..], b[1..])))
  }

  predicate AtMost(a: bytes, b: bytes) {
    a == b || Below(a, b)
  }

  lemma {:induction false} BelowIrreflexive(a: bytes)
    ensures !Below(a, a)
    decreases |a|
  {
    if a != [] { BelowIrreflexive(a[1..]); }
  }

  lemma {:induction false} BelowTransitive(a: bytes, b: bytes, c: bytes)
    requires Below(a, b) && Below(b, c)
    ensures Below(a, c)
    decreases |a|
  {
    if a != [] && a[0] == b[0] == c[0] { BelowTransitive(a[1..], b[1..], c[1..]); }
  }

  lemma {:induction false} BelowTotal(a: bytes, b: bytes)
    ensures a == b || Below(a, b) || Below(b, a)
    decreases |a|
  {
    if a != [] && b != [] && a[0] == b[0] {
      BelowTotal(a[1..], b[1..]);
      if a[1..] == b[1..] { assert a == [a[0]] + a[1..] && b == [b[0]] + b[1..]; }
    }
  }

  lemma {:induction false} BelowAsymmetric(a: bytes, b: bytes)
    requires Below(a, b)
    ensures !Below(b, a) && a != b
  {
    BelowIrreflexive(a);
    if Below(b, a) { BelowTransitive(a, b, a); }
  }

  /** A common prefix does not matter. */
  lemma {:induction false} BelowAfterPrefix(p: bytes, a: bytes, b: bytes)
    ensures Below(p + a, p + b) <==> Below(a, b)
    decreases |p|
  {
    if p == [] {
      assert p + a == a && p + b == b;
    } else {
      assert (p + a)[1..] == p[1..] + a && (p + b)[1..] == p[1..] + b;
      BelowAfterPrefix(p[1..], a, b);
    }
  }

  /** Of equally long strings the last byte only decides ties. */
  lemma {:induction false} BelowLastByte(a: bytes, b: bytes, x: byte, y: byte)
    requires |a| == |b|
    ensures Below(a + [x], b + [y]) <==> Below(a, b) || (a == b && x < y)
    decreases |a|
  {
    if a == [] {
      assert a + [x] == [x] && b + [y] == [y];
    } else {
      assert (a + [x])[1..] == a[1..] + [x] && (b + [y])[1..] == b[1..] + [y];
      BelowLastByte(a[1..], b[1..], x, y);
      assert a == [a[0]] + a[1..] && b == [b[0]] + b[1..];
    }
  }

  // ----- Twenty-digit keys -----

  function Zeros(n: int): (s: bytes) {
    if n <= 0 then [] else Zeros(n - 1) + [ZERO]
  }

  lemma {:induction false} ZerosValue(n: nat)
    ensures |Zeros(n)| == n && AllDigits(Zeros(n)) && ValueOf(Zeros(n)) == 0
  {
    if n > 0 {
      ZerosValue(n - 1);
      assert Zeros(n)[..n - 1] == Zeros(n - 1);
    }
  }

  lemma {:induction false} LeadingZeros(n: nat, s: bytes)
    requires AllDigits(s)
    ensures AllDigits(Zeros(n) + s) && ValueOf(Zeros(n) + s) == ValueOf(s)
    decreases |s|
  {
    ZerosValue(n);
    var w := Zeros(n) + s;
    if s == [] {
      assert w == Zeros(n);
    } else {
      var p := s[..|s| - 1];
      LeadingZeros(n, p);
      assert w[..|w| - 1] == Zeros(n) + p;
    }
  }

  lemma {:induction false} Pow20()
    ensures Pow10(20) == 100_000_000_000_000_000_000
  {
    assert Pow10(5) == 100_000;
    assert Pow10(10) == 10_000_000_000;
    assert Pow10(15) == 1_000_000_000_000_000;
  }

  lemma {:induction false} IndexDigits(i: nat)
    requires i <= U64_MAX
    ensures |FormatNat(i)| <= 20
  {
    Pow20();
    FormatNatLength(i, 20);
  }

  const LOG_PREFIX: bytes := ['l' as byte, 'o' as byte, 'g' as byte, ':' as byte]

  /** `{:020}`: at least twenty digits. */
  function Padded(i: nat): (s: bytes) {
    Zeros(20 - |FormatNat(i)|) + FormatNat(i)
  }

  /** A `u64` takes exactly twenty. */
  lemma {:induction false} PaddedValue(i: nat)
    requires i <= U64_MAX
    ensures |Padded(i)| == 20 && AllDigits(Padded(i)) && ValueOf(Padded(i)) == i
  {
    IndexDigits(i);
    FormatNatValue(i);
    ZerosValue(20 - |FormatNat(i)|);
    LeadingZeros(20 - |FormatNat(i)|, FormatNat(i));
  }

  /** `format_log_key`. */
  function LogKey(i: nat): (k: bytes) {
    LOG_PREFIX + Padded(i)
  }

  /** `parse_log_key`. */
  function ParseLogKey(k: bytes): (r: Option<nat>)
    ensures r.Some? ==> r.value <= U64_MAX
  {
    if LOG_PREFIX <= k then ParseU64(k[4..]) else None
  }

  /** Parsing inverts formatting. */
  lemma {:induction false} ParseFormatLogKey(i: nat)
    requires i <= U64_MAX
    ensures ParseLogKey(LogKey(i)) == Some(i)
  {
    PaddedValue(i);
    var d := Padded(i);
    assert LogKey(i)[4..] == d;
    assert IsDigit(d[0]);
  }

  /** A log key is `log:` and the twenty digits of its index. */
  lemma {:induction false} LogKeyForm(i: nat)
    requires i <= U64_MAX
    ensures var k := LogKey(i);
            && |k| == 24 && k[..4] == ['l' as byte, 'o' as byte, 'g' as byte, ':' as byte]
            && AllDigits(k[4..]) && ValueOf(k[4..]) == i
  {
    PaddedValue(i);
    assert LogKey(i)[4..] == Padded(i);
  }

  lemma {:induction false} LogKeyInjective(i: nat, j: nat)
    requires i <= U64_MAX && j <= U64_MAX && LogKey(i) == LogKey(j)
    ensures i == j
  {
    ParseFormatLogKey(i);
    ParseFormatLogKey(j);
  }

  lemma {:induction false} DigitOrder(a: bytes, b: bytes)
    requires AllDigits(a) && AllDigits(b) && |a| == |b|
    ensures Below(a, b) <==> ValueOf(a) < ValueOf(b)
    ensures a == b <==> ValueOf(a) == ValueOf(b)
    decreases |a|
  {
    hide Below;
    if a != [] {
      var n := |a| - 1;
      var x, y := a[..n], b[..n];
      DigitOrder(x, y);
      BelowLastByte(x, y, a[n], b[n]);
      assert a == x + [a[n]] && b == y + [b[n]];
    } else {
      BelowIrreflexive(a);
    }
  }

  /** Byte-lexicographic order of log keys is numeric order. */
  lemma {:induction false} LogKeyOrder(i: nat, j: nat)
    requires i <= U64_MAX && j <= U64_MAX
    ensures Below(LogKey(i), LogKey(j)) <==> i < j
  {
    PaddedValue(i);
    PaddedValue(j);
    BelowAfterPrefix(LOG_PREFIX, Padded(i), Padded(j));
    DigitOrder(Padded(i), Padded(j));
  }

  // ----- Metadata keys -----

  const LAST_LOG_ID_KEY: bytes := Ascii("__last_log_id")
  const LAST_PURGED_LOG_ID_KEY: bytes := Ascii("__last_purged_log_id")

  function Ascii(s: string): (b: bytes) {
    seq(|s|, i requires 0 <= i < |s| => if s[i] < 128 as char then s[i] as byte else 0)
  }

  predicate IsMetaKey(k: bytes) {
    k == LAST_LOG_ID_KEY || k == LAST_PURGED_LOG_ID_KEY
  }

  /** Metadata keys sort below every log key and are not log keys themselves. */
  lemma {:induction false} MetaBelowLog(k: bytes, i: nat)
    requires IsMetaKey(k) && i <= U64_MAX
    ensures Below(k, LogKey(i)) && ParseLogKey(k) == None
  {
    assert k[0] == '_' as byte;
    assert LogKey(i)[0] == 'l' as byte;
  }

  lemma {:induction false} MetaKeysDiffer()
    ensures LAST_LOG_ID_KEY != LAST_PURGED_LOG_ID_KEY
  {
    assert |LAST_LOG_ID_KEY| == 13 && |LAST_PURGED_LOG_ID_KEY| == 20;
  }
}
