/** Decimal printing and the integer parsing rules of Rust's `str::parse`. */
module Decimal {
  import opened Bytes

  const I64_MAX: int := 0x7FFF_FFFF_FFFF_FFFF
  const I64_MIN: int := -0x8000_0000_0000_0000
  const U64_MAX: int := 0xFFFF_FFFF_FFFF_FFFF

  type u64 = i: int | 0 <= i <= U64_MAX

  const PLUS: byte := '+' as byte
  const MINUS: byte := '-' as byte
  const ZERO: byte := '0' as byte

  predicate IsDigit(b: byte) {
    48 <= b <= 57
  }

  predicate AllDigits(s: bytes) {
    forall i :: 0 <= i < |s| ==> IsDigit(s[i])
  }

  function Digit(d: nat): (b: byte)
    requires d < 10
  {
    (48 + d) as byte
  }

  function DigitValue(b: byte): (d: nat)
    requires IsDigit(b)
  {
    b as int - 48
  }

  /** The number a digit string denotes; the empty string denotes zero. */
  function ValueOf(s: bytes): (n: nat)
    requires AllDigits(s)
  {
    if s == [] then 0 else 10 * ValueOf(s[..|s| - 1]) + DigitValue(s[|s| - 1])
  }

  /** Decimal digits of `n` without leading zeros (`to_string`). */
  function FormatNat(n: nat): (s: bytes)
    ensures |s| >= 1
  {
    if n < 10 then [Digit(n)] else FormatNat(n / 10) + [Digit(n % 10)]
  }

  /** The printed text is made of digits and denotes the number. */
  lemma {:induction false} FormatNatValue(n: nat)
    ensures AllDigits(FormatNat(n)) && ValueOf(FormatNat(n)) == n
  {
    var s := FormatNat(n);
    if n < 10 {
      assert s[..0] == [];
    } else {
      FormatNatValue(n / 10);
      assert s[..|s| - 1] == FormatNat(n / 10);
    }
  }

  function FormatInt(i: int): (s: bytes)
  {
    if i < 0 then [MINUS] + FormatNat(-i) else FormatNat(i)
  }

  /** A non-empty run of digits after an optional sign. */
  function ParseDigits(s: bytes): (r: Option<nat>)
    ensures r.Some? ==> s != [] && AllDigits(s) && r.value == ValueOf(s)
    ensures r.None? ==> s == [] || !AllDigits(s)
  {
    if s != [] && AllDigits(s) then Some(ValueOf(s)) else None
  }

  /** A non-empty run of digits. */
  predicate Digits(s: bytes) {
    s != [] && AllDigits(s)
  }

  /** `s` is a text of the number `i`: digits after an optional sign, and `i` fits an `i64`. */
  predicate NumberText(s: bytes, i: int) {
    && I64_MIN <= i <= I64_MAX
    && (|| (Digits(s) && i == ValueOf(s))
        || (s != [] && s[0] == PLUS && Digits(s[1..]) && i == ValueOf(s[1..]))
        || (s != [] && s[0] == MINUS && Digits(s[1..]) && -i == ValueOf(s[1..])))
  }

  /** `str::parse::<i64>`: one optional sign, then digits, then the range check. */
  function ParseI64(s: bytes): (r: Option<int>)
    ensures r.Some? ==> I64_MIN <= r.value <= I64_MAX && NumberText(s, r.value)
    ensures forall i :: NumberText(s, i) ==> r == Some(i)
  {
    if s == [] then None
    else
      var negative := s[0] == MINUS;
      var digits := if negative || s[0] == PLUS then s[1..] else s;
      match ParseDigits(digits)
      case None => None
      case Some(n) =>
        var m: int := n;
        var i := if negative then -m else m;
        if I64_MIN <= i <= I64_MAX then Some(i) else None
  }

  /** Parsing accepts exactly the texts of a number. */
  lemma {:induction false} ParseI64Exactly(s: bytes, i: int)
    ensures ParseI64(s) == Some(i) <==> NumberText(s, i)
  {
  }

  /** `s` is a text of the index `n`: digits after an optional plus, and `n` fits a `u64`. */
  predicate IndexText(s: bytes, n: nat) {
    && n <= U64_MAX
    && (|| (Digits(s) && n == ValueOf(s))
        || (s != [] && s[0] == PLUS && Digits(s[1..]) && n == ValueOf(s[1..])))
  }

  /** `str::parse::<u64>`: a leading minus is not a digit, a leading plus is skipped. */
  function ParseU64(s: bytes): (r: Option<nat>)
    ensures r.Some? ==> r.value <= U64_MAX && IndexText(s, r.value)
    ensures forall n: nat :: IndexText(s, n) ==> r == Some(n)
  {
    if s == [] then None
    else
      var digits := if s[0] == PLUS then s[1..] else s;
      match ParseDigits(digits)
      case None => None
      case Some(n) => if n <= U64_MAX then Some(n) else None
  }

  lemma {:induction false} ParseFormatI64(i: int)
    requires I64_MIN <= i <= I64_MAX
    ensures ParseI64(FormatInt(i)) == Some(i)
  {
    hide FormatNat, ValueOf;
    var s := FormatInt(i);
    if i < 0 {
      FormatNatValue(-i);
      assert s[1..] == FormatNat(-i);
      assert ParseDigits(s[1..]) == Some(-i);
    } else {
      FormatNatValue(i);
      assert IsDigit(s[0]);
      assert ParseDigits(s) == Some(i);
    }
  }

  /** Text that parses as an integer holds no terminator byte. */
  lemma {:induction false} ParsedHasNoCr(s: bytes)
    requires ParseI64(s).Some?
    ensures CR !in s && LF !in s && NoCrlf(s)
  {
    var digits := if s[0] == MINUS || s[0] == PLUS then s[1..] else s;
    assert AllDigits(digits);
    forall i | 0 <= i < |s| ensures s[i] != CR && s[i] != LF {
      if |digits| < |s| && i > 0 { assert s[i] == digits[i - 1]; }
    }
  }

  function Pow10(k: nat): (p: nat)
    ensures p >= 1
  {
    if k == 0 then 1 else 10 * Pow10(k - 1)
  }

  /** A number prints in at most `k` digits exactly when it is below ten to the `k`. */
  lemma {:induction false} FormatNatLength(n: nat, k: nat)
    requires k >= 1
    ensures |FormatNat(n)| <= k <==> n < Pow10(k)
    decreases k
  {
    assert Pow10(1) == 10 * Pow10(0);
    if k > 1 && n >= 10 {
      FormatNatLength(n / 10, k - 1);
    }
  }
}
