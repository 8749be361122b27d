/** Bytes, options and the CR LF terminator shared by every module. */
module Bytes {
  newtype byte = i: int | 0 <= i < 256

  type bytes = seq<byte>

  datatype Option<+T> = None | Some(value: T)

  const CR: byte := 13
  const LF: byte := 10
  const CRLF: bytes := [CR, LF]

  /** A carriage return at `i` followed by a line feed. */
  predicate CrlfAt(s: bytes, i: int) {
    0 <= i < |s| - 1 && s[i] == CR && s[i + 1] == LF
  }

  predicate NoCrlf(s: bytes) {
    forall i :: 0 <= i < |s| ==> !CrlfAt(s, i)
  }

  /** Position of the first CR LF pair (`find_crlf`). */
  function FindCrlf(s: bytes): (r: Option<nat>)
    ensures r.Some? ==> CrlfAt(s, r.value)
    ensures r.Some? ==> forall i :: 0 <= i < r.value ==> !CrlfAt(s, i)
    ensures r.None? ==> NoCrlf(s)
  {
    FindFrom(s, 0)
  }

  function FindFrom(s: bytes, from: nat): (r: Option<nat>)
    requires from <= |s|
    ensures r.Some? ==> r.value >= from && CrlfAt(s, r.value)
    ensures r.Some? ==> forall i :: from <= i < r.value ==> !CrlfAt(s, i)
    ensures r.None? ==> forall i :: from <= i < |s| ==> !CrlfAt(s, i)
    decreases |s| - from
  {
    if |s| - from < 2 then None
    else if CrlfAt(s, from) then Some(from)
    else FindFrom(s, from + 1)
  }

  lemma {:induction false} FirstCrlf(s: bytes, p: nat)
    requires CrlfAt(s, p) && forall i :: 0 <= i < p ==> !CrlfAt(s, i)
    ensures FindCrlf(s) == Some(p)
  {
  }

  /** The first CR LF of `s + CRLF + t` is the one after `s`, when `s` itself has none. */
  lemma {:induction false} FindCrlfAfter(s: bytes, t: bytes)
    requires NoCrlf(s)
    ensures FindCrlf(s + CRLF + t) == Some(|s|)
  {
    var w := s + CRLF + t;
    assert CrlfAt(w, |s|);
    forall i | 0 <= i < |s| ensures !CrlfAt(w, i) {
      assert !CrlfAt(s, i);
    }
    FirstCrlf(w, |s|);
  }

  /** Cutting a CR LF pair in two is the only way `x` and `y` can hide a terminator of `x + y`. */
  predicate SplitsCrlf(x: bytes, y: bytes) {
    x != [] && y != [] && x[|x| - 1] == CR && y[0] == LF
  }

  lemma {:induction false} FindCrlfSplit(x: bytes, y: bytes)
    requires NoCrlf(x) && !SplitsCrlf(x, y)
    ensures FindCrlf(x + y) == match FindCrlf(y) case None => None case Some(p) => Some(|x| + p)
  {
    var w := x + y;
    forall i | 0 <= i < |x| ensures !CrlfAt(w, i) {
      assert !CrlfAt(x, i);
    }
    forall i | 0 <= i < |y| ensures CrlfAt(w, |x| + i) == CrlfAt(y, i) {
    }
    match FindCrlf(y)
    case None =>
      forall i | 0 <= i < |w| ensures !CrlfAt(w, i) {
        if i >= |x| { assert !CrlfAt(y, i - |x|); }
      }
      assert NoCrlf(w);
    case Some(p) =>
      forall i | 0 <= i < |x| + p ensures !CrlfAt(w, i) {
        if i >= |x| { assert !CrlfAt(y, i - |x|); }
      }
      FirstCrlf(w, |x| + p);
  }
}
