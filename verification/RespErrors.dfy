/**
  * What the parser refuses, and how: for every buffer the error, the state, the depth and the bytes it
  * leaves, as a relation over the text of the buffer.
  */
module RespErrors {
  import opened Bytes
  import opened Decimal
  import opened RespTypes
  import opened RespParser
  import opened RespGrammar
  import opened RespRefinement
  import opened RespDepth

  ghost predicate NoNumber(line: bytes) {
    forall i :: !NumberText(line, i)
  }

  /** A type byte that opens nothing. */
  predicate BadMark(depth: nat, buf: bytes, o: Outcome) {
    && buf != []
    && buf[0] !in {'+' as byte, '-' as byte, ':' as byte, '$' as byte, '*' as byte, '_' as byte, '#' as byte, '(' as byte,
                   '!' as byte, '=' as byte, '%' as byte, '~' as byte, '>' as byte}
    && o == Outcome(Failed(if buf[0] == ',' as byte then DoubleNotModelled else InvalidTypeMarker(buf[0])),
                    WaitingForType, depth, buf[1..])
  }

  /** A null or boolean of full length without its terminator. */
  predicate BadShort(depth: nat, buf: bytes, o: Outcome) {
    && buf != []
    && (|| (buf[0] == '_' as byte && |buf| >= 3 && buf[1..3] != CRLF)
        || (buf[0] == '#' as byte && |buf| >= 4 && buf[2..4] != CRLF))
    && o == Outcome(Failed(InvalidLength), WaitingForType, depth, buf[1..])
  }

  /** A complete integer line that is no number. */
  ghost predicate BadInteger(depth: nat, buf: bytes, line: bytes, rest: bytes, o: Outcome) {
    && buf == Opened(':' as byte, line, rest) && NoCrlf(line) && NoNumber(line)
    && o == Outcome(Failed(InvalidLength), Line(IntegerLine, line), depth, rest)
  }

  /** A complete bulk length that is refused. */
  ghost predicate BadBulkLength(lim: Limits, k: BulkKind, line: bytes, e: ParseError) {
    || (NoNumber(line) && e == InvalidLength)
    || (exists n :: NumberText(line, n) &&
                    (|| (n < -1 && e == InvalidLength)
                     || (n > lim.maxBulk && e == BulkStringTooLarge(n, lim.maxBulk))
                     || (k.VerbatimBulk? && 0 <= n <= lim.maxBulk && n < 4 && e == InvalidLength)))
  }

  /** Bulk data of `n` bytes whose trailer or format prefix is wrong. */
  predicate BadBulkData(k: BulkKind, line: bytes, n: nat, depth: nat, rest: bytes, o: Outcome) {
    && n + 2 <= |rest|
    && if rest[n..n + 2] != CRLF then
         o == Outcome(Failed(InvalidLength),
                      if n == 0 && !k.VerbatimBulk? then BulkLen(k, line) else BulkData(k, n, rest[..n]), depth, rest)
       else
         && k.VerbatimBulk? && n >= 4 && rest[3] != ':' as byte
         && o == Outcome(Failed(InvalidLength), BulkData(k, n, rest[..n]), depth, rest[n + 2..])
  }

  predicate FitsBulk(lim: Limits, k: BulkKind, n: int) {
    0 <= n <= lim.maxBulk && (k.VerbatimBulk? ==> n >= 4)
  }

  ghost predicate BadBulk(lim: Limits, depth: nat, k: BulkKind, line: bytes, rest: bytes, o: Outcome) {
    || (o.result.Failed? && BadBulkLength(lim, k, line, o.result.error) && o == Outcome(o.result, BulkLen(k, line), depth, rest))
    || (exists n :: NumberText(line, n) && FitsBulk(lim, k, n) && BadBulkData(k, line, n, depth, rest, o))
  }

  /** A complete aggregate length that is refused; only a push has no null. */
  ghost predicate BadAggLength(lim: Limits, k: AggKind, depth: nat, line: bytes, e: ParseError) {
    || (NoNumber(line) && e == InvalidLength)
    || (exists n :: NumberText(line, n) &&
                    (|| ((n < -1 || (n == -1 && k.PushAgg?)) && e == InvalidLength)
                     || (n > lim.maxArray && e == ArrayTooLarge(n, lim.maxArray))
                     || (0 < n <= lim.maxArray && depth >= lim.maxDepth && e == NestingTooDeep)))
  }

  /** Complete elements `x`, then an element `y` that is refused. */
  ghost predicate BadElement(lim: Limits, k: AggKind, n: int, depth: nat, rest: bytes, x: bytes, es: seq<Value>, y: bytes, o: Outcome)
    requires |y| <= |rest|
    decreases |rest|, 2
  {
    && n > 0 && FitsAggregate(lim, depth, n) && rest == x + y
    && IsFrames(lim, depth + 1, x, es) && AbsorbAll(StartAgg(k, n), es).Pending? && Rejects(lim, depth + 1, y, o)
  }

  ghost predicate SomeBadElement(lim: Limits, k: AggKind, n: int, depth: nat, rest: bytes, o: Outcome)
    decreases |rest|, 3
  {
    exists x, es, y :: |y| <= |rest| && BadElement(lim, k, n, depth, rest, x, es, y, o)
  }

  ghost predicate BadAgg(lim: Limits, depth: nat, k: AggKind, line: bytes, rest: bytes, o: Outcome)
    decreases |rest|, 4
  {
    || (o.result.Failed? && BadAggLength(lim, k, depth, line, o.result.error) && o == Outcome(o.result, AggLen(k, line), depth, rest))
    || (exists n :: NumberText(line, n) && SomeBadElement(lim, k, n, depth, rest, o))
  }

  /** A bulk frame that is refused, split at its length line. */
  ghost predicate BadBulkAt(lim: Limits, depth: nat, buf: bytes, k: BulkKind, line: bytes, rest: bytes, o: Outcome) {
    buf == Opened(BulkMark(k), line, rest) && NoCrlf(line) && BadBulk(lim, depth, k, line, rest, o)
  }

  /** An aggregate that is refused, split at its length line. */
  ghost predicate BadAggAt(lim: Limits, depth: nat, buf: bytes, k: AggKind, line: bytes, rest: bytes, o: Outcome)
    requires |rest| < |buf|
    decreases |buf|, 0
  {
    buf == Opened(AggMark(k), line, rest) && NoCrlf(line) && BadAgg(lim, depth, k, line, rest, o)
  }

  /** The buffer is refused with outcome `o`. */
  ghost predicate Rejects(lim: Limits, depth: nat, buf: bytes, o: Outcome)
    decreases |buf|, 1
  {
    || BadMark(depth, buf, o)
    || BadShort(depth, buf, o)
    || (exists line, rest :: BadInteger(depth, buf, line, rest, o))
    || (exists k, line, rest :: BadBulkAt(lim, depth, buf, k, line, rest, o))
    || (exists k, line, rest :: |rest| < |buf| && BadAggAt(lim, depth, buf, k, line, rest, o))
  }

  // ----- The parser refuses exactly these -----

  lemma {:induction false} NumberOrNot(line: bytes)
    ensures ParseI64(line).None? <==> NoNumber(line)
    ensures forall n :: NumberText(line, n) <==> ParseI64(line) == Some(n)
  {
  }

  lemma {:induction false} BulkDataExactly(lim: Limits, k: BulkKind, line: bytes, n: nat, depth: nat, rest: bytes, o: Outcome)
    requires o.result.Failed? && FitsBulk(lim, k, n) && ParseI64(line) == Some(n)
    ensures RunBulkHeader(lim, k, line, depth, rest) == o <==> BadBulkData(k, line, n, depth, rest, o)
  {
    hide ParseI64;
    if n + 2 <= |rest| {
      assert [] + rest[..n] == rest[..n];
      assert n == 0 ==> rest[..2] == rest[0..2];
    }
  }

  lemma {:induction false} BulkExactly(lim: Limits, k: BulkKind, line: bytes, depth: nat, rest: bytes, o: Outcome)
    requires o.result.Failed?
    ensures RunBulkHeader(lim, k, line, depth, rest) == o <==> BadBulk(lim, depth, k, line, rest, o)
  {
    hide NumberText, BadBulkData;
    NumberOrNot(line);
    if ParseI64(line).Some? && FitsBulk(lim, k, ParseI64(line).value) {
      BulkDataExactly(lim, k, line, ParseI64(line).value, depth, rest, o);
    }
    hide ParseI64, RunBulkData;
  }

  lemma {:induction false} IntegerExactly(lim: Limits, depth: nat, buf: bytes, line: bytes, rest: bytes, o: Outcome)
    requires o.result.Failed? && buf == Opened(':' as byte, line, rest) && NoCrlf(line)
    ensures RunMarker(lim, depth, buf) == o <==> BadInteger(depth, buf, line, rest, o)
  {
    hide NumberText, RunMarker, Opened;
    NumberOrNot(line);
    RunLine(lim, depth, IntegerLine, line, rest);
    hide ParseI64;
  }

  /** A call on an open aggregate fails with its first bad element. */
  lemma {:induction false} ElementsFail(lim: Limits, st: State, depth: nat, buf: bytes) returns (x: bytes, es: seq<Value>, y: bytes)
    requires st.Aggregate() && st.remaining > 0 && RunElements(lim, st, depth, buf).result.Failed?
    ensures buf == x + y && IsFrames(lim, depth, x, es) && AbsorbAll(st, es).Pending?
    ensures RunElements(lim, st, depth, buf) == RunMarker(lim, depth, y)
    decreases |buf|
  {
    hide RunMarker, IsFrame;
    var o := RunMarker(lim, depth, buf);
    if o.result.Failed? {
      x, es, y := [], [], buf;
    } else {
      MarkerSound(lim, depth, buf);
      MarkerShrinks(lim, depth, buf);
      var v, k := o.result.value, Consumed(buf, o);
      var x', es', y' := ElementsFail(lim, Absorb(st, v).state, depth, o.buf);
      x, es, y := buf[..k] + x', [v] + es', y';
      OneFrame(lim, depth, buf[..k], v);
      FramesConcat(lim, depth, buf[..k], [v], x', es');
      assert es[1..] == es';
      assert buf == buf[..k] + o.buf;
    }
  }

  lemma {:induction false} FailedElement(lim: Limits, st: State, depth: nat, y: bytes)
    requires st.Aggregate() && st.remaining > 0 && RunMarker(lim, depth, y).result.Failed?
    ensures RunElements(lim, st, depth, y) == RunMarker(lim, depth, y)
  {
    hide RunMarker;
  }

  /** What the aggregate length announces, and what is then read. */
  lemma {:induction false} AggLengthExactly(lim: Limits, k: AggKind, line: bytes, depth: nat, rest: bytes, o: Outcome)
    requires o.result.Failed? && !(exists n :: NumberText(line, n) && n > 0 && FitsAggregate(lim, depth, n))
    ensures RunAggHeader(lim, k, line, depth, rest) == o <==>
            BadAggLength(lim, k, depth, line, o.result.error) && o == Outcome(o.result, AggLen(k, line), depth, rest)
  {
    hide NumberText;
    NumberOrNot(line);
    hide ParseI64, RunElements;
  }

  lemma {:induction false} PickElement(lim: Limits, k: AggKind, n: int, depth: nat, rest: bytes, o: Outcome) returns (x: bytes, es: seq<Value>, y: bytes)
    requires SomeBadElement(lim, k, n, depth, rest, o)
    ensures |y| <= |rest| && rest == x + y && IsFrames(lim, depth + 1, x, es)
    ensures n > 0 && AbsorbAll(StartAgg(k, n), es).Pending? && Rejects(lim, depth + 1, y, o)
  {
    x, es, y :| |y| <= |rest| && BadElement(lim, k, n, depth, rest, x, es, y, o);
  }

  lemma {:induction false} ElementExactly(lim: Limits, k: AggKind, n: nat, depth: nat, rest: bytes, o: Outcome)
    requires o.result.Failed? && n > 0 && FitsAggregate(lim, depth, n)
    ensures RunElements(lim, StartAgg(k, n), depth + 1, rest) == o <==>
            SomeBadElement(lim, k, n, depth, rest, o)
    decreases |rest|, 2
  {
    hide RunElements, RunMarker, IsFrames, AbsorbAll, Rejects;
    var st := StartAgg(k, n);
    if RunElements(lim, st, depth + 1, rest) == o {
      var x, es, y := ElementsFail(lim, st, depth + 1, rest);
      RejectsExactly(lim, depth + 1, y, o);
      assert BadElement(lim, k, n, depth, rest, x, es, y, o);
    }
    if SomeBadElement(lim, k, n, depth, rest, o) {
      var x, es, y := PickElement(lim, k, n, depth, rest, o);
      RejectsExactly(lim, depth + 1, y, o);
      FramesParse(lim, depth + 1, x, es, st, y);
      FailedElement(lim, AbsorbAll(st, es).state, depth + 1, y);
    }
  }

  lemma {:induction false} AggExactly(lim: Limits, k: AggKind, line: bytes, depth: nat, rest: bytes, o: Outcome)
    requires o.result.Failed?
    ensures RunAggHeader(lim, k, line, depth, rest) == o <==> BadAgg(lim, depth, k, line, rest, o)
    decreases |rest|, 3
  {
    hide NumberText, SomeBadElement, RunElements;
    NumberOrNot(line);
    if exists n :: NumberText(line, n) && n > 0 && FitsAggregate(lim, depth, n) {
      var n :| NumberText(line, n) && n > 0 && FitsAggregate(lim, depth, n);
      ElementExactly(lim, k, n, depth, rest, o);
      OpenedHeader(lim, k, line, n, depth, rest);
      assert !BadAggLength(lim, k, depth, line, o.result.error);
    } else {
      AggLengthExactly(lim, k, line, depth, rest, o);
      NoElement(lim, k, line, depth, rest, o);
    }
  }

  lemma {:induction false} OpenedHeader(lim: Limits, k: AggKind, line: bytes, n: nat, depth: nat, rest: bytes)
    requires ParseI64(line) == Some(n) && n > 0 && FitsAggregate(lim, depth, n)
    ensures RunAggHeader(lim, k, line, depth, rest) == RunElements(lim, StartAgg(k, n), depth + 1, rest)
  {
    hide ParseI64, RunElements;
  }

  lemma {:induction false} NoElement(lim: Limits, k: AggKind, line: bytes, depth: nat, rest: bytes, o: Outcome)
    requires !(exists n :: NumberText(line, n) && n > 0 && FitsAggregate(lim, depth, n))
    ensures !(exists n :: NumberText(line, n) && SomeBadElement(lim, k, n, depth, rest, o))
  {
    hide NumberText, Rejects, IsFrames, AbsorbAll;
  }

  /** The mark decides which kind of refusal there can be. */
  lemma {:induction false} MarkOfOpened(mark: byte, line: bytes, rest: bytes)
    ensures Opened(mark, line, rest) != [] && Opened(mark, line, rest)[0] == mark && |rest| < |Opened(mark, line, rest)|
  {
  }

  /** A buffer splits at its first terminator in one way only. */
  lemma {:induction false} OpenedOnce(m1: byte, l1: bytes, r1: bytes, m2: byte, l2: bytes, r2: bytes)
    requires NoCrlf(l1) && NoCrlf(l2) && Opened(m1, l1, r1) == Opened(m2, l2, r2)
    ensures m1 == m2 && l1 == l2 && r1 == r2
  {
    OpenedLine(m1, l1, r1);
    OpenedLine(m2, l2, r2);
    MarkOfOpened(m1, l1, r1);
    MarkOfOpened(m2, l2, r2);
    hide Opened, NoCrlf;
  }

  lemma {:induction false} Marks()
    ensures forall k :: BulkMark(k) in {'$' as byte, '!' as byte, '=' as byte}
    ensures forall k :: AggMark(k) in {'*' as byte, '%' as byte, '~' as byte, '>' as byte}
    ensures forall k1, k2 :: BulkMark(k1) == BulkMark(k2) ==> k1 == k2
    ensures forall k1, k2 :: AggMark(k1) == AggMark(k2) ==> k1 == k2
  {
  }

  /** No complete first line: nothing but a short frame or an unknown type byte is refused. */
  lemma {:induction false} NoLineYet(lim: Limits, depth: nat, buf: bytes, o: Outcome)
    requires o.result.Failed? && buf != [] && StateFor(buf[0]).Some? && FindCrlf(buf[1..]).None?
    requires buf[0] != NULL_MARK && buf[0] != BOOL_MARK
    ensures RunMarker(lim, depth, buf) != o && !Rejects(lim, depth, buf, o)
  {
    hide BadBulk, BadAgg, NumberText;
    assert RunMarker(lim, depth, buf).result.NeedMore? by { MarkFor(buf[0]); }
    forall mark, line, rest | buf == Opened(mark, line, rest) && NoCrlf(line) ensures false { OpenedLine(mark, line, rest); }
  }

  lemma {:induction false} ShortExactly(lim: Limits, depth: nat, buf: bytes, o: Outcome)
    requires o.result.Failed? && (buf == [] || buf[0] == NULL_MARK || buf[0] == BOOL_MARK || StateFor(buf[0]).None?)
    ensures RunMarker(lim, depth, buf) == o <==> BadMark(depth, buf, o) || BadShort(depth, buf, o)
  {
    hide Run;
    if |buf| >= 3 { assert buf[1..][..2] == buf[1..3]; }
    if |buf| >= 4 { assert buf[1..][1..3] == buf[2..4]; }
  }

  lemma {:induction false} OnlyShort(lim: Limits, depth: nat, buf: bytes, o: Outcome)
    requires buf == [] || buf[0] == NULL_MARK || buf[0] == BOOL_MARK || StateFor(buf[0]).None?
    ensures Rejects(lim, depth, buf, o) <==> BadMark(depth, buf, o) || BadShort(depth, buf, o)
  {
    hide BadBulk, BadAgg, NumberText, Opened, BadMark, BadShort, NoCrlf;
    Marks();
    forall mark, line, rest | buf == Opened(mark, line, rest) ensures buf != [] && buf[0] == mark { MarkOfOpened(mark, line, rest); }
  }

  /** With a complete first line the refusal is that of its kind. */
  lemma {:induction false} LineExactly(lim: Limits, depth: nat, mark: byte, line: bytes, rest: bytes, o: Outcome)
    requires o.result.Failed? && NoCrlf(line) && StateFor(mark).Some?
    ensures var buf := Opened(mark, line, rest);
            Rejects(lim, depth, buf, o) <==>
            match StateFor(mark).value
            case Line(IntegerLine, _) => BadInteger(depth, buf, line, rest, o)
            case BulkLen(k, _) => BadBulk(lim, depth, k, line, rest, o)
            case AggLen(k, _) => BadAgg(lim, depth, k, line, rest, o)
            case _ => false
  {
    hide BadBulk, BadAgg, NumberText, Opened, NoCrlf;
    var buf := Opened(mark, line, rest);
    Marks();
    MarkFor(mark);
    MarkOfOpened(mark, line, rest);
    forall m2, l2, r2 | buf == Opened(m2, l2, r2) && NoCrlf(l2) ensures m2 == mark && l2 == line && r2 == rest {
      OpenedOnce(mark, line, rest, m2, l2, r2);
    }
    match StateFor(mark).value
    case Line(_, _) =>
    case BulkLen(k, _) => if BadBulk(lim, depth, k, line, rest, o) { assert BadBulkAt(lim, depth, buf, k, line, rest, o); }
    case AggLen(k, _) => if BadAgg(lim, depth, k, line, rest, o) { assert BadAggAt(lim, depth, buf, k, line, rest, o); }
  }

  /**
    * A fresh parser refuses a buffer with an error exactly when the relation says so, and leaves the
    * state, depth and bytes it says.
    */
  lemma {:induction false} RejectsExactly(lim: Limits, depth: nat, buf: bytes, o: Outcome)
    requires o.result.Failed?
    ensures Run(lim, WaitingForType, depth, buf) == o <==> Rejects(lim, depth, buf, o)
    ensures RunMarker(lim, depth, buf) == o <==> Rejects(lim, depth, buf, o)
    decreases |buf|, 1
  {
    hide RunMarker, Rejects, Run, RunBulkHeader, RunAggHeader, NumberText, BadMark, BadShort, BadBulk, BadAgg, NoCrlf;
    MarkerCall(lim, depth, buf);
    if buf == [] || buf[0] == NULL_MARK || buf[0] == BOOL_MARK || StateFor(buf[0]).None? {
      ShortExactly(lim, depth, buf, o);
      OnlyShort(lim, depth, buf, o);
    } else if FindCrlf(buf[1..]).None? {
      NoLineYet(lim, depth, buf, o);
    } else {
      FirstLine(buf);
      MarkFor(buf[0]);
      var p := FindCrlf(buf[1..]).value;
      var line, rest := buf[1..][..p], buf[1..][p + 2..];
      LineExactly(lim, depth, buf[0], line, rest, o);
      match StateFor(buf[0]).value
      case Line(k, _) =>
        RunLine(lim, depth, k, line, rest);
        if k.IntegerLine? { IntegerExactly(lim, depth, buf, line, rest, o); }
      case BulkLen(k, _) =>
        RunBulk(lim, depth, k, line, rest);
        BulkExactly(lim, k, line, depth, rest, o);
      case AggLen(k, _) =>
        RunAgg(lim, depth, k, line, rest);
        AggExactly(lim, k, line, depth, rest, o);
    }
  }
}
