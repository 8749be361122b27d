/** Telnet-style inline commands (crates/resp/src/inline.rs); text is a sequence of characters. */
module InlineCommand {
  import opened Bytes

  datatype InlineError = InvalidLength | EmptyCommand

  datatype Tokens = Ok(tokens: seq<string>) | Err(error: InlineError)

  /** The tokenizer's loop state: finished tokens, the current token, the open quote if any. */
  datatype Scan = Scan(tokens: seq<string>, current: string, quote: Option<char>)

  predicate IsBlank(c: char) {
    c == ' ' || c == '\t'
  }

  predicate IsQuote(c: char) {
    c == '"' || c == '\''
  }

  /** What `\c` stands for inside quotes; unknown escapes keep their backslash. */
  function Unescaped(c: char): (s: string) {
    if c == 'n' then "\n"
    else if c == 't' then "\t"
    else if c == 'r' then "\r"
    else if c == '\\' || IsQuote(c) then [c]
    else ['\\', c]
  }

  /** The scan of `line` continued from `s`. */
  function ScanFrom(line: string, s: Scan): (r: Scan)
    decreases |line|
  {
    if line == [] then s
    else
      var c, rest := line[0], line[1..];
      match s.quote
      case None =>
        if IsBlank(c) then ScanFrom(rest, Flush(s))
        else if IsQuote(c) then ScanFrom(rest, s.(quote := Some(c)))
        else ScanFrom(rest, s.(current := s.current + [c]))
      case Some(q) =>
        if c == q then ScanFrom(rest, Scan(s.tokens + [s.current], [], None))
        else if c == '\\' then
          if rest == [] then s.(current := s.current + ['\\'])
          else ScanFrom(rest[1..], s.(current := s.current + Unescaped(rest[0])))
        else ScanFrom(rest, s.(current := s.current + [c]))
  }

  /** A token that is not empty is finished. */
  function Flush(s: Scan): (r: Scan) {
    if s.current == [] then s else s.(tokens := s.tokens + [s.current], current := [])
  }

  const START := Scan([], [], None)

  function Finish(s: Scan): (r: Tokens) {
    if s.quote.Some? then Err(InvalidLength)
    else if Flush(s).tokens == [] then Err(EmptyCommand)
    else Ok(Flush(s).tokens)
  }

  function Tokenize(line: string): (r: Tokens) {
    Finish(ScanFrom(line, START))
  }

  /** `split_inline_command`. */
  method SplitInlineCommand(line: string) returns (r: Tokens)
    ensures r == Tokenize(line)
  {
    var tokens: seq<string>, current: string := [], [];
    var inQuotes, quoteChar := false, '\0';
    var i := 0;
    while i < |line|
      invariant 0 <= i <= |line|
      invariant ScanFrom(line[i..], Scan(tokens, current, if inQuotes then Some(quoteChar) else None)) == ScanFrom(line, START)
    {
      var c := line[i];
      i := i + 1;
      if IsBlank(c) && !inQuotes {
        if current != [] {
          tokens := tokens + [current];
          current := [];
        }
      } else if IsQuote(c) && !inQuotes {
        inQuotes := true;
        quoteChar := c;
      } else if inQuotes && c == quoteChar {
        inQuotes := false;
        quoteChar := '\0';
        tokens := tokens + [current];
        current := [];
      } else if c == '\\' && inQuotes {
        if i < |line| {
          current := current + Unescaped(line[i]);
          i := i + 1;
        } else {
          current := current + ['\\'];
        }
      } else {
        current := current + [c];
      }
    }
    if inQuotes { return Err(InvalidLength); }
    if current != [] { tokens := tokens + [current]; }
    if tokens == [] { return Err(EmptyCommand); }
    return Ok(tokens);
  }

  predicate HasCrlfTerminator(line: string) {
    |line| >= 2 && line[|line| - 2] == '\r' && line[|line| - 1] == '\n'
  }

  /** `InlineCommandParser::parse`: the array of bulk strings, given as its tokens. */
  method ParseCommand(line: string) returns (r: Tokens)
    ensures r == if |line| >= 2 && line[|line| - 2..] == ['\r', '\n'] then Tokenize(line[..|line| - 2]) else Err(InvalidLength)
  {
    if |line| < 2 || !HasCrlfTerminator(line) { return Err(InvalidLength); }
    r := SplitInlineCommand(line[..|line| - 2]);
  }

  // ----- What a line is made of -----

  /** A character written inside quotes: as itself, or after a backslash. */
  datatype Elem = Plain(c: char) | Escaped(c: char)

  /** A quoted part with its quote character. */
  datatype Quoted = Quoted(q: char, elems: seq<Elem>)

  /** A written token: unquoted characters, perhaps a quoted part after them, and the blanks that follow. */
  datatype Piece = Piece(bare: string, quoted: Option<Quoted>, blanks: string)

  /** Spaces and tabs. */
  predicate AllBlank(s: string) {
    forall i :: 0 <= i < |s| ==> s[i] in {' ', '\t'}
  }

  /** No spaces, tabs or quotes. */
  predicate AllBare(s: string) {
    forall i :: 0 <= i < |s| ==> s[i] !in {' ', '\t', '"', '\''}
  }

  predicate Writable(q: char, es: seq<Elem>) {
    forall i :: 0 <= i < |es| ==> es[i].Plain? ==> es[i].c != q && es[i].c != '\\'
  }

  predicate Printable(p: Piece) {
    && AllBare(p.bare) && AllBlank(p.blanks)
    && match p.quoted
       case None => p.bare != []
       case Some(part) => (part.q == '"' || part.q == '\'') && Writable(part.q, part.elems)
  }

  function PrintElem(e: Elem): (s: string) {
    match e
    case Plain(c) => [c]
    case Escaped(c) => ['\\', c]
  }

  /** What a character inside quotes stands for. */
  function Meaning(e: Elem): (s: string) {
    match e
    case Plain(c) => [c]
    case Escaped(c) =>
      if c == 'n' then [10 as char]
      else if c == 't' then [9 as char]
      else if c == 'r' then [13 as char]
      else if c in {'\\', '"', '\''} then [c]
      else ['\\', c]
  }

  function PrintElems(es: seq<Elem>): (s: string) {
    if es == [] then [] else PrintElem(es[0]) + PrintElems(es[1..])
  }

  function MeaningOf(es: seq<Elem>): (s: string) {
    if es == [] then [] else Meaning(es[0]) + MeaningOf(es[1..])
  }

  function TokenOf(p: Piece): (t: string) {
    match p.quoted
    case None => p.bare
    case Some(part) => p.bare + MeaningOf(part.elems)
  }

  function Print(p: Piece): (s: string) {
    match p.quoted
    case None => p.bare + p.blanks
    case Some(part) => p.bare + ([part.q] + (PrintElems(part.elems) + ([part.q] + p.blanks)))
  }

  function PrintAll(ps: seq<Piece>): (s: string) {
    if ps == [] then [] else Print(ps[0]) + PrintAll(ps[1..])
  }

  function TokensOf(ps: seq<Piece>): (ts: seq<string>)
    ensures |ts| == |ps|
  {
    if ps == [] then [] else [TokenOf(ps[0])] + TokensOf(ps[1..])
  }

  /** The piece is kept apart from what follows: by its closing quote or by a blank. */
  predicate Ends(p: Piece) {
    p.quoted.None? ==> p.blanks != []
  }

  predicate AllPrintable(ps: seq<Piece>) {
    forall i :: 0 <= i < |ps| ==> Printable(ps[i])
  }

  predicate AllEnd(ps: seq<Piece>) {
    forall i :: 0 <= i < |ps| ==> Ends(ps[i])
  }

  /** Every piece but the last is kept apart from the next. */
  predicate Separated(ps: seq<Piece>) {
    forall i :: 0 <= i < |ps| - 1 ==> Ends(ps[i])
  }

  /** A line of tokens: blanks, then pieces kept apart. */
  predicate CommandOf(line: string, lead: string, ps: seq<Piece>) {
    line == lead + PrintAll(ps) && AllBlank(lead) && ps != [] && AllPrintable(ps) && Separated(ps)
  }

  /** A line that ends inside a quoted part, perhaps after a lone backslash. */
  predicate UnclosedOf(line: string, lead: string, ps: seq<Piece>, bare: string, q: char, es: seq<Elem>, tail: string) {
    && line == lead + (PrintAll(ps) + (bare + ([q] + (PrintElems(es) + tail))))
    && AllBlank(lead) && AllPrintable(ps) && AllEnd(ps) && AllBare(bare)
    && (q == '"' || q == '\'') && Writable(q, es) && (tail == [] || tail == ['\\'])
  }

  // ----- Reading what was written -----

  lemma {:induction false} ScanBlanks(blanks: string, rest: string, s: Scan)
    requires AllBlank(blanks) && s.quote.None?
    ensures ScanFrom(blanks + rest, s) == ScanFrom(rest, if blanks == [] then s else Flush(s))
    decreases |blanks|
  {
    if blanks == [] {
      assert blanks + rest == rest;
    } else {
      assert (blanks + rest)[1..] == blanks[1..] + rest;
      ScanBlanks(blanks[1..], rest, Flush(s));
    }
  }

  lemma {:induction false} ScanBare(t: string, rest: string, s: Scan)
    requires AllBare(t) && s.quote.None?
    ensures ScanFrom(t + rest, s) == ScanFrom(rest, s.(current := s.current + t))
    decreases |t|
  {
    if t == [] {
      assert t + rest == rest && s.current + t == s.current;
    } else {
      assert (t + rest)[1..] == t[1..] + rest;
      ScanBare(t[1..], rest, s.(current := s.current + [t[0]]));
      assert s.current + [t[0]] + t[1..] == s.current + t;
    }
  }

  /** One character inside quotes. */
  lemma {:induction false} ScanElem(e: Elem, q: char, rest: string, s: Scan)
    requires IsQuote(q) && s.quote == Some(q) && Writable(q, [e])
    ensures ScanFrom(PrintElem(e) + rest, s) == ScanFrom(rest, s.(current := s.current + Meaning(e)))
  {
    var line := PrintElem(e) + rest;
    assert [e][0] == e;
    match e
    case Plain(c) => assert line[0] == c && line[1..] == rest;
    case Escaped(c) =>
      assert line[0] == '\\' && line[1..][0] == c && line[1..][1..] == rest;
      assert Unescaped(c) == Meaning(e);
  }

  lemma {:induction false} ScanElems(es: seq<Elem>, q: char, rest: string, s: Scan)
    requires IsQuote(q) && s.quote == Some(q) && Writable(q, es)
    ensures ScanFrom(PrintElems(es) + rest, s) == ScanFrom(rest, s.(current := s.current + MeaningOf(es)))
    decreases |es|
  {
    hide ScanFrom, PrintElem, Meaning;
    if es == [] {
      assert [] + rest == rest && s.current + [] == s.current;
    } else {
      var e, more := es[0], es[1..];
      Regroup(PrintElem(e), PrintElems(more), rest);
      ScanElem(e, q, PrintElems(more) + rest, s);
      ScanElems(more, q, rest, s.(current := s.current + Meaning(e)));
      Regroup(s.current, Meaning(e), MeaningOf(more));
    }
  }

  lemma {:induction false} Regroup(a: string, b: string, c: string)
    ensures a + b + c == a + (b + c)
  {
  }

  lemma {:induction false} ScanOpen(q: char, rest: string, s: Scan)
    requires IsQuote(q) && s.quote.None?
    ensures ScanFrom([q] + rest, s) == ScanFrom(rest, s.(quote := Some(q)))
  {
    assert ([q] + rest)[1..] == rest;
  }

  lemma {:induction false} ScanClose(q: char, rest: string, s: Scan)
    requires s.quote == Some(q)
    ensures ScanFrom([q] + rest, s) == ScanFrom(rest, Scan(s.tokens + [s.current], [], None))
  {
    assert ([q] + rest)[1..] == rest;
  }

  /** One piece that is kept apart from what follows gives its token. */
  lemma {:induction false} ScanPiece(p: Piece, rest: string, ts: seq<string>)
    requires Printable(p) && Ends(p)
    ensures ScanFrom(Print(p) + rest, Scan(ts, [], None)) == ScanFrom(rest, Scan(ts + [TokenOf(p)], [], None))
  {
    hide ScanFrom;
    assert [] + p.bare == p.bare;
    match p.quoted
    case None =>
      assert Print(p) + rest == p.bare + (p.blanks + rest);
      ScanBare(p.bare, p.blanks + rest, Scan(ts, [], None));
      ScanBlanks(p.blanks, rest, Scan(ts, p.bare, None));
    case Some(part) =>
      var q, es := part.q, part.elems;
      var after := p.blanks + rest;
      var body := PrintElems(es) + ([q] + after);
      assert Print(p) + rest == p.bare + ([q] + body);
      ScanBare(p.bare, [q] + body, Scan(ts, [], None));
      ScanOpen(q, body, Scan(ts, p.bare, None));
      ScanElems(es, q, [q] + after, Scan(ts, p.bare, Some(q)));
      ScanClose(q, after, Scan(ts, TokenOf(p), Some(q)));
      ScanBlanks(p.blanks, rest, Scan(ts + [TokenOf(p)], [], None));
  }

  lemma {:induction false} ScanPieces(ps: seq<Piece>, rest: string, ts: seq<string>)
    requires AllPrintable(ps) && AllEnd(ps)
    ensures ScanFrom(PrintAll(ps) + rest, Scan(ts, [], None)) == ScanFrom(rest, Scan(ts + TokensOf(ps), [], None))
    decreases |ps|
  {
    hide ScanFrom, Print, TokenOf, Printable, Ends;
    if ps == [] {
      assert [] + rest == rest && ts + [] == ts;
    } else {
      assert PrintAll(ps) + rest == Print(ps[0]) + (PrintAll(ps[1..]) + rest);
      ScanPiece(ps[0], PrintAll(ps[1..]) + rest, ts);
      ScanPieces(ps[1..], rest, ts + [TokenOf(ps[0])]);
      assert ts + [TokenOf(ps[0])] + TokensOf(ps[1..]) == ts + TokensOf(ps);
    }
  }

  lemma {:induction false} ScanLead(lead: string, rest: string)
    requires AllBlank(lead)
    ensures ScanFrom(lead + rest, START) == ScanFrom(rest, START)
  {
    ScanBlanks(lead, rest, START);
  }

  lemma {:induction false} PrintSnoc(ps: seq<Piece>, p: Piece)
    ensures PrintAll(ps + [p]) == PrintAll(ps) + Print(p) && TokensOf(ps + [p]) == TokensOf(ps) + [TokenOf(p)]
    decreases |ps|
  {
    hide Print, TokenOf;
    if ps == [] {
      assert [p][1..] == [];
    } else {
      assert (ps + [p])[0] == ps[0] && (ps + [p])[1..] == ps[1..] + [p];
      PrintSnoc(ps[1..], p);
    }
  }

  /** The tokens written are the tokens read, empty ones and every escape included. */
  lemma {:induction false} InlineRoundTrip(line: string, lead: string, ps: seq<Piece>)
    requires CommandOf(line, lead, ps)
    ensures Tokenize(line) == Ok(TokensOf(ps))
  {
    hide ScanFrom, Print, TokenOf, PrintAll, TokensOf, Printable;
    var n := |ps| - 1;
    var init, p := ps[..n], ps[n];
    assert ps == init + [p];
    PrintSnoc(init, p);
    ScanLead(lead, PrintAll(ps));
    ScanPieces(init, Print(p), []);
    assert [] + TokensOf(init) == TokensOf(init);
    ScanLast(p, TokensOf(init));
  }

  lemma {:induction false} ScanLast(p: Piece, ts: seq<string>)
    requires Printable(p)
    ensures Finish(ScanFrom(Print(p), Scan(ts, [], None))) == Ok(ts + [TokenOf(p)])
  {
    assert Print(p) + [] == Print(p);
    if Ends(p) {
      ScanPiece(p, [], ts);
    } else {
      assert p.bare + p.blanks == p.bare + [];
      ScanBare(p.bare, [], Scan(ts, [], None));
      assert [] + p.bare == p.bare;
    }
  }

  lemma {:induction false} BlankLineIsEmpty(line: string)
    requires AllBlank(line)
    ensures Tokenize(line) == Err(EmptyCommand)
  {
    assert line + [] == line;
    ScanLead(line, []);
  }

  lemma {:induction false} UnclosedFails(line: string, lead: string, ps: seq<Piece>, bare: string, q: char, es: seq<Elem>, tail: string)
    requires UnclosedOf(line, lead, ps, bare, q, es, tail)
    ensures Tokenize(line) == Err(InvalidLength)
  {
    hide ScanFrom, PrintAll, TokensOf, Printable, PrintElems, MeaningOf;
    var body := [q] + (PrintElems(es) + tail);
    ScanLead(lead, PrintAll(ps) + (bare + body));
    ScanPieces(ps, bare + body, []);
    var ts := [] + TokensOf(ps);
    ScanBare(bare, body, Scan(ts, [], None));
    ScanOpen(q, PrintElems(es) + tail, Scan(ts, [] + bare, None));
    ScanElems(es, q, tail, Scan(ts, [] + bare, Some(q)));
    LoneBackslash(tail, Scan(ts, [] + bare + MeaningOf(es), Some(q)));
  }

  lemma {:induction false} LoneBackslash(tail: string, s: Scan)
    requires s.quote.Some? && IsQuote(s.quote.value) && (tail == [] || tail == ['\\'])
    ensures ScanFrom(tail, s).quote.Some?
  {
    if tail != [] { assert tail[1..] == []; }
  }

  // ----- Every line has one of the three forms -----

  lemma {:induction false} TakeBlanks(line: string) returns (blanks: string, rest: string)
    ensures line == blanks + rest && AllBlank(blanks) && (rest != [] ==> !IsBlank(rest[0]))
    decreases |line|
  {
    if line == [] || !IsBlank(line[0]) {
      blanks, rest := [], line;
    } else {
      var more;
      more, rest := TakeBlanks(line[1..]);
      blanks := [line[0]] + more;
      assert line == [line[0]] + line[1..];
    }
  }

  lemma {:induction false} TakeBare(line: string) returns (bare: string, rest: string)
    ensures line == bare + rest && AllBare(bare) && (rest != [] ==> IsBlank(rest[0]) || IsQuote(rest[0]))
    ensures line != [] && !IsBlank(line[0]) && !IsQuote(line[0]) ==> bare != []
    decreases |line|
  {
    if line == [] || IsBlank(line[0]) || IsQuote(line[0]) {
      bare, rest := [], line;
    } else {
      var more;
      more, rest := TakeBare(line[1..]);
      bare := [line[0]] + more;
      assert line == [line[0]] + line[1..];
    }
  }

  /** Up to the closing quote, or to the end of the line. */
  lemma {:induction false} TakeElems(line: string, q: char) returns (es: seq<Elem>, closed: bool, rest: string)
    requires IsQuote(q)
    ensures Writable(q, es) && |rest| <= |line|
    ensures closed ==> line == PrintElems(es) + ([q] + rest)
    ensures !closed ==> line == PrintElems(es) + rest && (rest == [] || rest == ['\\'])
    decreases |line|
  {
    if line == [] || line == ['\\'] {
      es, closed, rest := [], false, line;
    } else if line[0] == q {
      es, closed, rest := [], true, line[1..];
      assert line == [q] + rest;
    } else {
      var e, after := TakeElem(line, q);
      var more;
      more, closed, rest := TakeElems(after, q);
      es := [e] + more;
      assert es[1..] == more;
      var tail := if closed then [q] + rest else rest;
      assert PrintElem(e) + (PrintElems(more) + tail) == PrintElems(es) + tail;
    }
  }

  lemma {:induction false} TakeElem(line: string, q: char) returns (e: Elem, after: string)
    requires line != [] && line != ['\\'] && line[0] != q
    ensures line == PrintElem(e) + after && |after| < |line| && (e.Plain? ==> e.c != q && e.c != '\\')
  {
    if line[0] == '\\' {
      e, after := Escaped(line[1]), line[2..];
    } else {
      e, after := Plain(line[0]), line[1..];
    }
  }

  datatype Form = Blanks | Pieces(lead: string, ps: seq<Piece>)
    | Unclosed(start: string, before: seq<Piece>, bare: string, q: char, es: seq<Elem>, tail: string)

  predicate HasForm(line: string, f: Form) {
    match f
    case Blanks => AllBlank(line)
    case Pieces(lead, ps) => CommandOf(line, lead, ps)
    case Unclosed(lead, ps, bare, q, es, tail) => UnclosedOf(line, lead, ps, bare, q, es, tail)
  }

  /** A piece in front of the rest of the line. */
  function InFront(lead: string, p: Piece, f: Form): (r: Form) {
    match f
    case Blanks => Pieces(lead, [p])
    case Pieces(_, ps) => Pieces(lead, [p] + ps)
    case Unclosed(_, ps, bare, q, es, tail) => Unclosed(lead, [p] + ps, bare, q, es, tail)
  }

  predicate NoLead(f: Form) {
    match f
    case Blanks => true
    case Pieces(lead, _) => lead == []
    case Unclosed(lead, _, _, _, _, _) => lead == []
  }

  lemma {:induction false} InFrontForm(lead: string, p: Piece, rest: string, f: Form)
    requires AllBlank(lead) && Printable(p) && HasForm(rest, f) && NoLead(f)
    requires (f.Blanks? ==> rest == []) && (!f.Blanks? ==> Ends(p))
    ensures HasForm(lead + (Print(p) + rest), InFront(lead, p, f))
  {
    hide Printable, Print, Ends, Writable, PrintElems;
    match f
    case Blanks =>
      assert [p][1..] == [];
      assert PrintAll([p]) == Print(p) + [];
    case Pieces(_, ps) =>
      assert ([p] + ps)[1..] == ps;
      assert rest == PrintAll(ps);
    case Unclosed(_, ps, bare, q, es, tail) =>
      assert ([p] + ps)[1..] == ps;
      var body := bare + ([q] + (PrintElems(es) + tail));
      assert rest == PrintAll(ps) + body;
      assert Print(p) + (PrintAll(ps) + body) == PrintAll([p] + ps) + body;
  }

  /** A line that does not begin with a blank. */
  lemma {:induction false} EveryLineFrom(line: string) returns (f: Form)
    requires line != [] ==> !IsBlank(line[0])
    ensures HasForm(line, f) && NoLead(f) && (f.Blanks? ==> line == [])
    decreases |line|
  {
    hide PrintElems, Writable;
    if line == [] { return Blanks; }
    var bare, rest := TakeBare(line);
    if rest == [] {
      var p := Piece(bare, None, []);
      assert line == [] + (Print(p) + []);
      InFrontForm([], p, [], Blanks);
      f := InFront([], p, Blanks);
    } else if IsBlank(rest[0]) {
      var blanks, more := TakeBlanks(rest);
      var p := Piece(bare, None, blanks);
      var g := EveryLineFrom(more);
      assert line == [] + (Print(p) + more);
      InFrontForm([], p, more, g);
      f := InFront([], p, g);
    } else {
      f := QuotedLine(line, bare, rest);
    }
  }

  lemma {:induction false} QuotedLine(line: string, bare: string, rest: string) returns (f: Form)
    requires line == bare + rest && AllBare(bare) && rest != [] && IsQuote(rest[0])
    ensures HasForm(line, f) && NoLead(f) && !f.Blanks?
    decreases |line|, 0
  {
    var q := rest[0];
    var es, closed, after := TakeElems(rest[1..], q);
    assert rest == [q] + rest[1..];
    if closed {
      var blanks, more := TakeBlanks(after);
      var p := Piece(bare, Some(Quoted(q, es)), blanks);
      PieceText(p, bare, q, es, blanks, more);
      assert line == [] + (Print(p) + more);
      var g := EveryLineFrom(more);
      InFrontForm([], p, more, g);
      f := InFront([], p, g);
    } else {
      f := Unclosed([], [], bare, q, es, after);
      assert line == [] + ([] + (bare + ([q] + (PrintElems(es) + after))));
    }
  }

  lemma {:induction false} PieceText(p: Piece, bare: string, q: char, es: seq<Elem>, blanks: string, more: string)
    requires p == Piece(bare, Some(Quoted(q, es)), blanks)
    ensures Print(p) + more == bare + ([q] + (PrintElems(es) + ([q] + (blanks + more))))
  {
    hide PrintElems;
    var e := PrintElems(es);
    assert bare + ([q] + (e + ([q] + blanks))) + more == bare + ([q] + (e + ([q] + (blanks + more))));
  }

  lemma {:induction false} WithLead(lead: string, rest: string, f: Form) returns (g: Form)
    requires AllBlank(lead) && HasForm(rest, f) && NoLead(f) && (f.Blanks? ==> rest == [])
    ensures HasForm(lead + rest, g)
  {
    hide PrintAll, PrintElems, Writable;
    match f
    case Blanks => g := Blanks; assert lead + rest == lead;
    case Pieces(_, ps) => g := Pieces(lead, ps); assert rest == PrintAll(ps);
    case Unclosed(_, ps, bare, q, es, tail) =>
      g := Unclosed(lead, ps, bare, q, es, tail);
      assert rest == PrintAll(ps) + (bare + ([q] + (PrintElems(es) + tail)));
  }

  /** Every line is blank, a line of tokens, or a line that ends inside quotes. */
  lemma {:induction false} EveryLine(line: string) returns (f: Form)
    ensures HasForm(line, f)
  {
    hide HasForm;
    var lead, rest := TakeBlanks(line);
    var g := EveryLineFrom(rest);
    f := WithLead(lead, rest, g);
  }

  ghost predicate IsUnclosed(line: string) {
    exists f: Form :: f.Unclosed? && HasForm(line, f)
  }

  ghost predicate IsCommand(line: string, ts: seq<string>) {
    exists lead, ps :: CommandOf(line, lead, ps) && ts == TokensOf(ps)
  }

  /**
    * The answer to every line: its tokens exactly when it is a line of tokens, `InvalidLength` exactly when
    * it ends inside quotes, `EmptyCommand` exactly when it is blank.
    */
  lemma {:induction false} TokenizeExactly(line: string, ts: seq<string>)
    ensures Tokenize(line) == Ok(ts) <==> IsCommand(line, ts)
    ensures Tokenize(line) == Err(InvalidLength) <==> IsUnclosed(line)
    ensures Tokenize(line) == Err(EmptyCommand) <==> AllBlank(line)
  {
    hide Tokenize, CommandOf, UnclosedOf, AllBlank, TokensOf;
    var f := EveryLine(line);
    if AllBlank(line) { BlankLineIsEmpty(line); }
    if IsUnclosed(line) {
      var g: Form :| g.Unclosed? && HasForm(line, g);
      UnclosedFails(line, g.start, g.before, g.bare, g.q, g.es, g.tail);
    }
    if IsCommand(line, ts) {
      var lead, ps :| CommandOf(line, lead, ps) && ts == TokensOf(ps);
      InlineRoundTrip(line, lead, ps);
    }
    if f.Pieces? { InlineRoundTrip(line, f.lead, f.ps); }
  }

  // ----- A canonical form -----

  function ElemsFor(t: string): (es: seq<Elem>) {
    if t == [] then []
    else [if t[0] == '\\' || t[0] == '"' then Escaped(t[0]) else Plain(t[0])] + ElemsFor(t[1..])
  }

  lemma {:induction false} ElemsForMean(t: string)
    ensures MeaningOf(ElemsFor(t)) == t && Writable('"', ElemsFor(t))
    decreases |t|
  {
    if t != [] {
      ElemsForMean(t[1..]);
      var es := ElemsFor(t);
      assert es[1..] == ElemsFor(t[1..]);
      assert t == [t[0]] + t[1..];
    }
  }

  /** Every token double-quoted with backslash and quote escaped, one space after each. */
  function Canonical(ts: seq<string>): (ps: seq<Piece>)
    ensures |ps| == |ts|
  {
    if ts == [] then [] else [Piece([], Some(Quoted('"', ElemsFor(ts[0]))), " ")] + Canonical(ts[1..])
  }

  lemma {:induction false} CanonicalTokens(ts: seq<string>)
    ensures TokensOf(Canonical(ts)) == ts && AllPrintable(Canonical(ts)) && AllEnd(Canonical(ts))
    decreases |ts|
  {
    if ts != [] {
      CanonicalTokens(ts[1..]);
      ElemsForMean(ts[0]);
      var ps := Canonical(ts);
      assert ps[1..] == Canonical(ts[1..]);
      assert [] + ts[0] == ts[0] && ts == [ts[0]] + ts[1..];
      assert Printable(ps[0]) && Ends(ps[0]);
    }
  }

  /** Every non-empty token list is the reading of some line. */
  lemma {:induction false} CanonicalLine(ts: seq<string>)
    requires ts != []
    ensures Tokenize(PrintAll(Canonical(ts))) == Ok(ts)
  {
    hide Tokenize, PrintAll;
    CanonicalTokens(ts);
    var line := PrintAll(Canonical(ts));
    assert line == [] + line;
    InlineRoundTrip(line, [], Canonical(ts));
  }
}
