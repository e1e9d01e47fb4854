/** Scripts put together from statements are split into them again, and what quoting an identifier protects. */
module SqlStatements {
  import opened Wrappers
  import opened Texts
  import opened SqlSplitter
  import opened SqlLexemes

  // -------------------------------------------------------------------- round trip

  /** The lexeme has its own end: a line remark its line end, a quotation its closing quote. No separator is meant. */
  ghost predicate IsWhole(s: string, span: Span)
    requires span.from < span.to <= |s|
  {
    match span.kind
    case Separator => false
    case LineRemark => span.from + 2 < span.to && s[span.to - 1] == '\n'
    case BlockRemark => span.from + 4 <= span.to && PairAt(s, span.to - 2, '*', '/')
    case Quotation => IsClosedBy(s, span.from + 1, s[span.from], span.to)
    case Other => true
  }

  ghost predicate IsClosedBy(s: string, i: nat, quote: char, to: nat) {
    exists units: seq<QuoteUnit> :: Closes(s, i, quote, units, to)
  }

  predicate Closes(s: string, i: nat, quote: char, units: seq<QuoteUnit>, to: nat) {
    && ValidQuoteUnits(quote, units) && At(s, i, QuoteText(quote, units))
    && ClosesAt(s, quote, i + |QuoteText(quote, units)|, to)
  }

  ghost predicate WholeLexemes(s: string, spans: seq<Span>) {
    forall i :: 0 <= i < |spans| ==> spans[i].from < spans[i].to <= |s| && IsWhole(s, spans[i])
  }

  /** The text divides into whole lexemes that do not separate. */
  ghost predicate LexicallyClosed(s: string) {
    exists spans: seq<Span> :: Tiles(s, spans, 0, |s|) && WholeLexemes(s, spans)
  }

  /** Trimmed, not empty, lexically closed and free of separators. */
  ghost predicate IsStatement(s: string) {
    s != "" && !IsSpace(s[0]) && !IsSpace(s[|s| - 1]) && LexicallyClosed(s)
  }

  /** From the index on, the splitter ends every lexeme it starts, and meets no separator. */
  predicate Closed(s: string, i: nat)
    requires i <= |s|
    decreases |s| - i
  {
    if i == |s| then true
    else
      var move := NeutralMove(s, i);
      if move.separates then false
      else if move.mode == Neutral then Closed(s, i + 1)
      else
        assert move == MoveAt(s, i, Neutral);
        var end := ModeEnd(s, i + move.length, move.mode);
        end.Some? && Closed(s, end.value)
  }

  /** The splitter ends the lexeme that it starts here. */
  predicate Ends(s: string, i: nat)
    requires i < |s|
  {
    var move := NeutralMove(s, i);
    assert move == MoveAt(s, i, Neutral);
    !move.separates && (move.mode == Neutral || ModeEnd(s, i + move.length, move.mode).Some?)
  }

  lemma EndedIsClosed(s: string, i: nat, quote: char)
    requires IsQuote(quote) && i <= |s| && ModeEnd(s, i, Quoted(quote)).Some?
    ensures IsClosedBy(s, i, quote, ModeEnd(s, i, Quoted(quote)).value)
  {
    var to := ModeEnd(s, i, Quoted(quote)).value;
    var units := QuotedIsQuotation(s, i, quote);
    QuotesEndOnce(s, i, quote, units, to);
    assert Closes(s, i, quote, units, to);
  }

  lemma ClosedIsEnded(s: string, i: nat, quote: char, to: nat)
    requires IsQuote(quote) && i <= |s| && IsClosedBy(s, i, quote, to)
    ensures ModeEnd(s, i, Quoted(quote)).Some?
  {
    var units: seq<QuoteUnit> :| Closes(s, i, quote, units, to);
    QuotesEndOnce(s, i, quote, units, to);
  }

  lemma ClosedIffEnded(s: string, i: nat, quote: char, to: nat)
    requires IsQuote(quote) && i <= |s| && to == EndOrAll(s, ModeEnd(s, i, Quoted(quote)))
    ensures IsClosedBy(s, i, quote, to) <==> ModeEnd(s, i, Quoted(quote)).Some?
  {
    if ModeEnd(s, i, Quoted(quote)).Some? {
      EndedIsClosed(s, i, quote);
    }
    if IsClosedBy(s, i, quote, to) {
      ClosedIsEnded(s, i, quote, to);
    }
  }

  /** A lexeme is whole exactly when the splitter ends it. */
  lemma WholeIffEnds(s: string, i: nat)
    requires i < |s|
    ensures IsWhole(s, SpanAt(s, i)) <==> Ends(s, i)
  {
    match SpanAt(s, i).kind
    case LineRemark => LineEndIsFirst(s, i + 2);
    case BlockRemark => BlockEndIsFirst(s, i + 2);
    case Quotation => ClosedIffEnded(s, i + 1, s[i], SpanAt(s, i).to);
    case _ =>
  }

  lemma {:induction false} ClosedIffWhole(s: string, i: nat)
    requires i <= |s|
    ensures Closed(s, i) <==> WholeLexemes(s, Spans(s, i))
    decreases |s| - i
  {
    if i < |s| {
      var (span, rest) := (SpanAt(s, i), Spans(s, SpanAt(s, i).to));
      WholeIffEnds(s, i);
      ClosedIffWhole(s, span.to);
      WholeFirst(s, span, rest);
    }
  }

  lemma WholeFirst(s: string, span: Span, rest: seq<Span>)
    ensures WholeLexemes(s, [span] + rest) <==> span.from < span.to <= |s| && IsWhole(s, span) && WholeLexemes(s, rest)
  {
    var spans := [span] + rest;
    assert spans[0] == span && forall i :: 0 <= i < |rest| ==> rest[i] == spans[i + 1];
  }

  /** A text is lexically closed exactly when the splitter passes it without a cut and ends neutral. */
  lemma ClosedIffTiled(s: string)
    ensures Closed(s, 0) <==> LexicallyClosed(s)
  {
    ClosedIffWhole(s, 0);
    SpansTile(s, 0);
    if spans: seq<Span> :| Tiles(s, spans, 0, |s|) && WholeLexemes(s, spans) {
      TilesAreSpans(s, spans, 0);
    }
  }

  ghost predicate AllStatements(statements: seq<string>) {
    forall i {:trigger IsStatement(statements[i])} :: 0 <= i < |statements| ==> IsStatement(statements[i])
  }

  function Join(statements: seq<string>): string
    requires statements != []
  {
    if |statements| == 1 then statements[0] else statements[0] + (";" + Join(statements[1..]))
  }

  /** What follows a statement in a script: nothing or a semicolon. */
  predicate EndsAt(sql: string, i: nat) {
    i == |sql| || (i < |sql| && sql[i] == ';')
  }

  /** The text lies in the script at `base`, as one of the joined statements. */
  predicate InScript(sql: string, base: nat, s: string) {
    At(sql, base, s) && EndsAt(sql, base + |s|)
  }

  lemma SameAhead(sql: string, base: nat, s: string, k: nat)
    requires InScript(sql, base, s) && k < |s|
    ensures sql[base + k] == s[k]
    ensures k + 1 < |s| ==> sql[base + k + 1] == s[k + 1]
    ensures k + 1 == |s| ==> base + k + 1 == |sql| || sql[base + k + 1] == ';'
  {
    assert k + 1 < |s| ==> sql[base + (k + 1)] == s[k + 1];
  }

  lemma DelimiterStops(sql: string, i: nat, stop: nat)
    requires i <= stop < i + |DELIMITER| && EndsAt(sql, stop)
    ensures !DelimiterAt(sql, i)
  {
    StartsWithIsAt(sql, i, DELIMITER, 0);
    if stop < |sql| {
      assert DELIMITER[stop - i] != ';' && sql[i + (stop - i)] == ';';
    }
  }

  /** The breakpoint line holds no semicolon, so it does not reach beyond the statement. */
  lemma SameDelimiter(sql: string, base: nat, s: string, k: nat)
    requires InScript(sql, base, s) && k < |s|
    ensures DelimiterAt(sql, base + k) <==> DelimiterAt(s, k)
  {
    if |s| < k + |DELIMITER| {
      DelimiterStops(sql, base + k, base + |s|);
    } else {
      SameStarts(sql, base, s, k, 0);
    }
  }

  lemma {:induction false} SameStarts(sql: string, base: nat, s: string, k: nat, n: nat)
    requires InScript(sql, base, s) && k + |DELIMITER| <= |s| && n <= |DELIMITER|
    ensures StartsWith(sql, base + k, DELIMITER, n) <==> StartsWith(s, k, DELIMITER, n)
    decreases |DELIMITER| - n
  {
    if n < |DELIMITER| {
      assert sql[base + (k + n)] == s[k + n];
      SameStarts(sql, base, s, k, n + 1);
    }
  }

  predicate RealQuote(mode: Mode) {
    mode.Quoted? ==> IsQuote(mode.quote)
  }

  /** Inside a comment or quotation that the statement completes, every move is the same in the script. */
  lemma SameMove(sql: string, base: nat, s: string, k: nat, mode: Mode)
    requires InScript(sql, base, s) && k < |s| && mode != Neutral && RealQuote(mode)
    requires mode.Quoted? ==> !(k + 1 == |s| && s[k] == '\\')
    ensures MoveAt(sql, base + k, mode) == MoveAt(s, k, mode)
  {
    SameAhead(sql, base, s, k);
  }

  lemma SameNeutralMove(sql: string, base: nat, s: string, k: nat)
    requires InScript(sql, base, s) && k < |s|
    ensures NeutralMove(sql, base + k) == NeutralMove(s, k)
  {
    SameAhead(sql, base, s, k);
    SameDelimiter(sql, base, s, k);
  }

  lemma {:induction false} SameEnd(sql: string, base: nat, s: string, k: nat, mode: Mode)
    requires InScript(sql, base, s) && k <= |s| && mode != Neutral && RealQuote(mode) && ModeEnd(s, k, mode).Some?
    ensures ModeEnd(sql, base + k, mode) == Some(base + ModeEnd(s, k, mode).value)
    decreases |s| - k
  {
    if k < |s| {
      ModeStays(s, k, mode);
      SameMove(sql, base, s, k, mode);
      ModeStays(sql, base + k, mode);
      if MoveAt(s, k, mode).mode != Neutral {
        SameEnd(sql, base, s, k + MoveAt(s, k, mode).length, mode);
      }
    }
  }

  /** The lexeme of the statement, complete and no separator, is a lexeme of the script. */
  predicate Shifted(sql: string, base: nat, s: string, k: nat)
    requires base + |s| <= |sql| && k < |s|
  {
    var (here, alone) := (SpanAt(sql, base + k), SpanAt(s, k));
    here == Span(alone.kind, base + k, base + alone.to) && !here.kind.Separator? && Closed(s, alone.to)
  }

  lemma SameSpan(sql: string, base: nat, s: string, k: nat)
    requires InScript(sql, base, s) && k < |s| && Closed(s, k)
    ensures Shifted(sql, base, s, k)
  {
    SameNeutralMove(sql, base, s, k);
    var move := NeutralMove(s, k);
    if move.mode != Neutral {
      SameEnd(sql, base, s, k + move.length, move.mode);
    }
  }

  predicate AllShifted(sql: string, base: nat, s: string)
    requires base + |s| <= |sql|
  {
    forall k {:trigger Shifted(sql, base, s, k)} :: 0 <= k < |s| && Closed(s, k) ==> Shifted(sql, base, s, k)
  }

  lemma SameSpans(sql: string, base: nat, s: string)
    requires InScript(sql, base, s)
    ensures AllShifted(sql, base, s)
  {
    forall k | 0 <= k < |s| && Closed(s, k) ensures Shifted(sql, base, s, k) {
      SameSpan(sql, base, s, k);
    }
  }

  /** The lexemes from one index to another fill the range, and none separates. */
  predicate NoCut(sql: string, i: nat, j: nat)
    requires i <= j <= |sql|
    decreases j - i
  {
    i == j || (!SpanAt(sql, i).kind.Separator? && SpanAt(sql, i).to <= j && NoCut(sql, SpanAt(sql, i).to, j))
  }

  lemma NoCutStep(sql: string, i: nat, mid: nat, j: nat)
    requires i < mid <= j <= |sql| && SpanAt(sql, i).to == mid && !SpanAt(sql, i).kind.Separator? && NoCut(sql, mid, j)
    ensures NoCut(sql, i, j)
  {
  }

  lemma ShiftedNext(sql: string, base: nat, s: string, k: nat, i: nat) returns (next: nat, mid: nat)
    requires base + |s| <= |sql| && AllShifted(sql, base, s) && k < |s| && Closed(s, k) && i == base + k
    ensures k < next <= |s| && Closed(s, next) && mid == base + next
    ensures i < mid <= |sql| && SpanAt(sql, i).to == mid && !SpanAt(sql, i).kind.Separator?
  {
    assert Shifted(sql, base, s, k);
    next := SpanAt(s, k).to;
    mid := base + next;
  }

  lemma {:induction false} NoCutInScript(sql: string, base: nat, s: string, k: nat, i: nat, end: nat)
    requires end == base + |s| <= |sql| && AllShifted(sql, base, s) && k <= |s| && Closed(s, k) && i == base + k
    ensures NoCut(sql, i, end)
    decreases |s| - k
  {
    if i < end {
      var next, mid := ShiftedNext(sql, base, s, k, i);
      NoCutInScript(sql, base, s, next, mid, end);
      NoCutStep(sql, i, mid, end);
    }
  }

  lemma {:induction false} NoCutOnePiece(sql: string, i: nat, j: nat, start: nat)
    requires start <= i <= j <= |sql| && NoCut(sql, i, j)
    ensures Pieces(sql, Spans(sql, i), start, i) == Pieces(sql, Spans(sql, j), start, j)
    decreases j - i
  {
    if i < j {
      var s := SpanAt(sql, i);
      assert Spans(sql, i)[0] == s && Spans(sql, i)[1..] == Spans(sql, s.to);
      NoCutOnePiece(sql, s.to, j, start);
    }
  }

  lemma {:induction false} QuotedEndsInQuote(s: string, i: nat, quote: char)
    requires i <= |s| && ModeEnd(s, i, Quoted(quote)).Some?
    ensures s[ModeEnd(s, i, Quoted(quote)).value - 1] == quote
    decreases |s| - i
  {
    if i < |s| && QuotedMove(s, i, quote).mode != Neutral {
      QuotedEndsInQuote(s, i + QuotedMove(s, i, quote).length, quote);
    }
  }

  lemma ModeEndsWell(s: string, i: nat, mode: Mode)
    requires i <= |s| && mode != Neutral && RealQuote(mode) && ModeEnd(s, i, mode).Some?
    ensures s[ModeEnd(s, i, mode).value - 1] != ';'
  {
    var end := ModeEnd(s, i, mode).value;
    if mode.Quoted? {
      QuotedEndsInQuote(s, i, mode.quote);
    } else if mode.BlockComment? {
      BlockEndIsFirst(s, i);
    } else {
      LineEndIsFirst(s, i);
    }
  }

  /** A statement does not end in a semicolon. */
  lemma {:induction false} LastIsNoSemicolon(s: string, i: nat)
    requires i < |s| && Closed(s, i)
    ensures s[|s| - 1] != ';'
    decreases |s| - i
  {
    var move := NeutralMove(s, i);
    if move.mode != Neutral {
      ModeEndsWell(s, i + move.length, move.mode);
    }
    var next := SpanAt(s, i).to;
    if next < |s| {
      LastIsNoSemicolon(s, next);
    }
  }

  lemma StatementEnds(s: string)
    requires IsStatement(s)
    ensures s[|s| - 1] != ';'
  {
    ClosedIffTiled(s);
    LastIsNoSemicolon(s, 0);
  }

  lemma TrimmedIsNormal(s: string)
    requires s != "" && !IsSpace(s[0]) && !IsSpace(s[|s| - 1]) && s[|s| - 1] != ';'
    ensures NormalizePart(s) == [s]
  {
    assert SpacesEnd(s, 0) == 0 && SpacesStart(s, 0, |s|) == |s| && s[0..|s|] == s;
  }

  lemma StatementIsNormal(s: string)
    requires IsStatement(s)
    ensures NormalizePart(s) == [s]
  {
    StatementEnds(s);
    TrimmedIsNormal(s);
  }

  lemma JoinSplits(sql: string, base: nat, statements: seq<string>)
    requires statements != [] && At(sql, base, Join(statements)) && base + |Join(statements)| == |sql|
    ensures InScript(sql, base, statements[0])
    ensures |statements| > 1 ==> base + |statements[0]| < |sql| && sql[base + |statements[0]|] == ';'
                                 && At(sql, base + |statements[0]| + 1, Join(statements[1..]))
  {
    if |statements| > 1 {
      AtSplit(sql, base, statements[0], ";" + Join(statements[1..]));
      AtSplit(sql, base + |statements[0]|, ";", Join(statements[1..]));
      AtChar(sql, base + |statements[0]|, ';');
    }
  }

  lemma NoDelimiterAt(sql: string, i: nat)
    requires i < |sql| && sql[i] != '-'
    ensures !DelimiterAt(sql, i)
  {
    assert DELIMITER[0] == '-';
  }

  lemma SemicolonCuts(sql: string, i: nat, start: nat)
    requires start <= i < |sql| && sql[i] == ';'
    ensures Pieces(sql, Spans(sql, i), start, i) == [sql[start..i]] + Pieces(sql, Spans(sql, i + 1), i + 1, i + 1)
  {
    NoDelimiterAt(sql, i);
    assert SpanAt(sql, i) == Span(Separator, i, i + 1);
    assert Spans(sql, i)[1..] == Spans(sql, i + 1);
  }

  lemma SliceAt(sql: string, base: nat, s: string)
    requires At(sql, base, s)
    ensures sql[base..base + |s|] == s
  {
    forall k | 0 <= k < |s| ensures sql[base..base + |s|][k] == s[k] {
      assert sql[base + k] == s[k];
    }
  }

  /** The raw pieces of the script from an index on. */
  function PiecesFrom(sql: string, i: nat): seq<string>
    requires i <= |sql|
  {
    Pieces(sql, Spans(sql, i), i, i)
  }

  lemma OnePieceThen(sql: string, i: nat, j: nat)
    requires i <= j && EndsAt(sql, j) && NoCut(sql, i, j)
    ensures PiecesFrom(sql, i) == if j == |sql| then [sql[i..j]] else [sql[i..j]] + PiecesFrom(sql, j + 1)
  {
    NoCutOnePiece(sql, i, j, i);
    if j < |sql| {
      SemicolonCuts(sql, j, i);
    }
  }

  lemma StatementInScript(sql: string, base: nat, s: string)
    requires InScript(sql, base, s) && Closed(s, 0)
    ensures NoCut(sql, base, base + |s|) && sql[base..base + |s|] == s && EndsAt(sql, base + |s|)
  {
    SameSpans(sql, base, s);
    NoCutInScript(sql, base, s, 0, base, base + |s|);
    SliceAt(sql, base, s);
  }

  lemma FirstIsClosed(statements: seq<string>)
    requires statements != [] && AllStatements(statements)
    ensures Closed(statements[0], 0)
  {
    assert IsStatement(statements[0]);
    ClosedIffTiled(statements[0]);
  }

  lemma FirstInScript(sql: string, base: nat, statements: seq<string>, s: string, end: nat)
    requires statements != [] && AllStatements(statements) && s == statements[0]
    requires InScript(sql, base, s) && end == base + |s|
    ensures NoCut(sql, base, end) && sql[base..end] == s && EndsAt(sql, end)
  {
    FirstIsClosed(statements);
    StatementInScript(sql, base, s);
  }

  lemma TailStatements(statements: seq<string>)
    requires statements != [] && AllStatements(statements)
    ensures AllStatements(statements[1..])
  {
    forall i | 0 <= i < |statements[1..]| ensures IsStatement(statements[1..][i]) {
      assert IsStatement(statements[i + 1]);
    }
  }

  lemma {:induction false} JoinedPieces(sql: string, base: nat, statements: seq<string>)
    requires statements != [] && AllStatements(statements)
    requires At(sql, base, Join(statements)) && base + |Join(statements)| == |sql|
    ensures PiecesFrom(sql, base) == statements
    decreases |statements|
  {
    var s := statements[0];
    JoinSplits(sql, base, statements);
    FirstInScript(sql, base, statements, s, base + |s|);
    OnePieceThen(sql, base, base + |s|);
    if |statements| > 1 {
      TailStatements(statements);
      JoinedPieces(sql, base + |s| + 1, statements[1..]);
      assert [s] + statements[1..] == statements;
    }
  }

  lemma {:induction false} StatementsAreNormal(statements: seq<string>)
    requires AllStatements(statements)
    ensures Normalize(statements) == statements
  {
    if statements != [] {
      assert IsStatement(statements[0]);
      StatementIsNormal(statements[0]);
      TailStatements(statements);
      StatementsAreNormal(statements[1..]);
      assert [statements[0]] + statements[1..] == statements;
    }
  }

  lemma RawStatementsOfJoin(sql: string, statements: seq<string>)
    requires statements != [] && AllStatements(statements) && sql == Join(statements)
    ensures RawStatements(sql) == statements
  {
    JoinedPieces(sql, 0, statements);
    RawArePieces(sql, statements);
    assert IsStatement(statements[|statements| - 1]);
  }

  lemma SplitOfNormal(sql: string, statements: seq<string>)
    requires RawStatements(sql) == statements && Normalize(statements) == statements
    ensures Split(sql) == statements
  {
  }

  /** Joining statements with semicolons and splitting the script gives the statements back. */
  lemma SplitInvertsJoin(statements: seq<string>)
    requires statements != [] && AllStatements(statements)
    ensures Split(Join(statements)) == statements
  {
    var sql := Join(statements);
    RawStatementsOfJoin(sql, statements);
    StatementsAreNormal(statements);
    SplitOfNormal(sql, statements);
  }

  // ------------------------------------------------------------------- identifiers

  /** Every double quote doubled. */
  function Redoubled(identifier: string): string {
    if identifier == "" then ""
    else (if identifier[0] == '"' then "\"\"" else [identifier[0]]) + Redoubled(identifier[1..])
  }

  function QuoteIdentifier(identifier: string): string {
    "\"" + (Redoubled(identifier) + "\"")
  }

  /** Read in pairs, no backslash stands before a double quote or at the end. */
  predicate SafeIdentifier(identifier: string)
    decreases |identifier|
  {
    if identifier == "" then true
    else if identifier[0] == '\\' then
      |identifier| > 1 && identifier[1] != '"' && SafeIdentifier(identifier[2..])
    else SafeIdentifier(identifier[1..])
  }

  lemma {:induction false} NoBackslashIsSafe(identifier: string)
    requires '\\' !in identifier
    ensures SafeIdentifier(identifier)
    decreases |identifier|
  {
    if identifier != "" {
      NoBackslashIsSafe(identifier[1..]);
    }
  }

  /** The rest of a quoted identifier lies at the index, and no double quote follows it. */
  predicate RestAt(sql: string, i: nat, identifier: string) {
    var end := i + |Redoubled(identifier)| + 1;
    At(sql, i, Redoubled(identifier)) && At(sql, end - 1, "\"") && (end < |sql| ==> sql[end] != '"')
  }

  function RestEnd(i: nat, identifier: string): nat {
    i + |Redoubled(identifier)| + 1
  }

  lemma RestStep(sql: string, i: nat, identifier: string)
    requires RestAt(sql, i, identifier)
    ensures RestEnd(i, identifier) <= |sql|
    ensures identifier == "" ==> sql[i] == '"' && RestEnd(i, identifier) == i + 1
    ensures identifier != "" ==> sql[i] == identifier[0]
    ensures identifier != "" ==>
              var next := if identifier[0] == '"' then i + 2 else i + 1;
              && RestAt(sql, next, identifier[1..]) && RestEnd(next, identifier[1..]) == RestEnd(i, identifier)
              && (identifier[0] == '"' ==> sql[i + 1] == '"')
  {
    if identifier == "" {
      AtChar(sql, i, '"');
    } else {
      var first := if identifier[0] == '"' then "\"\"" else [identifier[0]];
      AtSplit(sql, i, first, Redoubled(identifier[1..]));
      assert sql[i + 0] == first[0] && (|first| > 1 ==> sql[i + 1] == first[1]);
    }
  }

  /** A safe identifier closes exactly at its own closing quote. */
  lemma {:induction false} SafeCloses(sql: string, i: nat, identifier: string)
    requires RestAt(sql, i, identifier) && SafeIdentifier(identifier)
    ensures i <= |sql| && ModeEnd(sql, i, Quoted('"')) == Some(RestEnd(i, identifier))
    decreases |identifier|
  {
    RestStep(sql, i, identifier);
    if identifier == "" {
      assert QuotedMove(sql, i, '"') == Move(1, false, Neutral);
    } else if identifier[0] == '\\' {
      RestStep(sql, i + 1, identifier[1..]);
      assert identifier[1..][1..] == identifier[2..];
      SafeCloses(sql, i + 2, identifier[2..]);
    } else if identifier[0] == '"' {
      SafeCloses(sql, i + 2, identifier[1..]);
    } else {
      SafeCloses(sql, i + 1, identifier[1..]);
    }
  }

  /** One double quote too many before the rest: the quotation closes early or runs on. */
  lemma {:induction false} ShiftedDoesNotClose(sql: string, i: nat, identifier: string)
    requires i + 1 <= |sql| && sql[i] == '"' && RestAt(sql, i + 1, identifier)
    ensures ModeEnd(sql, i, Quoted('"')) != Some(RestEnd(i + 1, identifier))
    decreases |identifier|
  {
    RestStep(sql, i + 1, identifier);
    if identifier != "" && identifier[0] == '"' {
      ShiftedDoesNotClose(sql, i + 2, identifier[1..]);
    }
  }

  /** An identifier that is not safe does not close at its own closing quote. */
  lemma {:induction false} UnsafeDoesNotClose(sql: string, i: nat, identifier: string)
    requires RestAt(sql, i, identifier) && !SafeIdentifier(identifier)
    ensures i <= |sql| && ModeEnd(sql, i, Quoted('"')) != Some(RestEnd(i, identifier))
    decreases |identifier|
  {
    RestStep(sql, i, identifier);
    if identifier[0] == '\\' {
      RestStep(sql, i + 1, identifier[1..]);
      if |identifier| > 1 {
        if identifier[1] == '"' {
          ShiftedDoesNotClose(sql, i + 2, identifier[1..][1..]);
        } else {
          assert identifier[1..][1..] == identifier[2..];
          UnsafeDoesNotClose(sql, i + 2, identifier[2..]);
        }
      }
    } else {
      UnsafeDoesNotClose(sql, if identifier[0] == '"' then i + 2 else i + 1, identifier[1..]);
    }
  }

  lemma QuoteOpens(sql: string, i: nat)
    requires i < |sql| && sql[i] == '"'
    ensures NeutralMove(sql, i) == Move(1, false, Quoted('"'))
  {
    NoDelimiterAt(sql, i);
  }

  /**
   Where no double quote follows, the splitter takes a quoted identifier as one quotation
   exactly when the identifier is safe.
   */
  lemma IdentifierIsOneTokenExactly(sql: string, i: nat, identifier: string, end: nat)
    requires At(sql, i, QuoteIdentifier(identifier)) && end == i + |QuoteIdentifier(identifier)|
    requires end < |sql| ==> sql[end] != '"'
    ensures i < |sql| && SpanAt(sql, i).kind == Quotation
    ensures ModeEnd(sql, i + 1, Quoted('"')) == Some(end) <==> SafeIdentifier(identifier)
  {
    AtSplit(sql, i, "\"", Redoubled(identifier) + "\"");
    AtSplit(sql, i + 1, Redoubled(identifier), "\"");
    AtChar(sql, i, '"');
    QuoteOpens(sql, i);
    if SafeIdentifier(identifier) {
      SafeCloses(sql, i + 1, identifier);
    } else {
      UnsafeDoesNotClose(sql, i + 1, identifier);
    }
  }

  /** A safe identifier is one lexeme of the script: nothing inside it ends the statement. */
  lemma SafeIdentifierIsOneSpan(sql: string, i: nat, identifier: string, end: nat)
    requires At(sql, i, QuoteIdentifier(identifier)) && end == i + |QuoteIdentifier(identifier)|
    requires (end < |sql| ==> sql[end] != '"') && SafeIdentifier(identifier)
    ensures end <= |sql| && i < |sql| && SpanAt(sql, i) == Span(Quotation, i, end)
    ensures Spans(sql, i) == [Span(Quotation, i, end)] + Spans(sql, end)
  {
    IdentifierIsOneTokenExactly(sql, i, identifier, end);
    AtSplit(sql, i, "\"", Redoubled(identifier) + "\"");
    AtChar(sql, i, '"');
    QuoteOpens(sql, i);
  }

  /** A quotation that never closes makes the rest of the script one statement. */
  lemma UnclosedSwallowsAll(sql: string)
    requires sql != "" && sql[0] == '"' && ModeEnd(sql, 1, Quoted('"')).None?
    ensures RawStatements(sql) == [sql]
  {
    QuoteOpens(sql, 0);
    var n := |sql|;
    assert SpanAt(sql, 0) == Span(Quotation, 0, n);
    assert Spans(sql, n) == [] && Spans(sql, 0)[1..] == [];
    assert sql[0..n] == sql;
    RawArePieces(sql, [sql]);
  }

  lemma EscapedCloserRunsOn(sql: string)
    requires |sql| == 5 && sql[1] == '\\' && sql[3] == ';' && sql[4] == 'x'
    ensures ModeEnd(sql, 1, Quoted('"')).None?
  {
    assert ModeEnd(sql, 5, Quoted('"')).None?;
    assert ModeEnd(sql, 4, Quoted('"')).None?;
    assert ModeEnd(sql, 3, Quoted('"')).None?;
  }

  /** A backslash at the end of an identifier keeps its quotation open over the semicolon that follows. */
  lemma BackslashSwallowsSemicolon()
    ensures QuoteIdentifier("\\") + ";x" == "\"\\\";x" && !SafeIdentifier("\\")
    ensures RawStatements("\"\\\";x") == ["\"\\\";x"]
  {
    var (sql, id) := ("\"\\\";x", "\\");
    assert id[1..] == "" && Redoubled(id) == id;
    EscapedCloserRunsOn(sql);
    UnclosedSwallowsAll(sql);
  }
}
