/**
 What the splitter does, told by lexemes: every script is a row of comments, quotations,
 separators and other characters, and exactly the separators between them are removed.
 */
module SqlLexemes {
  import opened Wrappers
  import opened Texts
  import opened SqlSplitter

  /** A character in a quotation, a backslash with the character after it, or a doubled quote. */
  datatype QuoteUnit = Plain(c: char) | Pair(c: char) | Doubled

  predicate ValidQuoteUnit(quote: char, u: QuoteUnit) {
    u.Plain? ==> u.c != quote && u.c != '\\'
  }

  predicate ValidQuoteUnits(quote: char, units: seq<QuoteUnit>) {
    forall i :: 0 <= i < |units| ==> ValidQuoteUnit(quote, units[i])
  }

  function QuoteUnitText(quote: char, u: QuoteUnit): string {
    match u
    case Plain(c) => [c]
    case Pair(c) => ['\\', c]
    case Doubled => [quote, quote]
  }

  function QuoteText(quote: char, units: seq<QuoteUnit>): string {
    if units == [] then "" else QuoteUnitText(quote, units[0]) + QuoteText(quote, units[1..])
  }

  datatype Kind = Other | LineRemark | BlockRemark | Quotation | Separator

  /** A lexeme of a script: its kind and where it starts and ends. */
  datatype Span = Span(kind: Kind, from: nat, to: nat)

  /** Up to and including the end of the line, or up to the end of the script. */
  predicate IsLineRemark(sql: string, from: nat, to: nat) {
    && from + 2 <= to <= |sql| && PairAt(sql, from, '-', '-')
    && (forall k :: from + 2 <= k < to - 1 ==> sql[k] != '\n')
    && (to == |sql| || (from + 2 < to && sql[to - 1] == '\n'))
  }

  /** Up to and including the first closing mark, or up to the end of the script. */
  predicate IsBlockRemark(sql: string, from: nat, to: nat) {
    && from + 2 <= to <= |sql| && PairAt(sql, from, '/', '*')
    && (forall k :: from + 2 <= k < to - 2 ==> !PairAt(sql, k, '*', '/'))
    && (to == |sql| || (from + 4 <= to && PairAt(sql, to - 2, '*', '/')))
  }

  /** Up to the quote that neither follows a backslash nor is doubled, or up to the end of the script. */
  ghost predicate IsQuotation(sql: string, from: nat, to: nat) {
    && from < to <= |sql| && IsQuote(sql[from])
    && IsQuoted(sql, from + 1, sql[from], to)
  }

  ghost predicate IsQuoted(sql: string, i: nat, quote: char, to: nat) {
    exists units: seq<QuoteUnit> :: QuotesUpTo(sql, i, quote, units, to)
  }

  predicate QuotesUpTo(sql: string, i: nat, quote: char, units: seq<QuoteUnit>, to: nat) {
    && ValidQuoteUnits(quote, units) && At(sql, i, QuoteText(quote, units))
    && UnitsEnd(sql, quote, i + |QuoteText(quote, units)|, to)
  }

  /** After the units come the closing quote, the end, or a last backslash and the end. */
  predicate UnitsEnd(sql: string, quote: char, end: nat, to: nat) {
    && end <= to <= |sql|
    && (ClosesAt(sql, quote, end, to) || (to == |sql| && (end == to || (end == to - 1 && sql[end] == '\\'))))
  }

  predicate ClosesAt(sql: string, quote: char, end: nat, to: nat) {
    end + 1 == to <= |sql| && sql[end] == quote && (to < |sql| ==> sql[to] != quote)
  }

  ghost predicate IsSpan(sql: string, s: Span) {
    && s.from < s.to <= |sql|
    && match s.kind
       case Separator => (DelimiterAt(sql, s.from) && s.to == s.from + |DELIMITER|) || (sql[s.from] == ';' && s.to == s.from + 1)
       case LineRemark => IsLineRemark(sql, s.from, s.to) && !DelimiterAt(sql, s.from)
       case BlockRemark => IsBlockRemark(sql, s.from, s.to)
       case Quotation => IsQuotation(sql, s.from, s.to)
       case Other =>
         && s.to == s.from + 1 && sql[s.from] != ';' && !IsQuote(sql[s.from])
         && !PairAt(sql, s.from, '-', '-') && !PairAt(sql, s.from, '/', '*')
  }

  /** The spans lie side by side and cover the range. */
  ghost predicate Tiles(sql: string, spans: seq<Span>, from: nat, to: nat) {
    if spans == [] then from == to
    else IsSpan(sql, spans[0]) && spans[0].from == from && spans[0].to <= to && Tiles(sql, spans[1..], spans[0].to, to)
  }

  /** The text between separators; the first piece starts at `start`. */
  function Pieces(sql: string, spans: seq<Span>, start: nat, from: nat): (pieces: seq<string>)
    requires start <= from <= |sql|
    ensures pieces != []
  {
    if spans == [] || !(from <= spans[0].to <= |sql|) then [sql[start..from]]
    else if spans[0].kind.Separator? then [sql[start..from]] + Pieces(sql, spans[1..], spans[0].to, spans[0].to)
    else Pieces(sql, spans[1..], start, spans[0].to)
  }

  function Separators(sql: string, spans: seq<Span>): seq<string> {
    if spans == [] then []
    else (if spans[0].kind.Separator? && spans[0].from <= spans[0].to <= |sql| then [sql[spans[0].from..spans[0].to]] else [])
         + Separators(sql, spans[1..])
  }

  /** Pieces and separators in turn. */
  function Interleaved(pieces: seq<string>, separators: seq<string>): string {
    if pieces == [] || separators == [] then (if pieces == [] then "" else pieces[0])
    else pieces[0] + (separators[0] + Interleaved(pieces[1..], separators[1..]))
  }

  /** The last piece is left out when it is empty. */
  function WithoutEmptyLast(pieces: seq<string>): seq<string> {
    if pieces != [] && pieces[|pieces| - 1] == "" then pieces[..|pieces| - 1] else pieces
  }

  // ----------------------------------------------------------------- inside lexemes

  /** Where the comment or the quotation of the mode ends, if it ends. */
  function ModeEnd(sql: string, i: nat, mode: Mode): (end: Option<nat>)
    requires i <= |sql| && mode != Neutral
    ensures end.Some? ==> i < end.value <= |sql|
    decreases |sql| - i
  {
    if i == |sql| then None
    else
      var move := MoveAt(sql, i, mode);
      if move.mode == Neutral then Some(i + move.length) else ModeEnd(sql, i + move.length, move.mode)
  }

  lemma {:induction false} LineEndIsFirst(sql: string, i: nat)
    requires i <= |sql|
    ensures var end := ModeEnd(sql, i, LineComment);
            && (end.Some? ==> sql[end.value - 1] == '\n')
            && forall k :: i <= k < (if end.Some? then end.value - 1 else |sql|) ==> sql[k] != '\n'
    decreases |sql| - i
  {
    if i < |sql| && sql[i] != '\n' {
      LineEndIsFirst(sql, i + 1);
    }
  }

  lemma {:induction false} BlockEndIsFirst(sql: string, i: nat)
    requires i <= |sql|
    ensures var end := ModeEnd(sql, i, BlockComment);
            && (end.Some? ==> i + 2 <= end.value && PairAt(sql, end.value - 2, '*', '/'))
            && forall k :: i <= k < (if end.Some? then end.value - 2 else |sql|) ==> !PairAt(sql, k, '*', '/')
    decreases |sql| - i
  {
    if i < |sql| && !PairAt(sql, i, '*', '/') {
      BlockEndIsFirst(sql, i + 1);
    }
  }

  /** The progress after passing over text without a cut. */
  function Passed(sql: string, p: Progress, end: Option<nat>): Progress
    requires p.index <= |sql| && (end.Some? ==> p.index <= end.value <= |sql|)
  {
    var to := if end.Some? then end.value else |sql|;
    Progress(p.statements, p.current + sql[p.index..to], if end.Some? then Neutral else p.mode, to)
  }

  lemma PassedFurther(sql: string, p: Progress, q: Progress, end: Option<nat>)
    requires p.index <= q.index <= |sql| && (end.Some? ==> q.index <= end.value <= |sql|)
    requires q == Progress(p.statements, p.current + sql[p.index..q.index], p.mode, q.index)
    ensures Passed(sql, q, end) == Passed(sql, p, end)
  {
    var to := if end.Some? then end.value else |sql|;
    assert sql[p.index..to] == sql[p.index..q.index] + sql[q.index..to];
    assert (p.current + sql[p.index..q.index]) + sql[q.index..to] == p.current + (sql[p.index..q.index] + sql[q.index..to]);
  }

  lemma ModeStays(sql: string, i: nat, mode: Mode)
    requires i < |sql| && mode != Neutral
    ensures var move := MoveAt(sql, i, mode); !move.separates && (move.mode == Neutral || move.mode == mode)
  {
  }

  /** A comment or a quotation is passed over whole. */
  lemma {:induction false} ModePasses(sql: string, p: Progress)
    requires p.index <= |sql| && p.mode != Neutral
    ensures Run(sql, p) == Run(sql, Passed(sql, p, ModeEnd(sql, p.index, p.mode)))
    decreases |sql| - p.index
  {
    if p.index == |sql| {
      assert Passed(sql, p, None) == p;
    } else {
      ModeStays(sql, p.index, p.mode);
      var q := Apply(sql, p);
      if q.mode != Neutral {
        ModePasses(sql, q);
        PassedFurther(sql, p, q, ModeEnd(sql, q.index, q.mode));
      }
    }
  }

  lemma UnitJoins(sql: string, i: nat, quote: char, unit: QuoteUnit, rest: seq<QuoteUnit>, to: nat)
    requires ValidQuoteUnit(quote, unit) && At(sql, i, QuoteUnitText(quote, unit))
    requires QuotesUpTo(sql, i + |QuoteUnitText(quote, unit)|, quote, rest, to)
    ensures QuotesUpTo(sql, i, quote, [unit] + rest, to)
  {
    var (units, first, more) := ([unit] + rest, QuoteUnitText(quote, unit), QuoteText(quote, rest));
    assert units[1..] == rest && QuoteText(quote, units) == first + more;
    AtJoin(sql, i, first, more);
  }

  lemma UnitAt(sql: string, i: nat, quote: char) returns (unit: QuoteUnit)
    requires i < |sql| && !(sql[i] == '\\' && i + 1 == |sql|) && QuotedMove(sql, i, quote).mode != Neutral
    ensures ValidQuoteUnit(quote, unit) && At(sql, i, QuoteUnitText(quote, unit))
    ensures |QuoteUnitText(quote, unit)| == QuotedMove(sql, i, quote).length
  {
    unit := if sql[i] == '\\' then Pair(sql[i + 1]) else if sql[i] == quote then Doubled else Plain(sql[i]);
  }

  /** Where the quotation ends, or the script when nothing closes it. */
  function QuoteEnd(sql: string, i: nat, quote: char): nat
    requires i <= |sql|
  {
    EndOrAll(sql, ModeEnd(sql, i, Quoted(quote)))
  }

  predicate AtQuoteEnd(sql: string, i: nat, quote: char)
    requires i <= |sql|
  {
    i == |sql| || (sql[i] == '\\' && i + 1 == |sql|) || QuotedMove(sql, i, quote).mode == Neutral
  }

  lemma NoMoreUnits(sql: string, i: nat, quote: char)
    requires i <= |sql| && AtQuoteEnd(sql, i, quote)
    ensures QuotesUpTo(sql, i, quote, [], QuoteEnd(sql, i, quote))
  {
    assert UnitsEnd(sql, quote, i, QuoteEnd(sql, i, quote));
  }

  lemma {:induction false} QuotedIsQuotation(sql: string, i: nat, quote: char) returns (units: seq<QuoteUnit>)
    requires i <= |sql|
    ensures QuotesUpTo(sql, i, quote, units, QuoteEnd(sql, i, quote))
    decreases |sql| - i
  {
    if AtQuoteEnd(sql, i, quote) {
      NoMoreUnits(sql, i, quote);
      return [];
    }
    var unit := UnitAt(sql, i, quote);
    var next := i + QuotedMove(sql, i, quote).length;
    var rest := QuotedIsQuotation(sql, next, quote);
    UnitJoins(sql, i, quote, unit, rest, QuoteEnd(sql, next, quote));
    units := [unit] + rest;
  }

  // ------------------------------------------------------------------- tokenization

  /** The lexeme at an index where the splitter is neutral. */
  function SpanAt(sql: string, i: nat): (s: Span)
    requires i < |sql|
    ensures s.from == i < s.to <= |sql|
  {
    var move := NeutralMove(sql, i);
    assert move == MoveAt(sql, i, Neutral);
    if move.separates then Span(Separator, i, i + move.length)
    else if move.mode == Neutral then Span(Other, i, i + 1)
    else
      var end := ModeEnd(sql, i + move.length, move.mode);
      var kind := if move.mode.LineComment? then LineRemark else if move.mode.BlockComment? then BlockRemark else Quotation;
      Span(kind, i, if end.Some? then end.value else |sql|)
  }

  lemma SpanAtIsSpan(sql: string, i: nat)
    requires i < |sql|
    ensures IsSpan(sql, SpanAt(sql, i))
  {
    var move := NeutralMove(sql, i);
    if move.mode.Quoted? {
      var units := QuotedIsQuotation(sql, i + 1, sql[i]);
    } else if move.mode.LineComment? {
      LineEndIsFirst(sql, i + 2);
    } else if move.mode.BlockComment? {
      BlockEndIsFirst(sql, i + 2);
    }
  }

  /** The progress after a lexeme. */
  function AfterSpan(sql: string, p: Progress, s: Span): Progress
    requires p.index == s.from <= s.to <= |sql|
  {
    if s.kind.Separator? then Progress(p.statements + [p.current], "", Neutral, s.to)
    else Progress(p.statements, p.current + sql[s.from..s.to], Neutral, s.to)
  }

  lemma InsidePasses(sql: string, p: Progress, q: Progress, end: Option<nat>)
    requires q.mode != Neutral && p.index <= q.index <= |sql| && end == ModeEnd(sql, q.index, q.mode)
    requires q == Progress(p.statements, p.current + sql[p.index..q.index], q.mode, q.index)
    ensures var to := if end.Some? then end.value else |sql|;
            Run(sql, q).(mode := Neutral)
            == Run(sql, Progress(p.statements, p.current + sql[p.index..to], Neutral, to)).(mode := Neutral)
  {
    ModePasses(sql, q);
    PassedFurther(sql, p.(mode := q.mode), q, end);
  }

  lemma OpeningPasses(sql: string, p: Progress, move: Move, next: nat, to: nat)
    requires p.index < |sql| && p.mode == Neutral && move == NeutralMove(sql, p.index) && move.mode != Neutral
    requires next == p.index + move.length <= |sql|
    requires var end := ModeEnd(sql, next, move.mode); to == if end.Some? then end.value else |sql|
    ensures Run(sql, p).(mode := Neutral)
            == Run(sql, Progress(p.statements, p.current + sql[p.index..to], Neutral, to)).(mode := Neutral)
  {
    var q := Progress(p.statements, p.current + sql[p.index..next], move.mode, next);
    assert q == Apply(sql, p);
    InsidePasses(sql, p, q, ModeEnd(sql, next, move.mode));
  }

  lemma SimplePasses(sql: string, p: Progress, move: Move, next: nat)
    requires p.index < |sql| && p.mode == Neutral && move == NeutralMove(sql, p.index) && move.mode == Neutral
    requires next == p.index + move.length <= |sql|
    ensures Run(sql, p) == Run(sql, if move.separates then Progress(p.statements + [p.current], "", Neutral, next)
                                    else Progress(p.statements, p.current + sql[p.index..next], Neutral, next))
  {
  }

  /** The splitter takes one lexeme after the other; at the end of the script its mode does not matter. */
  lemma SpanPasses(sql: string, p: Progress, s: Span, q: Progress)
    requires p.index < |sql| && p.mode == Neutral && s == SpanAt(sql, p.index) && q == AfterSpan(sql, p, s)
    ensures Run(sql, p).(mode := Neutral) == Run(sql, q).(mode := Neutral)
  {
    var move := NeutralMove(sql, p.index);
    var next := p.index + move.length;
    if move.mode != Neutral {
      OpeningPasses(sql, p, move, next, s.to);
    } else {
      SimplePasses(sql, p, move, next);
    }
  }

  function Spans(sql: string, i: nat): seq<Span>
    requires i <= |sql|
    decreases |sql| - i
  {
    if i == |sql| then [] else [SpanAt(sql, i)] + Spans(sql, SpanAt(sql, i).to)
  }

  /** Every script is divided into lexemes. */
  lemma {:induction false} SpansTile(sql: string, i: nat)
    requires i <= |sql|
    ensures Tiles(sql, Spans(sql, i), i, |sql|)
    decreases |sql| - i
  {
    if i < |sql| {
      SpanAtIsSpan(sql, i);
      SpansTile(sql, SpanAt(sql, i).to);
      assert Spans(sql, i)[1..] == Spans(sql, SpanAt(sql, i).to);
    }
  }

  function Front(pieces: seq<string>): seq<string>
    requires pieces != []
  {
    pieces[..|pieces| - 1]
  }

  function Last(pieces: seq<string>): string
    requires pieces != []
  {
    pieces[|pieces| - 1]
  }

  /** Where the current piece starts after a lexeme. */
  function PieceStart(s: Span, start: nat): nat {
    if s.kind.Separator? then s.to else start
  }

  lemma CurrentAfterSpan(sql: string, p: Progress, s: Span, start: nat)
    requires start <= p.index == s.from <= s.to <= |sql| && p.current == sql[start..p.index]
    ensures AfterSpan(sql, p, s).current == sql[PieceStart(s, start)..s.to]
  {
    assert sql[s.to..s.to] == "";
    assert sql[start..s.to] == sql[start..p.index] + sql[p.index..s.to];
  }

  lemma PiecesAfterSpan(sql: string, i: nat, start: nat)
    requires start <= i < |sql|
    ensures var s := SpanAt(sql, i);
            var rest := Pieces(sql, Spans(sql, s.to), PieceStart(s, start), s.to);
            Pieces(sql, Spans(sql, i), start, i) == if s.kind.Separator? then [sql[start..i]] + rest else rest
  {
    assert Spans(sql, i)[1..] == Spans(sql, SpanAt(sql, i).to);
  }

  /** The run's statements are the pieces between separators. */
  lemma {:induction false} RunCutsPieces(sql: string, p: Progress, start: nat)
    requires p.mode == Neutral && start <= p.index <= |sql| && p.current == sql[start..p.index]
    ensures var pieces := Pieces(sql, Spans(sql, p.index), start, p.index);
            Run(sql, p).statements == p.statements + Front(pieces) && Run(sql, p).current == Last(pieces)
    decreases |sql| - p.index
  {
    if p.index < |sql| {
      var s := SpanAt(sql, p.index);
      SpanPasses(sql, p, s, AfterSpan(sql, p, s));
      CurrentAfterSpan(sql, p, s, start);
      PiecesAfterSpan(sql, p.index, start);
      RunCutsPieces(sql, AfterSpan(sql, p, s), PieceStart(s, start));
      FrontOf(p.statements, p.current, Pieces(sql, Spans(sql, s.to), PieceStart(s, start), s.to));
    }
  }

  lemma FrontOf(done: seq<string>, piece: string, pieces: seq<string>)
    requires pieces != []
    ensures done + Front([piece] + pieces) == (done + [piece]) + Front(pieces) && Last([piece] + pieces) == Last(pieces)
  {
  }

  lemma InterleavedMore(piece: string, pieces: seq<string>, separator: string, separators: seq<string>)
    ensures Interleaved([piece] + pieces, [separator] + separators) == piece + (separator + Interleaved(pieces, separators))
  {
    assert ([piece] + pieces)[1..] == pieces && ([separator] + separators)[1..] == separators;
  }

  lemma CutTwice(sql: string, start: nat, i: nat, j: nat)
    requires start <= i <= j <= |sql|
    ensures sql[start..] == sql[start..i] + (sql[i..j] + sql[j..])
  {
  }

  lemma {:induction false} PiecesRebuild(sql: string, i: nat, start: nat)
    requires start <= i <= |sql|
    ensures Interleaved(Pieces(sql, Spans(sql, i), start, i), Separators(sql, Spans(sql, i))) == sql[start..]
    decreases |sql| - i
  {
    if i < |sql| {
      var s := SpanAt(sql, i);
      var spans := Spans(sql, s.to);
      assert Spans(sql, i) == [s] + spans && Spans(sql, i)[1..] == spans;
      PiecesRebuild(sql, s.to, PieceStart(s, start));
      PiecesAfterSpan(sql, i, start);
      if s.kind.Separator? {
        InterleavedMore(sql[start..i], Pieces(sql, spans, s.to, s.to), sql[i..s.to], Separators(sql, spans));
        CutTwice(sql, start, i, s.to);
      } else {
        assert [] + Separators(sql, spans) == Separators(sql, spans);
      }
    }
  }

  lemma RawArePieces(sql: string, pieces: seq<string>)
    requires pieces == Pieces(sql, Spans(sql, 0), 0, 0)
    ensures RawStatements(sql) == WithoutEmptyLast(pieces)
  {
    RunCutsPieces(sql, START, 0);
    FrontAndLast(pieces);
  }

  lemma FrontAndLast(pieces: seq<string>)
    requires pieces != []
    ensures [] + Front(pieces) == Front(pieces) && Front(pieces) + [Last(pieces)] == pieces
  {
  }

  // -------------------------------------------------------------- one division only

  /** Where a comment or quotation ends, the end of the script included. */
  function EndOrAll(sql: string, end: Option<nat>): nat {
    if end.Some? then end.value else |sql|
  }

  lemma UnitMoves(sql: string, i: nat, quote: char, u: QuoteUnit)
    requires IsQuote(quote) && ValidQuoteUnit(quote, u) && At(sql, i, QuoteUnitText(quote, u))
    ensures i < |sql| && QuotedMove(sql, i, quote) == Move(|QuoteUnitText(quote, u)|, false, Quoted(quote))
  {
    var text := QuoteUnitText(quote, u);
    assert sql[i + 0] == text[0] && (|text| > 1 ==> sql[i + 1] == text[1]);
  }

  lemma UnitKeepsEnd(sql: string, i: nat, quote: char, u: QuoteUnit, next: nat)
    requires IsQuote(quote) && ValidQuoteUnit(quote, u) && At(sql, i, QuoteUnitText(quote, u)) && next == i + |QuoteUnitText(quote, u)|
    ensures i < next <= |sql| && ModeEnd(sql, i, Quoted(quote)) == ModeEnd(sql, next, Quoted(quote))
  {
    UnitMoves(sql, i, quote, u);
  }

  lemma FirstUnitIsValid(quote: char, units: seq<QuoteUnit>)
    requires ValidQuoteUnits(quote, units) && units != []
    ensures ValidQuoteUnit(quote, units[0]) && ValidQuoteUnits(quote, units[1..])
    ensures QuoteText(quote, units) == QuoteUnitText(quote, units[0]) + QuoteText(quote, units[1..])
  {
    assert forall k :: 0 <= k < |units| - 1 ==> units[1..][k] == units[k + 1];
  }

  lemma {:induction false} QuotesSplit(sql: string, i: nat, quote: char, units: seq<QuoteUnit>, to: nat, next: nat)
    requires QuotesUpTo(sql, i, quote, units, to) && units != [] && next == i + |QuoteUnitText(quote, units[0])|
    ensures ValidQuoteUnit(quote, units[0]) && At(sql, i, QuoteUnitText(quote, units[0]))
    ensures i + |QuoteText(quote, units)| == next + |QuoteText(quote, units[1..])|
    ensures QuotesUpTo(sql, next, quote, units[1..], to)
  {
    FirstUnitIsValid(quote, units);
    AtSplit(sql, i, QuoteUnitText(quote, units[0]), QuoteText(quote, units[1..]));
  }

  lemma QuoteEndsHere(sql: string, i: nat, quote: char, to: nat)
    requires IsQuote(quote) && i <= |sql| && QuotesUpTo(sql, i, quote, [], to)
    ensures to == EndOrAll(sql, ModeEnd(sql, i, Quoted(quote)))
    ensures ModeEnd(sql, i, Quoted(quote)).Some? <==> ClosesAt(sql, quote, i, to)
  {
    if i < to && sql[i] == '\\' {
      assert ModeEnd(sql, |sql|, Quoted(quote)).None?;
    }
  }

  /** Units up to a closing quote, or up to the end, leave only one end. */
  lemma {:induction false} QuotesEndOnce(sql: string, i: nat, quote: char, units: seq<QuoteUnit>, to: nat)
    requires IsQuote(quote) && i <= |sql| && QuotesUpTo(sql, i, quote, units, to)
    ensures to == EndOrAll(sql, ModeEnd(sql, i, Quoted(quote)))
    ensures ModeEnd(sql, i, Quoted(quote)).Some? <==> ClosesAt(sql, quote, i + |QuoteText(quote, units)|, to)
    decreases |units|
  {
    if units == [] {
      QuoteEndsHere(sql, i, quote, to);
    } else {
      var next := i + |QuoteUnitText(quote, units[0])|;
      QuotesSplit(sql, i, quote, units, to, next);
      UnitKeepsEnd(sql, i, quote, units[0], next);
      QuotesEndOnce(sql, next, quote, units[1..], to);
    }
  }

  /** The separator between breakpoints, spelled out. */
  lemma DelimiterIsBreakpoint(sql: string, i: nat)
    ensures DelimiterAt(sql, i) <==> At(sql, i, "--> statement-breakpoint")
  {
    StartsWithIsAt(sql, i, DELIMITER, 0);
  }

  lemma DelimiterIsDashes(sql: string, i: nat)
    requires DelimiterAt(sql, i)
    ensures PairAt(sql, i, '-', '-')
  {
    StartsWithIsAt(sql, i, DELIMITER, 0);
    assert DELIMITER[0] == '-' && DELIMITER[1] == '-' && sql[i + 0] == DELIMITER[0] && sql[i + 1] == DELIMITER[1];
  }

  lemma LineRemarkEndsOnce(sql: string, from: nat, to: nat)
    requires IsLineRemark(sql, from, to)
    ensures to == EndOrAll(sql, ModeEnd(sql, from + 2, LineComment))
  {
    LineEndIsFirst(sql, from + 2);
  }

  lemma BlockRemarkEndsOnce(sql: string, from: nat, to: nat)
    requires IsBlockRemark(sql, from, to)
    ensures to == EndOrAll(sql, ModeEnd(sql, from + 2, BlockComment))
  {
    BlockEndIsFirst(sql, from + 2);
  }

  lemma QuotationEndsOnce(sql: string, from: nat, to: nat)
    requires IsQuotation(sql, from, to)
    ensures to == EndOrAll(sql, ModeEnd(sql, from + 1, Quoted(sql[from])))
  {
    var units: seq<QuoteUnit> :| QuotesUpTo(sql, from + 1, sql[from], units, to);
    QuotesEndOnce(sql, from + 1, sql[from], units, to);
  }

  /** The definitions of the lexemes leave only one lexeme at every index. */
  lemma SpanIsSpanAt(sql: string, s: Span)
    requires IsSpan(sql, s)
    ensures s == SpanAt(sql, s.from)
  {
    if DelimiterAt(sql, s.from) {
      DelimiterIsDashes(sql, s.from);
    }
    match s.kind
    case LineRemark => LineRemarkEndsOnce(sql, s.from, s.to);
    case BlockRemark => BlockRemarkEndsOnce(sql, s.from, s.to);
    case Quotation => QuotationEndsOnce(sql, s.from, s.to);
    case _ =>
  }

  lemma {:induction false} TilesAreSpans(sql: string, spans: seq<Span>, i: nat)
    requires Tiles(sql, spans, i, |sql|)
    ensures i <= |sql| && spans == Spans(sql, i)
  {
    if spans != [] {
      SpanIsSpanAt(sql, spans[0]);
      TilesAreSpans(sql, spans[1..], spans[0].to);
      assert spans == [spans[0]] + spans[1..];
    }
  }

  /**
   The splitter in terms of lexemes. A script is divided into comments, quotations,
   separators and other characters in exactly one way; the raw statements are what lies
   between the separators, and with the separators put back they are the script.
   */
  lemma SplitIsLexical(sql: string, spans: seq<Span>, pieces: seq<string>)
    requires Tiles(sql, spans, 0, |sql|) && pieces == Pieces(sql, spans, 0, 0)
    ensures RawStatements(sql) == WithoutEmptyLast(pieces)
    ensures Interleaved(pieces, Separators(sql, spans)) == sql
    ensures spans == Spans(sql, 0)
  {
    TilesAreSpans(sql, spans, 0);
    RawArePieces(sql, pieces);
    PiecesRebuild(sql, 0, 0);
  }
}
