/**
 The splitter of SQL scripts into statements. Quotes and comments are taken whole; a
 semicolon or a breakpoint line outside of them ends a statement.
 */
module SqlSplitter {
  import opened Wrappers
  import opened Texts

  const DELIMITER := "--> statement-breakpoint"

  datatype Mode = Neutral | LineComment | BlockComment | Quoted(quote: char)

  /** What the splitter takes at one index: how many characters, whether they separate, and the mode after them. */
  datatype Move = Move(length: nat, separates: bool, mode: Mode)

  predicate IsQuote(c: char) {
    c == '\'' || c == '"' || c == '`'
  }

  predicate DelimiterAt(sql: string, i: nat) {
    StartsWith(sql, i, DELIMITER, 0)
  }

  predicate PairAt(sql: string, i: nat, first: char, second: char) {
    i + 1 < |sql| && sql[i] == first && sql[i + 1] == second
  }

  function QuotedMove(sql: string, i: nat, quote: char): Move
    requires i < |sql|
  {
    var follows := i + 1 < |sql|;
    if sql[i] == '\\' && follows then Move(2, false, Quoted(quote))
    else if sql[i] == quote && follows && sql[i + 1] == quote then Move(2, false, Quoted(quote))
    else Move(1, false, if sql[i] == quote then Neutral else Quoted(quote))
  }

  function NeutralMove(sql: string, i: nat): Move
    requires i < |sql|
  {
    if DelimiterAt(sql, i) then Move(|DELIMITER|, true, Neutral)
    else if sql[i] == ';' then Move(1, true, Neutral)
    else if PairAt(sql, i, '-', '-') then Move(2, false, LineComment)
    else if PairAt(sql, i, '/', '*') then Move(2, false, BlockComment)
    else if IsQuote(sql[i]) then Move(1, false, Quoted(sql[i]))
    else Move(1, false, Neutral)
  }

  function MoveAt(sql: string, i: nat, mode: Mode): (move: Move)
    requires i < |sql|
    ensures 1 <= move.length && i + move.length <= |sql|
  {
    match mode
    case LineComment => Move(1, false, if sql[i] == '\n' then Neutral else LineComment)
    case BlockComment => if PairAt(sql, i, '*', '/') then Move(2, false, Neutral) else Move(1, false, BlockComment)
    case Quoted(quote) => QuotedMove(sql, i, quote)
    case Neutral => NeutralMove(sql, i)
  }

  datatype Progress = Progress(statements: seq<string>, current: string, mode: Mode, index: nat)

  function Apply(sql: string, p: Progress): Progress
    requires p.index < |sql|
  {
    var move := MoveAt(sql, p.index, p.mode);
    var next := p.index + move.length;
    if move.separates then Progress(p.statements + [p.current], "", move.mode, next)
    else Progress(p.statements, p.current + sql[p.index..next], move.mode, next)
  }

  function Run(sql: string, p: Progress): (end: Progress)
    requires p.index <= |sql|
    ensures end.index == |sql|
    decreases |sql| - p.index
  {
    if p.index == |sql| then p else Run(sql, Apply(sql, p))
  }

  const START := Progress([], "", Neutral, 0)

  /** The statements before white space is taken off. */
  function RawStatements(sql: string): seq<string> {
    var end := Run(sql, START);
    if end.current == "" then end.statements else end.statements + [end.current]
  }

  // ------------------------------------------------------------------ statements

  /** White space and one trailing semicolon are taken off; nothing is left of an empty part. */
  function NormalizePart(statement: string): seq<string> {
    var part := Trim(statement);
    if part == "" then []
    else if part[|part| - 1] == ';' then [Trim(part[..|part| - 1])]
    else [part]
  }

  function Normalize(statements: seq<string>): seq<string> {
    if statements == [] then [] else NormalizePart(statements[0]) + Normalize(statements[1..])
  }

  function Split(sql: string): seq<string> {
    Normalize(RawStatements(sql))
  }

  // ------------------------------------------------------------------- the state

  /** The splitter's mutable state. At most one of the quote and the two comment flags is set. */
  class SplitSqlState {
    const sql: string
    var statements: seq<string>
    var current: string
    var quote: Option<char>
    var lineComment: bool
    var blockComment: bool
    var index: nat

    predicate Valid()
      reads this
    {
      !(lineComment && blockComment) && !(lineComment && quote.Some?) && !(blockComment && quote.Some?)
    }

    function ModeNow(): Mode
      reads this
    {
      if lineComment then LineComment
      else if blockComment then BlockComment
      else if quote.Some? then Quoted(quote.value)
      else Neutral
    }

    function View(): Progress
      reads this
    {
      Progress(statements, current, ModeNow(), index)
    }

    /** The view after the index that the loop adds. */
    function Advanced(): Progress
      reads this
    {
      View().(index := index + 1)
    }

    constructor (sql: string)
      ensures Valid() && this.sql == sql && View() == START
    {
      this.sql := sql;
      statements, current, quote, lineComment, blockComment, index := [], "", None, false, false, 0;
    }

    method PushStatement()
      modifies this`statements, this`current
      ensures statements == old(statements) + [old(current)] && current == ""
    {
      statements := statements + [current];
      current := "";
    }

    method AppendCurrentAndAdvance(value: string, offset: nat)
      modifies this`current, this`index
      ensures current == old(current) + value && index == old(index) + offset
    {
      current := current + value;
      index := index + offset;
    }

    method HandleLineComment() returns (handled: bool)
      requires Valid() && index < |sql|
      modifies this
      ensures Valid() && handled == old(lineComment)
      ensures Handled(handled)
    {
      if !lineComment {
        return false;
      }
      var c := sql[index];
      AppendCurrentAndAdvance([c], 0);
      if c == '\n' {
        lineComment := false;
      }
      return true;
    }

    /** A handler either performs the whole move at the index or leaves the state alone. */
    twostate predicate Handled(handled: bool)
      requires old(index) < |sql|
      reads this
    {
      if handled then Advanced() == Apply(sql, old(View())) else View() == old(View())
    }

    method HandleBlockComment() returns (handled: bool)
      requires Valid() && index < |sql|
      modifies this
      ensures Valid() && handled == old(blockComment)
      ensures Handled(handled)
    {
      if !blockComment {
        return false;
      }
      if PairAt(sql, index, '*', '/') {
        AppendCurrentAndAdvance(sql[index..index + 2], 1);
        blockComment := false;
        return true;
      }
      AppendCurrentAndAdvance([sql[index]], 0);
      return true;
    }

    method HandleQuotedText() returns (handled: bool)
      requires Valid() && !lineComment && !blockComment && index < |sql|
      modifies this
      ensures Valid() && !lineComment && !blockComment && handled == old(quote.Some?)
      ensures Handled(handled)
    {
      if quote.None? {
        return false;
      }
      var c := sql[index];
      if c == '\\' && index + 1 < |sql| {
        AppendCurrentAndAdvance(sql[index..index + 2], 1);
        return true;
      }
      if c == quote.value && index + 1 < |sql| && sql[index + 1] == quote.value {
        AppendCurrentAndAdvance(sql[index..index + 2], 1);
        return true;
      }
      assert [c] == sql[index..index + 1];
      AppendCurrentAndAdvance([c], 0);
      if c == quote.value {
        quote := None;
      }
      return true;
    }

    method HandleStatementBoundary() returns (handled: bool)
      requires ModeNow() == Neutral && index < |sql|
      modifies this
      ensures ModeNow() == Neutral && handled == (DelimiterAt(sql, old(index)) || sql[old(index)] == ';')
      ensures Handled(handled)
    {
      if DelimiterAt(sql, index) {
        PushStatement();
        index := index + |DELIMITER| - 1;
        return true;
      }
      if sql[index] == ';' {
        PushStatement();
        return true;
      }
      return false;
    }

    method HandleCommentStart() returns (handled: bool)
      requires ModeNow() == Neutral && index < |sql| && !DelimiterAt(sql, index) && sql[index] != ';'
      modifies this
      ensures Valid() && handled == (PairAt(sql, old(index), '-', '-') || PairAt(sql, old(index), '/', '*'))
      ensures Handled(handled)
    {
      if PairAt(sql, index, '-', '-') {
        AppendCurrentAndAdvance(sql[index..index + 2], 1);
        lineComment := true;
        return true;
      }
      if PairAt(sql, index, '/', '*') {
        AppendCurrentAndAdvance(sql[index..index + 2], 1);
        blockComment := true;
        return true;
      }
      return false;
    }

    method HandleQuoteStart() returns (handled: bool)
      requires ModeNow() == Neutral && index < |sql| && !DelimiterAt(sql, index) && sql[index] != ';'
      requires !PairAt(sql, index, '-', '-') && !PairAt(sql, index, '/', '*')
      modifies this
      ensures Valid() && handled == IsQuote(sql[old(index)])
      ensures Handled(handled)
    {
      if !IsQuote(sql[index]) {
        return false;
      }
      AppendCurrentAndAdvance([sql[index]], 0);
      quote := Some(sql[index]);
      return true;
    }

    /** Offers the character to the handlers in their order. */
    method HandleCharacter()
      requires Valid() && index < |sql|
      modifies this
      ensures Valid() && Advanced() == Apply(sql, old(View()))
    {
      var handled := HandleLineComment();
      if handled {
        return;
      }
      handled := HandleBlockComment();
      if handled {
        return;
      }
      handled := HandleQuotedText();
      if handled {
        return;
      }
      handled := HandleStatementBoundary();
      if handled {
        return;
      }
      handled := HandleCommentStart();
      if handled {
        return;
      }
      handled := HandleQuoteStart();
      if handled {
        return;
      }
      AppendCurrentAndAdvance([sql[index]], 0);
    }
  }

  method SplitSqlStatements(sql: string) returns (result: seq<string>)
    ensures result == Split(sql)
  {
    var state := new SplitSqlState(sql);
    while state.index < |sql|
      invariant state.Valid() && state.sql == sql && state.index <= |sql|
      invariant Run(sql, START) == Run(sql, state.View())
      invariant fresh(state)
      decreases |sql| - state.index
    {
      state.HandleCharacter();
      state.index := state.index + 1;
    }
    if |state.current| > 0 {
      state.PushStatement();
    }
    result := Normalize(state.statements);
  }
}
