/**
 The boundary scanner for JSON values inside free text. The scanner walks over characters
 with a stack of expected closers and two string flags; the language it recognizes is
 defined separately, by printing trees of brackets, strings and plain characters.
 */
module JsonScanner {
  import opened Texts

  // ------------------------------------------------------------------ language

  /** A character of a string, or a backslash together with the character after it. */
  datatype Unit = Bare(c: char) | Escaped(c: char)

  datatype Token =
    | Plain(c: char)
    | Quoted(units: seq<Unit>)
    | Group(close: char, items: seq<Token>)

  predicate IsOpen(c: char) {
    c == '{' || c == '['
  }

  predicate IsClose(c: char) {
    c == '}' || c == ']'
  }

  function CloserOf(open: char): char {
    if open == '{' then '}' else ']'
  }

  function OpenerOf(close: char): (open: char)
    ensures IsOpen(open) && (IsClose(close) ==> CloserOf(open) == close)
  {
    if close == '}' then '{' else '['
  }

  predicate ValidUnit(u: Unit) {
    u.Bare? ==> u.c != '"' && u.c != '\\'
  }

  predicate ValidToken(t: Token) {
    match t
    case Plain(c) => c != '"' && !IsOpen(c) && !IsClose(c)
    case Quoted(units) => forall i :: 0 <= i < |units| ==> ValidUnit(units[i])
    case Group(close, items) => IsClose(close) && forall i :: 0 <= i < |items| ==> ValidToken(items[i])
  }

  function PrintUnits(units: seq<Unit>): string {
    if units == [] then ""
    else (if units[0].Bare? then [units[0].c] else ['\\', units[0].c]) + PrintUnits(units[1..])
  }

  function PrintToken(t: Token): string
    decreases t, 0
  {
    match t
    case Plain(c) => [c]
    case Quoted(units) => "\"" + PrintUnits(units) + "\""
    case Group(close, items) => [OpenerOf(close)] + PrintAll(items) + [close]
  }

  function PrintAll(items: seq<Token>): string
    decreases items, 1
  {
    if items == [] then "" else PrintToken(items[0]) + PrintAll(items[1..])
  }

  // ------------------------------------------------------------------- scanner

  /** `Found` gives the index after the value, `NotFound` the index where to look next. */
  datatype Boundary = Found(end: nat, primitive: bool) | NotFound(resumeAt: nat)

  datatype State = State(stack: seq<char>, inString: bool, escaped: bool)

  datatype Outcome = Going(state: State) | Done | Mismatch

  /** What one character does to the scanner's state. */
  function Step(state: State, c: char): Outcome {
    if state.inString then
      if state.escaped then Going(state.(escaped := false))
      else if c == '\\' then Going(state.(escaped := true))
      else if c == '"' then Going(state.(inString := false))
      else Going(state)
    else if c == '"' then Going(state.(inString := true))
    else if IsOpen(c) then Going(state.(stack := state.stack + [CloserOf(c)]))
    else if IsClose(c) then
      if state.stack == [] || state.stack[|state.stack| - 1] != c then Mismatch
      else if |state.stack| == 1 then Done
      else Going(state.(stack := state.stack[..|state.stack| - 1]))
    else Going(state)
  }

  function Scan(text: string, index: nat, state: State): Boundary
    requires index <= |text|
    decreases |text| - index
  {
    if index == |text| then NotFound(|text|)
    else match Step(state, text[index])
         case Going(next) => Scan(text, index + 1, next)
         case Done => Found(index + 1, false)
         case Mismatch => NotFound(index + 1)
  }

  function Outside(stack: seq<char>): State {
    State(stack, false, false)
  }

  method FindCompositeJsonEnd(text: string, start: nat) returns (boundary: Boundary)
    requires start <= |text|
    ensures boundary == Scan(text, start, Outside([]))
  {
    var stack: seq<char> := [];
    var (inString, escaped) := (false, false);
    for index := start to |text|
      invariant Scan(text, start, Outside([])) == Scan(text, index, State(stack, inString, escaped))
      invariant escaped ==> inString
    {
      var c := text[index];
      if inString {
        if escaped {
          escaped := false;
        } else if c == '\\' {
          escaped := true;
        } else if c == '"' {
          inString := false;
        }
        continue;
      }
      if c == '"' {
        inString := true;
        continue;
      }
      if c == '{' || c == '[' {
        stack := stack + [CloserOf(c)];
        continue;
      }
      if c == '}' || c == ']' {
        if |stack| == 0 || stack[|stack| - 1] != c {
          return NotFound(index + 1);
        }
        stack := stack[..|stack| - 1];
        if |stack| == 0 {
          return Found(index + 1, false);
        }
      }
    }
    return NotFound(|text|);
  }

  // -------------------------------------------------------------- completeness

  lemma {:induction false} ScanUnits(text: string, i: nat, units: seq<Unit>, stack: seq<char>)
    requires forall k :: 0 <= k < |units| ==> ValidUnit(units[k])
    requires At(text, i, PrintUnits(units))
    ensures i + |PrintUnits(units)| <= |text|
    ensures Scan(text, i, State(stack, true, false)) == Scan(text, i + |PrintUnits(units)|, State(stack, true, false))
    decreases |units|
  {
    if units != [] {
      var first := if units[0].Bare? then [units[0].c] else ['\\', units[0].c];
      AtSplit(text, i, first, PrintUnits(units[1..]));
      assert text[i + 0] == first[0] && (units[0].Escaped? ==> text[i + 1] == first[1]);
      ScanUnits(text, i + |first|, units[1..], stack);
    }
  }

  lemma ScanQuoted(text: string, i: nat, units: seq<Unit>, stack: seq<char>)
    requires forall k :: 0 <= k < |units| ==> ValidUnit(units[k])
    requires At(text, i, PrintToken(Quoted(units)))
    ensures i + |PrintToken(Quoted(units))| <= |text|
    ensures Scan(text, i, Outside(stack)) == Scan(text, i + |PrintToken(Quoted(units))|, Outside(stack))
  {
    var n := |PrintUnits(units)|;
    AtSplit(text, i, "\"" + PrintUnits(units), "\"");
    AtSplit(text, i, "\"", PrintUnits(units));
    AtChar(text, i, '"');
    AtChar(text, i + 1 + n, '"');
    ScanUnits(text, i + 1, units, stack);
  }

  /** Inside an open bracket the scanner passes over a token and is as before. */
  lemma {:induction false} ScanToken(text: string, i: nat, t: Token, stack: seq<char>)
    requires ValidToken(t) && stack != [] && At(text, i, PrintToken(t))
    ensures i + |PrintToken(t)| <= |text|
    ensures Scan(text, i, Outside(stack)) == Scan(text, i + |PrintToken(t)|, Outside(stack))
    decreases t, 0
  {
    match t
    case Plain(c) => AtChar(text, i, c);
    case Quoted(units) => ScanQuoted(text, i, units, stack);
    case Group(close, items) =>
      ScanBody(text, i, close, items, stack);
      assert (stack + [close])[..|stack|] == stack;
  }

  /** A bracket opens, its contents pass, and the scanner stands before the closer. */
  lemma {:induction false} ScanBody(text: string, i: nat, close: char, items: seq<Token>, stack: seq<char>)
    requires IsClose(close) && (forall k :: 0 <= k < |items| ==> ValidToken(items[k]))
    requires At(text, i, PrintToken(Group(close, items)))
    ensures i + 1 + |PrintAll(items)| < |text| && text[i + 1 + |PrintAll(items)|] == close
    ensures Scan(text, i, Outside(stack)) == Scan(text, i + 1 + |PrintAll(items)|, Outside(stack + [close]))
    decreases items, 1
  {
    AtSplit(text, i, [OpenerOf(close)] + PrintAll(items), [close]);
    AtSplit(text, i, [OpenerOf(close)], PrintAll(items));
    AtChar(text, i, OpenerOf(close));
    AtChar(text, i + 1 + |PrintAll(items)|, close);
    ScanAll(text, i + 1, items, stack + [close]);
  }

  lemma {:induction false} ScanAll(text: string, i: nat, items: seq<Token>, stack: seq<char>)
    requires (forall k :: 0 <= k < |items| ==> ValidToken(items[k])) && stack != [] && At(text, i, PrintAll(items))
    ensures i + |PrintAll(items)| <= |text|
    ensures Scan(text, i, Outside(stack)) == Scan(text, i + |PrintAll(items)|, Outside(stack))
    decreases items, 0
  {
    if items != [] {
      var (first, rest) := (PrintToken(items[0]), PrintAll(items[1..]));
      assert PrintAll(items) == first + rest;
      AtSplit(text, i, first, rest);
      ScanToken(text, i, items[0], stack);
      ScanAll(text, i + |first|, items[1..], stack);
    }
  }

  // ------------------------------------------------------------------ soundness

  /** From inside a string the scanner only finds an end after the string has closed. */
  lemma {:induction false} ParseUnits(text: string, i: nat, stack: seq<char>, end: nat) returns (units: seq<Unit>, j: nat)
    requires i <= |text| && Scan(text, i, State(stack, true, false)) == Found(end, false)
    ensures forall k :: 0 <= k < |units| ==> ValidUnit(units[k])
    ensures i <= j < |text| && text[i..j] == PrintUnits(units) && text[j] == '"'
    ensures Scan(text, j + 1, Outside(stack)) == Found(end, false)
    decreases |text| - i
  {
    if text[i] == '"' {
      return [], i;
    }
    var width := if text[i] == '\\' then 2 else 1;
    assert width == 2 ==> i + 1 < |text| && Scan(text, i + 1, State(stack, true, true)) == Found(end, false);
    var rest;
    rest, j := ParseUnits(text, i + width, stack, end);
    units := [if width == 2 then Escaped(text[i + 1]) else Bare(text[i])] + rest;
    assert units[1..] == rest;
    assert text[i..j] == text[i..i + width] + text[i + width..j];
  }

  /** With brackets open, the tokens up to the closer of the innermost one. */
  lemma {:induction false} ParseTokens(text: string, i: nat, stack: seq<char>, end: nat) returns (items: seq<Token>, j: nat)
    requires i <= |text| && stack != [] && (forall k :: 0 <= k < |stack| ==> IsClose(stack[k]))
    requires Scan(text, i, Outside(stack)) == Found(end, false)
    ensures forall k :: 0 <= k < |items| ==> ValidToken(items[k])
    ensures i <= j < |text| && text[i..j] == PrintAll(items) && text[j] == stack[|stack| - 1]
    ensures if |stack| == 1 then end == j + 1 else Scan(text, j + 1, Outside(stack[..|stack| - 1])) == Found(end, false)
    decreases |text| - i, 1
  {
    if IsClose(text[i]) {
      return [], i;
    }
    var first, k := ParseToken(text, i, stack, end);
    var rest;
    rest, j := ParseTokens(text, k, stack, end);
    items := [first] + rest;
    assert items[1..] == rest;
    assert text[i..j] == text[i..k] + text[k..j];
  }

  lemma {:induction false} ParseToken(text: string, i: nat, stack: seq<char>, end: nat) returns (t: Token, k: nat)
    requires i < |text| && stack != [] && (forall k :: 0 <= k < |stack| ==> IsClose(stack[k])) && !IsClose(text[i])
    requires Scan(text, i, Outside(stack)) == Found(end, false)
    ensures ValidToken(t) && i < k <= |text| && text[i..k] == PrintToken(t) && Scan(text, k, Outside(stack)) == Found(end, false)
    decreases |text| - i, 0
  {
    if text[i] == '"' {
      t, k := ParseQuoted(text, i, stack, end);
    } else if IsOpen(text[i]) {
      var inner := stack + [CloserOf(text[i])];
      var items, close := ParseTokens(text, i + 1, inner, end);
      assert inner[..|inner| - 1] == stack;
      t, k := Group(CloserOf(text[i]), items), close + 1;
      Around(text, i, close);
    } else {
      t, k := Plain(text[i]), i + 1;
    }
  }

  lemma Around(text: string, i: nat, j: nat)
    requires i < j < |text|
    ensures text[i..j + 1] == [text[i]] + text[i + 1..j] + [text[j]]
  {
  }

  lemma ParseQuoted(text: string, i: nat, stack: seq<char>, end: nat) returns (t: Token, k: nat)
    requires i < |text| && text[i] == '"' && Scan(text, i, Outside(stack)) == Found(end, false)
    ensures t.Quoted? && ValidToken(t)
    ensures i < k <= |text| && text[i..k] == PrintToken(t) && Scan(text, k, Outside(stack)) == Found(end, false)
  {
    var units, j := ParseUnits(text, i + 1, stack, end);
    t, k := Quoted(units), j + 1;
    Around(text, i, j);
  }

  // --------------------------------------------------------------- main results

  /** The text from one index to another is one balanced bracket, strings taken whole. */
  ghost predicate IsGroupAt(text: string, start: nat, end: nat) {
    && start <= end <= |text|
    && exists t: Token :: t.Group? && ValidToken(t) && PrintToken(t) == text[start..end]
  }

  lemma GroupIsFound(text: string, start: nat, t: Token)
    requires t.Group? && ValidToken(t) && At(text, start, PrintToken(t))
    ensures Scan(text, start, Outside([])) == Found(start + |PrintToken(t)|, false)
  {
    ScanBody(text, start, t.close, t.items, []);
    assert [] + [t.close] == [t.close];
  }

  lemma FoundIsGroup(text: string, start: nat, end: nat)
    requires start < |text| && IsOpen(text[start]) && Scan(text, start, Outside([])) == Found(end, false)
    ensures IsGroupAt(text, start, end)
  {
    var close := CloserOf(text[start]);
    assert [] + [close] == [close];
    var items, j := ParseTokens(text, start + 1, [close], end);
    var t := Group(close, items);
    Around(text, start, j);
    assert PrintToken(t) == text[start..end];
  }

  /**
   The scanner finds an end exactly where a balanced bracket ends. It finds no other end,
   so no proper prefix and no extension of a found value is balanced.
   */
  lemma CompositeBoundaryIsExact(text: string, start: nat, end: nat)
    requires start < |text| && IsOpen(text[start])
    ensures Scan(text, start, Outside([])) == Found(end, false) <==> IsGroupAt(text, start, end)
  {
    if IsGroupAt(text, start, end) {
      var t: Token :| t.Group? && ValidToken(t) && PrintToken(t) == text[start..end];
      assert At(text, start, PrintToken(t));
      GroupIsFound(text, start, t);
    }
    if Scan(text, start, Outside([])) == Found(end, false) {
      FoundIsGroup(text, start, end);
    }
  }

  // ------------------------------------------------------------ broken brackets

  /** A bracket that is still open, with the whole tokens after it. */
  datatype Level = Level(close: char, items: seq<Token>)

  predicate ValidLevel(level: Level) {
    IsClose(level.close) && forall i :: 0 <= i < |level.items| ==> ValidToken(level.items[i])
  }

  function PrintLevel(level: Level): string {
    [OpenerOf(level.close)] + PrintAll(level.items)
  }

  /** Open brackets from the outermost to the innermost. */
  function PrintLevels(levels: seq<Level>): string {
    if levels == [] then "" else PrintLevels(levels[..|levels| - 1]) + PrintLevel(levels[|levels| - 1])
  }

  function Closers(levels: seq<Level>): (closers: seq<char>)
    ensures |closers| == |levels|
    ensures levels != [] ==> closers[|closers| - 1] == levels[|levels| - 1].close
  {
    if levels == [] then [] else Closers(levels[..|levels| - 1]) + [levels[|levels| - 1].close]
  }

  lemma {:induction false} ScanLevel(text: string, i: nat, level: Level, stack: seq<char>)
    requires ValidLevel(level) && At(text, i, PrintLevel(level))
    ensures i + |PrintLevel(level)| <= |text|
    ensures Scan(text, i, Outside(stack)) == Scan(text, i + |PrintLevel(level)|, Outside(stack + [level.close]))
  {
    AtSplit(text, i, [OpenerOf(level.close)], PrintAll(level.items));
    AtChar(text, i, OpenerOf(level.close));
    ScanAll(text, i + 1, level.items, stack + [level.close]);
  }

  lemma {:induction false} ScanLevels(text: string, i: nat, levels: seq<Level>)
    requires i <= |text| && (forall k :: 0 <= k < |levels| ==> ValidLevel(levels[k])) && At(text, i, PrintLevels(levels))
    ensures i + |PrintLevels(levels)| <= |text|
    ensures Scan(text, i, Outside([])) == Scan(text, i + |PrintLevels(levels)|, Outside(Closers(levels)))
  {
    if levels != [] {
      var (front, last) := (levels[..|levels| - 1], levels[|levels| - 1]);
      AtSplit(text, i, PrintLevels(front), PrintLevel(last));
      ScanLevels(text, i, front);
      ScanLevel(text, i + |PrintLevels(front)|, last, Closers(front));
    }
  }

  /**
   Where open brackets are followed by the wrong closer nothing is found, and the search is
   to go on right after that closer; open brackets up to the end of the text find nothing.
   */
  lemma {:induction false} BrokenIsNotFound(text: string, start: nat, levels: seq<Level>, stop: nat)
    requires levels != [] && (forall k :: 0 <= k < |levels| ==> ValidLevel(levels[k])) && At(text, start, PrintLevels(levels))
    requires stop == start + |PrintLevels(levels)|
    ensures stop == |text| ==> Scan(text, start, Outside([])) == NotFound(|text|)
    ensures stop < |text| && IsClose(text[stop]) && text[stop] != levels[|levels| - 1].close ==>
              Scan(text, start, Outside([])) == NotFound(stop + 1)
  {
    ScanLevels(text, start, levels);
  }

  lemma BalancedTextEndsOnce(text: string, start: nat, end: nat, other: nat)
    requires start < |text| && IsOpen(text[start]) && IsGroupAt(text, start, end) && IsGroupAt(text, start, other)
    ensures end == other
  {
    CompositeBoundaryIsExact(text, start, end);
    CompositeBoundaryIsExact(text, start, other);
  }
}
