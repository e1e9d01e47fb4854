/** The scanner for strings, numbers and words: the values that JSON texts hold besides arrays and objects. */
module JsonPrimitives {
  import opened Wrappers
  import opened Texts
  import opened JsonScanner

  // ------------------------------------------------------------------- strings

  /** The end of the string whose opening quote lies before the index. */
  function ScanString(text: string, index: nat, escaped: bool): Boundary
    requires index <= |text|
    decreases |text| - index
  {
    if index == |text| then NotFound(|text|)
    else if escaped then ScanString(text, index + 1, false)
    else if text[index] == '\\' then ScanString(text, index + 1, true)
    else if text[index] == '"' then Found(index + 1, true)
    else ScanString(text, index + 1, false)
  }

  method FindStringJsonEnd(text: string, start: nat) returns (boundary: Boundary)
    requires start < |text|
    ensures boundary == ScanString(text, start + 1, false)
  {
    var escaped := false;
    for index := start + 1 to |text|
      invariant ScanString(text, start + 1, false) == ScanString(text, index, escaped)
    {
      var c := text[index];
      if escaped {
        escaped := false;
      } else if c == '\\' {
        escaped := true;
      } else if c == '"' {
        return Found(index + 1, true);
      }
    }
    return NotFound(|text|);
  }

  lemma {:induction false} UnitsPass(text: string, i: nat, units: seq<Unit>)
    requires forall k :: 0 <= k < |units| ==> ValidUnit(units[k])
    requires At(text, i, PrintUnits(units))
    ensures i + |PrintUnits(units)| <= |text|
    ensures ScanString(text, i, false) == ScanString(text, i + |PrintUnits(units)|, false)
    decreases |units|
  {
    if units != [] {
      var first := if units[0].Bare? then [units[0].c] else ['\\', units[0].c];
      AtSplit(text, i, first, PrintUnits(units[1..]));
      assert text[i + 0] == first[0] && (units[0].Escaped? ==> text[i + 1] == first[1]);
      UnitsPass(text, i + |first|, units[1..]);
    }
  }

  lemma {:induction false} UnitsUpTo(text: string, i: nat, end: nat) returns (units: seq<Unit>)
    requires i <= |text| && ScanString(text, i, false) == Found(end, true)
    ensures forall k :: 0 <= k < |units| ==> ValidUnit(units[k])
    ensures i < end <= |text| && text[end - 1] == '"' && text[i..end - 1] == PrintUnits(units)
    decreases |text| - i
  {
    if text[i] == '"' {
      return [];
    }
    var width := if text[i] == '\\' then 2 else 1;
    assert width == 2 ==> i + 1 < |text| && ScanString(text, i + 1, true) == Found(end, true);
    var rest := UnitsUpTo(text, i + width, end);
    units := [if width == 2 then Escaped(text[i + 1]) else Bare(text[i])] + rest;
    assert units[1..] == rest;
    assert text[i..end - 1] == text[i..i + width] + text[i + width..end - 1];
  }

  /** The text from one index to another is one string with its quotes. */
  ghost predicate IsQuotedAt(text: string, start: nat, end: nat) {
    && start <= end <= |text|
    && exists t: Token :: t.Quoted? && ValidToken(t) && PrintToken(t) == text[start..end]
  }

  lemma AtQuotes(text: string, start: nat, body: string)
    requires At(text, start, "\"" + body + "\"")
    ensures start + 1 + |body| < |text| && text[start] == '"' && text[start + 1 + |body|] == '"'
    ensures At(text, start + 1, body)
  {
    AtSplit(text, start, "\"" + body, "\"");
    AtSplit(text, start, "\"", body);
    AtChar(text, start, '"');
    AtChar(text, start + 1 + |body|, '"');
  }

  lemma QuotedIsFound(text: string, start: nat, t: Token)
    requires t.Quoted? && ValidToken(t) && At(text, start, PrintToken(t))
    ensures start < |text| && text[start] == '"'
    ensures ScanString(text, start + 1, false) == Found(start + |PrintToken(t)|, true)
  {
    AtQuotes(text, start, PrintUnits(t.units));
    UnitsPass(text, start + 1, t.units);
  }

  /** The string scanner finds exactly the end of the string that starts at the quote. */
  lemma StringBoundaryIsExact(text: string, start: nat, end: nat)
    requires start < |text| && text[start] == '"'
    ensures ScanString(text, start + 1, false) == Found(end, true) <==> IsQuotedAt(text, start, end)
  {
    if IsQuotedAt(text, start, end) {
      var t: Token :| t.Quoted? && ValidToken(t) && PrintToken(t) == text[start..end];
      assert At(text, start, PrintToken(t));
      QuotedIsFound(text, start, t);
    }
    if ScanString(text, start + 1, false) == Found(end, true) {
      var units := UnitsUpTo(text, start + 1, end);
      assert text[start..end] == [text[start]] + text[start + 1..end - 1] + [text[end - 1]];
      assert PrintToken(Quoted(units)) == text[start..end];
    }
  }

  // ------------------------------------------------------------ words and numbers

  predicate IsDigit(c: char) {
    '0' <= c <= '9'
  }

  predicate IsDigits(text: string) {
    forall i :: 0 <= i < |text| ==> IsDigit(text[i])
  }

  /** The characters after which a word or a number is complete. */
  predicate IsTerminator(c: char) {
    c == ',' || c == '}' || c == ']' || c == ' ' || c == '\t' || c == '\n' || c == '\r'
  }

  predicate Terminated(text: string, i: nat) {
    i == |text| || (i < |text| && IsTerminator(text[i]))
  }

  /** A number of section 6 of RFC 8259; empty digits stand for an absent part. */
  datatype Number = Number(negative: bool, integer: string, fraction: string, mark: char, sign: string, exponent: string)

  predicate ValidNumber(n: Number) {
    && n.integer != "" && IsDigits(n.integer) && (n.integer[0] == '0' ==> |n.integer| == 1)
    && IsDigits(n.fraction) && IsDigits(n.exponent)
    && (n.mark == 'e' || n.mark == 'E') && (n.sign == "" || n.sign == "+" || n.sign == "-")
  }

  function SignText(n: Number): string {
    if n.negative then "-" else ""
  }

  function FractionText(n: Number): string {
    if n.fraction == "" then "" else ['.'] + n.fraction
  }

  function ExponentText(n: Number): string {
    if n.exponent == "" then "" else [n.mark] + (n.sign + n.exponent)
  }

  function PrintNumber(n: Number): string {
    SignText(n) + (n.integer + (FractionText(n) + ExponentText(n)))
  }

  /** The end of the digits at an index. */
  function DigitsEnd(text: string, i: nat): (end: nat)
    requires i <= |text|
    ensures i <= end <= |text|
    ensures forall k :: i <= k < end ==> IsDigit(text[k])
    ensures end < |text| ==> !IsDigit(text[end])
    decreases |text| - i
  {
    if i < |text| && IsDigit(text[i]) then DigitsEnd(text, i + 1) else i
  }

  predicate DigitAt(text: string, i: nat) {
    i < |text| && IsDigit(text[i])
  }

  function IntegerEnd(text: string, i: nat): (end: nat)
    requires DigitAt(text, i)
    ensures i < end <= |text|
  {
    if text[i] == '0' then i + 1 else DigitsEnd(text, i + 1)
  }

  function FractionEnd(text: string, i: nat): (end: nat)
    requires i <= |text|
    ensures i <= end <= |text|
  {
    if i < |text| && text[i] == '.' && DigitAt(text, i + 1) then DigitsEnd(text, i + 1) else i
  }

  function ExponentEnd(text: string, i: nat): (end: nat)
    requires i <= |text|
    ensures i <= end <= |text|
  {
    if i < |text| && (text[i] == 'e' || text[i] == 'E') then
      var j := if i + 1 < |text| && (text[i + 1] == '+' || text[i + 1] == '-') then i + 2 else i + 1;
      if DigitAt(text, j) then DigitsEnd(text, j) else i
    else i
  }

  /** Where the digits of a number start. */
  function AfterSign(text: string, i: nat): nat
    requires i < |text|
  {
    if text[i] == '-' then i + 1 else i
  }

  /** The end of the longest number at an index; every part is taken greedily. */
  function NumberEnd(text: string, i: nat): (end: Option<nat>)
    requires i < |text|
    ensures end.Some? ==> i < end.value <= |text|
  {
    var j := AfterSign(text, i);
    if DigitAt(text, j) then Some(ExponentEnd(text, FractionEnd(text, IntegerEnd(text, j)))) else None
  }

  predicate IsWord(word: string) {
    word == "true" || word == "false" || word == "null"
  }

  function WordEnd(text: string, i: nat): (end: Option<nat>)
    ensures end.Some? ==> i < end.value <= |text|
  {
    if At(text, i, "true") then Some(i + 4)
    else if At(text, i, "false") then Some(i + 5)
    else if At(text, i, "null") then Some(i + 4)
    else None
  }

  /** What the anchored pattern for words and numbers matches. */
  function PrimitiveEnd(text: string, i: nat): (end: Option<nat>)
    requires i < |text|
    ensures end.Some? ==> i < end.value <= |text|
  {
    if WordEnd(text, i).Some? then WordEnd(text, i) else NumberEnd(text, i)
  }

  function ScanPrimitive(text: string, start: nat): Boundary
    requires start < |text|
  {
    var end := PrimitiveEnd(text, start);
    if end.Some? && Terminated(text, end.value) then Found(end.value, true) else NotFound(start + 1)
  }

  predicate ContinuesNumber(c: char) {
    IsDigit(c) || c == '.' || c == 'e' || c == 'E' || c == '+' || c == '-'
  }

  /** Nothing that continues a number follows. */
  predicate NumberStops(text: string, i: nat) {
    i <= |text| && (i < |text| ==> !ContinuesNumber(text[i]))
  }

  lemma DigitsEndAt(text: string, i: nat, digits: string)
    requires At(text, i, digits) && IsDigits(digits)
    requires i + |digits| < |text| ==> !IsDigit(text[i + |digits|])
    ensures DigitsEnd(text, i) == i + |digits|
  {
    var end := DigitsEnd(text, i);
    forall k | i <= k < i + |digits| ensures IsDigit(text[k]) {
      assert text[i + (k - i)] == digits[k - i];
    }
  }

  lemma HeadAt(text: string, i: nat, piece: string)
    requires At(text, i, piece) && piece != ""
    ensures i < |text| && text[i] == piece[0]
  {
    assert text[i + 0] == piece[0];
  }

  lemma AtExponent(text: string, i: nat, n: Number)
    requires ValidNumber(n) && n.exponent != "" && At(text, i, [n.mark] + (n.sign + n.exponent))
    ensures i < |text| && text[i] == n.mark
    ensures n.sign != "" ==> i + 1 < |text| && text[i + 1] == n.sign[0]
    ensures At(text, i + 1 + |n.sign|, n.exponent) && DigitAt(text, i + 1 + |n.sign|)
  {
    AtSplit(text, i, [n.mark], n.sign + n.exponent);
    AtSplit(text, i + 1, n.sign, n.exponent);
    AtChar(text, i, n.mark);
    if n.sign != "" {
      HeadAt(text, i + 1, n.sign);
    }
    HeadAt(text, i + 1 + |n.sign|, n.exponent);
  }

  lemma ExponentPasses(text: string, i: nat, n: Number)
    requires ValidNumber(n) && At(text, i, ExponentText(n)) && NumberStops(text, i + |ExponentText(n)|)
    ensures ExponentEnd(text, i) == i + |ExponentText(n)|
  {
    if n.exponent != "" {
      AtExponent(text, i, n);
      DigitsEndAt(text, i + 1 + |n.sign|, n.exponent);
    }
  }

  lemma FractionPasses(text: string, i: nat, n: Number)
    requires ValidNumber(n) && At(text, i, FractionText(n))
    requires i + |FractionText(n)| < |text| ==> !IsDigit(text[i + |FractionText(n)|]) && text[i + |FractionText(n)|] != '.'
    ensures FractionEnd(text, i) == i + |FractionText(n)|
  {
    if n.fraction != "" {
      AtSplit(text, i, ['.'], n.fraction);
      AtChar(text, i, '.');
      HeadAt(text, i + 1, n.fraction);
      DigitsEndAt(text, i + 1, n.fraction);
    }
  }

  lemma IntegerPasses(text: string, i: nat, n: Number)
    requires ValidNumber(n) && At(text, i, n.integer)
    requires i + |n.integer| < |text| ==> !IsDigit(text[i + |n.integer|])
    ensures DigitAt(text, i) && IntegerEnd(text, i) == i + |n.integer|
  {
    HeadAt(text, i, n.integer);
    DigitsEndAt(text, i, n.integer);
  }

  lemma DecimalsPass(text: string, i: nat, n: Number)
    requires ValidNumber(n) && At(text, i, FractionText(n)) && At(text, i + |FractionText(n)|, ExponentText(n))
    requires NumberStops(text, i + |FractionText(n)| + |ExponentText(n)|)
    ensures ExponentEnd(text, FractionEnd(text, i)) == i + |FractionText(n)| + |ExponentText(n)|
    ensures i < |text| ==> !IsDigit(text[i])
  {
    var j := i + |FractionText(n)|;
    if ExponentText(n) != "" {
      HeadAt(text, j, ExponentText(n));
    }
    if FractionText(n) != "" {
      HeadAt(text, i, FractionText(n));
    }
    ExponentPasses(text, j, n);
    FractionPasses(text, i, n);
  }

  lemma SignPasses(text: string, i: nat, n: Number)
    requires ValidNumber(n) && At(text, i, SignText(n)) && At(text, i + |SignText(n)|, n.integer)
    ensures i < |text| && AfterSign(text, i) == i + |SignText(n)|
  {
    HeadAt(text, i + |SignText(n)|, n.integer);
    if n.negative {
      HeadAt(text, i, SignText(n));
    }
  }

  lemma PartsPass(text: string, i: nat, n: Number, j: nat, k: nat, l: nat)
    requires ValidNumber(n) && j == i + |SignText(n)| && k == j + |n.integer| && l == k + |FractionText(n)|
    requires At(text, i, SignText(n)) && At(text, j, n.integer) && At(text, k, FractionText(n)) && At(text, l, ExponentText(n))
    requires NumberStops(text, l + |ExponentText(n)|)
    ensures i < |text| && NumberEnd(text, i) == Some(l + |ExponentText(n)|)
  {
    SignPasses(text, i, n);
    DecimalsPass(text, k, n);
    IntegerPasses(text, j, n);
  }

  /** A number is matched in full where nothing that continues it follows. */
  lemma NumberIsMatched(text: string, i: nat, n: Number)
    requires ValidNumber(n) && At(text, i, PrintNumber(n)) && NumberStops(text, i + |PrintNumber(n)|)
    ensures i < |text| && NumberEnd(text, i) == Some(i + |PrintNumber(n)|)
  {
    var (s, f, x) := (SignText(n), FractionText(n), ExponentText(n));
    var (j, k, l) := (i + |s|, i + |s| + |n.integer|, i + |s| + |n.integer| + |f|);
    AtSplit(text, i, s, n.integer + (f + x));
    AtSplit(text, j, n.integer, f + x);
    AtSplit(text, k, f, x);
    PartsPass(text, i, n, j, k, l);
  }

  lemma ExponentParts(text: string, i: nat) returns (mark: char, sign: string, exponent: string)
    requires i <= |text|
    ensures (mark == 'e' || mark == 'E') && (sign == "" || sign == "+" || sign == "-") && IsDigits(exponent)
    ensures text[i..ExponentEnd(text, i)] == if exponent == "" then "" else [mark] + (sign + exponent)
  {
    mark, sign, exponent := 'e', "", "";
    var end := ExponentEnd(text, i);
    if end != i {
      mark := text[i];
      var j := if text[i + 1] == '+' || text[i + 1] == '-' then i + 2 else i + 1;
      sign, exponent := text[i + 1..j], text[j..end];
      assert text[i + 1..end] == sign + exponent;
      assert text[i..end] == [mark] + text[i + 1..end];
    }
  }

  lemma FractionParts(text: string, i: nat) returns (fraction: string)
    requires i <= |text|
    ensures IsDigits(fraction)
    ensures text[i..FractionEnd(text, i)] == if fraction == "" then "" else ['.'] + fraction
  {
    fraction := "";
    var end := FractionEnd(text, i);
    if end != i {
      fraction := text[i + 1..end];
      assert text[i..end] == ['.'] + fraction;
    }
  }

  lemma Cut(text: string, i: nat, j: nat, k: nat, l: nat, end: nat)
    requires i <= j <= k <= l <= end <= |text|
    ensures text[i..end] == text[i..j] + (text[j..k] + (text[k..l] + text[l..end]))
  {
  }

  lemma IntegerPart(text: string, i: nat)
    requires DigitAt(text, i)
    ensures var integer := text[i..IntegerEnd(text, i)];
            integer != "" && IsDigits(integer) && (integer[0] == '0' ==> |integer| == 1)
  {
  }

  lemma SignPart(text: string, i: nat, n: Number)
    requires i < |text| && n.negative == (text[i] == '-')
    ensures SignText(n) == text[i..AfterSign(text, i)]
  {
  }

  lemma PartsPrint(text: string, i: nat, j: nat, k: nat, l: nat, end: nat, n: Number)
    requires i <= j <= k <= l <= end <= |text|
    requires SignText(n) == text[i..j] && n.integer == text[j..k]
    requires FractionText(n) == text[k..l] && ExponentText(n) == text[l..end]
    ensures PrintNumber(n) == text[i..end]
  {
    Cut(text, i, j, k, l, end);
  }

  /** What is matched is a number. */
  lemma MatchedIsNumber(text: string, i: nat, end: nat) returns (n: Number)
    requires i < |text| && NumberEnd(text, i) == Some(end)
    ensures ValidNumber(n) && PrintNumber(n) == text[i..end]
  {
    var j := AfterSign(text, i);
    var k := IntegerEnd(text, j);
    var l := FractionEnd(text, k);
    IntegerPart(text, j);
    var fraction := FractionParts(text, k);
    var mark, sign, exponent := ExponentParts(text, l);
    n := Number(text[i] == '-', text[j..k], fraction, mark, sign, exponent);
    SignPart(text, i, n);
    PartsPrint(text, i, j, k, l, end, n);
  }

  datatype Primitive = Word(word: string) | Numeric(n: Number)

  predicate ValidPrimitive(p: Primitive) {
    match p
    case Word(word) => IsWord(word)
    case Numeric(n) => ValidNumber(n)
  }

  function PrintPrimitive(p: Primitive): string {
    match p
    case Word(word) => word
    case Numeric(n) => PrintNumber(n)
  }

  /** The text from one index to another is a word or a number. */
  ghost predicate IsPrimitiveAt(text: string, start: nat, end: nat) {
    exists p: Primitive :: ValidPrimitive(p) && At(text, start, PrintPrimitive(p)) && end == start + |PrintPrimitive(p)|
  }

  lemma WordIsMatched(text: string, start: nat, word: string)
    requires IsWord(word) && At(text, start, word)
    ensures WordEnd(text, start) == Some(start + |word|)
  {
    HeadAt(text, start, word);
    assert "true"[0] == 't' && "false"[0] == 'f' && "null"[0] == 'n';
  }

  lemma MatchedIsWord(text: string, start: nat, end: nat)
    requires WordEnd(text, start) == Some(end)
    ensures start < end <= |text| && IsWord(text[start..end])
  {
    var word := if At(text, start, "true") then "true" else if At(text, start, "false") then "false" else "null";
    assert text[start..end] == word;
  }

  lemma WordHead(text: string, start: nat)
    ensures WordEnd(text, start).Some? ==>
              start < |text| && (text[start] == 't' || text[start] == 'f' || text[start] == 'n')
  {
    assert "true"[0] == 't' && "false"[0] == 'f' && "null"[0] == 'n';
    assert start < |text| ==> text[start + 0] == text[start];
  }

  lemma NotAWord(text: string, start: nat, n: Number)
    requires ValidNumber(n) && At(text, start, PrintNumber(n))
    ensures WordEnd(text, start).None?
  {
    HeadAt(text, start, PrintNumber(n));
    assert text[start] == '-' || IsDigit(text[start]);
    WordHead(text, start);
  }

  lemma NumberIsFound(text: string, start: nat, n: Number)
    requires ValidNumber(n) && At(text, start, PrintNumber(n)) && NumberStops(text, start + |PrintNumber(n)|)
    ensures start < |text| && PrimitiveEnd(text, start) == Some(start + |PrintNumber(n)|)
  {
    NumberIsMatched(text, start, n);
    NotAWord(text, start, n);
  }

  lemma TerminatorStops(text: string, i: nat)
    requires Terminated(text, i)
    ensures NumberStops(text, i)
  {
  }

  lemma WordIsFound(text: string, start: nat, word: string)
    requires IsWord(word) && At(text, start, word)
    ensures start < |text| && PrimitiveEnd(text, start) == Some(start + |word|)
  {
    WordIsMatched(text, start, word);
  }

  lemma PrimitiveIsFound(text: string, start: nat, p: Primitive)
    requires ValidPrimitive(p) && At(text, start, PrintPrimitive(p)) && Terminated(text, start + |PrintPrimitive(p)|)
    ensures start < |text| && ScanPrimitive(text, start) == Found(start + |PrintPrimitive(p)|, true)
  {
    match p
    case Word(word) => WordIsFound(text, start, word);
    case Numeric(n) =>
      TerminatorStops(text, start + |PrintNumber(n)|);
      NumberIsFound(text, start, n);
  }

  lemma SliceIsAt(text: string, start: nat, end: nat, p: Primitive)
    requires start <= end <= |text| && ValidPrimitive(p) && PrintPrimitive(p) == text[start..end]
    ensures IsPrimitiveAt(text, start, end)
  {
    assert At(text, start, PrintPrimitive(p));
  }

  lemma FoundIsPrimitive(text: string, start: nat, end: nat)
    requires start < |text| && PrimitiveEnd(text, start) == Some(end)
    ensures IsPrimitiveAt(text, start, end)
  {
    if WordEnd(text, start).Some? {
      MatchedIsWord(text, start, end);
      SliceIsAt(text, start, end, Word(text[start..end]));
    } else {
      var n := MatchedIsNumber(text, start, end);
      SliceIsAt(text, start, end, Numeric(n));
    }
  }

  /** A word or number is found exactly where one ends and a terminator or the end of the text follows. */
  lemma PrimitiveBoundaryIsExact(text: string, start: nat, end: nat)
    requires start < |text|
    ensures ScanPrimitive(text, start) == Found(end, true) <==> IsPrimitiveAt(text, start, end) && Terminated(text, end)
  {
    if IsPrimitiveAt(text, start, end) && Terminated(text, end) {
      var p: Primitive :| ValidPrimitive(p) && At(text, start, PrintPrimitive(p)) && end == start + |PrintPrimitive(p)|;
      PrimitiveIsFound(text, start, p);
    }
    if ScanPrimitive(text, start) == Found(end, true) {
      FoundIsPrimitive(text, start, end);
    }
  }
}
