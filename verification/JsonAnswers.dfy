/** Replies that consist of one value, and replies whose first value is refused. */
module JsonAnswers {
  import opened Wrappers
  import opened Texts
  import opened JsonScanner
  import opened JsonPrimitives
  import opened JsonTexts
  import opened JsonExtraction

  predicate Blank(text: string) {
    forall i :: 0 <= i < |text| ==> IsSpace(text[i])
  }

  /** The text begins and ends with a visible character. */
  predicate Tight(value: string) {
    value != "" && !IsSpace(value[0]) && !IsSpace(value[|value| - 1])
  }

  /** From `start` to `stop` the value, before and behind it white space. */
  predicate Framed(text: string, start: nat, stop: nat, value: string) {
    && start <= stop <= |text| && text[start..stop] == value
    && (forall k :: 0 <= k < start ==> IsSpace(text[k])) && (forall k :: stop <= k < |text| ==> IsSpace(text[k]))
  }

  lemma PartsAreFramed(before: string, value: string, after: string, text: string)
    requires text == before + value + after && Blank(before) && Blank(after)
    ensures Framed(text, |before|, |before| + |value|, value)
  {
    var stop := |before| + |value|;
    assert text[|before|..stop] == value;
    assert forall k :: 0 <= k < |before| ==> text[k] == before[k];
    assert forall k :: stop <= k < |text| ==> text[k] == after[k - stop];
  }

  lemma {:induction false} FramedIsTrimmed(text: string, start: nat, stop: nat, value: string)
    requires Framed(text, start, stop, value) && Tight(value)
    ensures SpacesEnd(text, 0) == start && Trim(text) == value
  {
    assert text[start] == value[0] && text[stop - 1] == value[|value| - 1];
    assert SpacesEnd(text, 0) == start && SpacesStart(text, start, |text|) == stop;
  }

  lemma {:induction false} TrimFinds(before: string, value: string, after: string, text: string)
    requires text == before + value + after && Blank(before) && Tight(value) && Blank(after)
    ensures SpacesEnd(text, 0) == |before| && Trim(text) == value
  {
    PartsAreFramed(before, value, after, text);
    FramedIsTrimmed(text, |before|, |before| + |value|, value);
  }

  /** Where neither brackets open nor the visible text starts, the search only moves on. */
  lemma {:induction false} NothingStarts(text: string, accepts: string -> bool, start: nat, stop: nat)
    requires start <= stop <= |text|
    requires forall i :: start <= i < stop ==> !IsCandidate(text, i)
    ensures Window(text, accepts, start) == Window(text, accepts, stop)
    decreases stop - start
  {
    if start < stop {
      BoundaryAdvances(text, start);
      NothingStarts(text, accepts, start + 1, stop);
    }
  }

  lemma {:induction false} BlankIsPassed(before: string, value: string, after: string, text: string, accepts: string -> bool)
    requires text == before + value + after && Blank(before) && Tight(value) && Blank(after)
    ensures Window(text, accepts, 0) == Window(text, accepts, |before|)
  {
    TrimFinds(before, value, after, text);
    forall i | 0 <= i < |before| ensures !IsCandidate(text, i) {
      assert text[i] == before[i] && IsSpace(text[i]);
    }
    NothingStarts(text, accepts, 0, |before|);
  }

  lemma StringIsTight(units: seq<StringUnit>)
    requires ValidUnits(units)
    ensures Tight(StringText(units)) && StringText(units)[0] == '"'
  {
  }

  /** A reply that is one accepted string between white space is returned. */
  lemma {:induction false} StringAnswer(before: string, units: seq<StringUnit>, after: string, accepts: string -> bool)
    requires ValidUnits(units) && Blank(before) && Blank(after) && accepts(StringText(units))
    ensures Window(before + StringText(units) + after, accepts, 0) == Some(StringText(units))
  {
    var (value, start) := (StringText(units), |before|);
    var text := before + value + after;
    StringIsTight(units);
    TrimFinds(before, value, after, text);
    BlankIsPassed(before, value, after, text, accepts);
    assert text[start..start + |value|] == value && text[start] == value[0];
    StringTextIsFound(text, start, units);
    assert Accepted(text, accepts, start);
  }

  /** Neither white space nor a quote nor an opening bracket. */
  predicate IsInk(c: char) {
    !IsSpace(c) && c != '"' && !IsOpen(c)
  }

  predicate AllInk(text: string) {
    forall i :: 0 <= i < |text| ==> IsInk(text[i])
  }

  lemma InkJoins(a: string, b: string)
    requires AllInk(a) && AllInk(b)
    ensures AllInk(a + b)
  {
  }

  lemma FractionInk(n: Number)
    requires ValidNumber(n)
    ensures AllInk(FractionText(n))
  {
    if n.fraction != "" {
      InkJoins(['.'], n.fraction);
    }
  }

  lemma ExponentInk(n: Number)
    requires ValidNumber(n)
    ensures AllInk(ExponentText(n))
  {
    if n.exponent != "" {
      InkJoins(n.sign, n.exponent);
      InkJoins([n.mark], n.sign + n.exponent);
    }
  }

  lemma NumberInk(n: Number)
    requires ValidNumber(n)
    ensures AllInk(PrintNumber(n))
  {
    FractionInk(n);
    ExponentInk(n);
    InkJoins(FractionText(n), ExponentText(n));
    InkJoins(n.integer, FractionText(n) + ExponentText(n));
    InkJoins(SignText(n), n.integer + (FractionText(n) + ExponentText(n)));
  }

  lemma NumberHead(n: Number)
    requires ValidNumber(n)
    ensures PrintNumber(n) != "" && IsPrimitiveStart(PrintNumber(n)[0])
  {
    assert PrintNumber(n)[0] == if n.negative then '-' else n.integer[0];
  }

  lemma PrimitiveInk(p: Primitive)
    requires ValidPrimitive(p)
    ensures PrintPrimitive(p) != "" && IsPrimitiveStart(PrintPrimitive(p)[0]) && AllInk(PrintPrimitive(p))
  {
    match p
    case Word(_) =>
    case Numeric(n) =>
      NumberInk(n);
      NumberHead(n);
  }

  lemma PlainBoundary(text: string, start: nat)
    requires start < |text| && IsInk(text[start])
    ensures BoundaryAt(text, start) == ScanPrimitive(text, start)
  {
  }

  lemma {:induction false} PrimitiveBoundary(text: string, start: nat, end: nat, p: Primitive, value: string)
    requires start < |text| && IsInk(text[start]) && value == PrintPrimitive(p) && ValidPrimitive(p)
    requires At(text, start, value) && end == start + |value|
    ensures BoundaryAt(text, start) == Found(end, true) <==> Terminated(text, end)
  {
    PlainBoundary(text, start);
    PrimitiveBoundaryIsExact(text, start, end);
    assert IsPrimitiveAt(text, start, end);
  }

  lemma {:induction false} NothingAfter(text: string, accepts: string -> bool, start: nat, from: nat)
    requires start < from <= |text| && forall i :: start < i < |text| ==> !IsCandidate(text, i)
    ensures Window(text, accepts, from) == None
  {
    NothingStarts(text, accepts, from, |text|);
  }

  lemma SameLength(text: string, start: nat, a: nat, b: nat)
    requires start <= a <= |text| && start <= b <= |text| && text[start..a] == text[start..b]
    ensures a == b
  {
    assert |text[start..a]| == a - start;
  }

  /** The visible text is `value`, without a quote, a bracket or white space inside. */
  predicate IsWhole(text: string, start: nat, end: nat, value: string) {
    && start < end <= |text| && text[start..end] == value == Trim(text)
    && start == SpacesEnd(text, 0) && IsPrimitiveStart(text[start])
    && (forall k :: start <= k < end ==> IsInk(text[k])) && (forall k :: end <= k < |text| ==> IsSpace(text[k]))
  }

  lemma {:induction false} UnterminatedIsPassed(text: string, start: nat, end: nat, p: Primitive, accepts: string -> bool)
    requires ValidPrimitive(p) && IsWhole(text, start, end, PrintPrimitive(p)) && !Terminated(text, end)
    ensures Window(text, accepts, start) == None
  {
    assert At(text, start, PrintPrimitive(p));
    PrimitiveBoundary(text, start, end, p, PrintPrimitive(p));
    BoundaryAdvances(text, start);
    if Accepted(text, accepts, start) {
      SameLength(text, start, BoundaryAt(text, start).end, end);
    }
    NothingAfter(text, accepts, start, Next(text, start));
  }

  lemma {:induction false} AcceptedIsReturned(text: string, accepts: string -> bool, start: nat, end: nat, value: string)
    requires start < end <= |text| && IsCandidate(text, start) && BoundaryAt(text, start) == Found(end, true)
    requires text[start..end] == value == Trim(text) && accepts(value)
    ensures Window(text, accepts, start) == Some(value)
  {
  }

  lemma InkIsTight(value: string)
    requires value != "" && AllInk(value)
    ensures Tight(value)
  {
  }

  lemma SliceInk(text: string, start: nat, end: nat, value: string)
    requires start < end <= |text| && text[start..end] == value && AllInk(value)
    ensures text[start] == value[0] && forall k :: start <= k < end ==> IsInk(text[k])
  {
    assert forall k :: start <= k < end ==> text[k] == value[k - start];
  }

  lemma {:induction false} ReplyIsWhole(text: string, before: string, value: string, after: string)
    requires text == before + value + after && value != "" && AllInk(value) && IsPrimitiveStart(value[0])
    requires Blank(before) && Blank(after)
    ensures Tight(value) && IsWhole(text, |before|, |before| + |value|, value)
  {
    var (start, end) := (|before|, |before| + |value|);
    PartsAreFramed(before, value, after, text);
    InkIsTight(value);
    FramedIsTrimmed(text, start, end, value);
    SliceInk(text, start, end, value);
  }

  lemma {:induction false} WholeAnswer(text: string, start: nat, end: nat, p: Primitive, value: string, accepts: string -> bool)
    requires ValidPrimitive(p) && value == PrintPrimitive(p) && IsWhole(text, start, end, value) && accepts(value)
    ensures Window(text, accepts, start) == if Terminated(text, end) then Some(value) else None
  {
    if Terminated(text, end) {
      assert At(text, start, value);
      PrimitiveBoundary(text, start, end, p, value);
      AcceptedIsReturned(text, accepts, start, end, value);
    } else {
      UnterminatedIsPassed(text, start, end, p, accepts);
    }
  }

  lemma EndIsTerminated(text: string, front: string, after: string)
    requires text == front + after
    ensures Terminated(text, |front|) <==> after == "" || IsTerminator(after[0])
  {
    assert after != "" ==> text[|front|] == after[0];
  }

  /**
   A reply that is one accepted word or number between white space is returned exactly when
   it ends the text or one of the four blanks of JSON follows it; other white space makes
   the search return nothing.
   */
  lemma {:induction false} PrimitiveAnswerExactly(before: string, p: Primitive, value: string, after: string, accepts: string -> bool)
    requires ValidPrimitive(p) && value == PrintPrimitive(p) && Blank(before) && Blank(after) && accepts(value)
    ensures Window(before + value + after, accepts, 0) ==
            if after == "" || after[0] == ' ' || after[0] == '\t' || after[0] == '\n' || after[0] == '\r'
            then Some(value) else None
  {
    var text := before + value + after;
    PrimitiveInk(p);
    ReplyIsWhole(text, before, value, after);
    EndIsTerminated(text, before + value, after);
    BlankIsPassed(before, value, after, text, accepts);
    WholeAnswer(text, |before|, |before| + |value|, p, value, accepts);
  }

  /** A no-break space after an accepted word hides it, although trimming takes it off. */
  lemma NoBreakSpaceHidesWord(accepts: string -> bool)
    requires accepts("true")
    ensures Trim("true" + ['\U{A0}']) == "true" && Window("true" + ['\U{A0}'], accepts, 0) == None
  {
    assert "" + "true" + ['\U{A0}'] == "true" + ['\U{A0}'];
    PrimitiveInk(Word("true"));
    TrimFinds("", "true", ['\U{A0}'], "true" + ['\U{A0}']);
    PrimitiveAnswerExactly("", Word("true"), "true", ['\U{A0}'], accepts);
  }

  lemma {:induction false} RefusedStep(text: string, accepts: string -> bool, start: nat, end: nat)
    requires start < |text| && IsOpen(text[start]) && BoundaryAt(text, start) == Found(end, false)
    requires end <= |text| && start <= end && !accepts(text[start..end])
    ensures Window(text, accepts, start) == Window(text, accepts, end)
  {
    BoundaryAdvances(text, start);
  }

  lemma {:induction false} BrokenStep(text: string, accepts: string -> bool, start: nat, resumeAt: nat)
    requires start < |text| && IsOpen(text[start]) && BoundaryAt(text, start) == NotFound(resumeAt) && resumeAt <= |text|
    ensures Window(text, accepts, start) == Window(text, accepts, resumeAt)
  {
    BoundaryAdvances(text, start);
  }

  /** A bracket after prose that meets the wrong closer: the search goes on right after that closer. */
  lemma {:induction false} BrokenIsSkipped(text: string, accepts: string -> bool, start: nat, levels: seq<Level>, stop: nat)
    requires start < |text| && IsOpen(text[start]) && IsProse(text, start)
    requires levels != [] && (forall k :: 0 <= k < |levels| ==> ValidLevel(levels[k])) && At(text, start, PrintLevels(levels))
    requires stop == start + |PrintLevels(levels)| < |text| && IsClose(text[stop]) && text[stop] != levels[|levels| - 1].close
    ensures Window(text, accepts, 0) == Window(text, accepts, stop + 1)
  {
    BrokenIsNotFound(text, start, levels, stop);
    BrokenStep(text, accepts, start, stop + 1);
    ProseIsSkipped(text, accepts, 0, start);
  }

  /** A refused bracket after prose is passed over whole: the search goes on behind its end. */
  lemma {:induction false} RefusedIsSkipped(text: string, accepts: string -> bool, start: nat, end: nat)
    requires start < |text| && IsOpen(text[start]) && IsProse(text, start)
    requires IsGroupAt(text, start, end) && !accepts(text[start..end])
    ensures Window(text, accepts, 0) == Window(text, accepts, end)
  {
    CompositeBoundaryIsExact(text, start, end);
    RefusedStep(text, accepts, start, end);
    ProseIsSkipped(text, accepts, 0, start);
  }
}
