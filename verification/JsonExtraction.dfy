/** The search for the answer in a model's reply: the first JSON value that the validator accepts. */
module JsonExtraction {
  import opened Wrappers
  import JsNumbers
  import opened Texts
  import opened JsonScanner
  import opened JsonPrimitives
  import opened JsonTexts

  predicate IsPrimitiveStart(c: char) {
    c == '"' || c == '-' || '0' <= c <= '9' || c == 't' || c == 'f' || c == 'n'
  }

  function BoundaryAt(text: string, start: nat): Boundary
    requires start < |text|
  {
    if IsOpen(text[start]) then Scan(text, start, Outside([]))
    else if text[start] == '"' then ScanString(text, start + 1, false)
    else ScanPrimitive(text, start)
  }

  method FindJsonValueBoundary(text: string, start: nat) returns (boundary: Boundary)
    requires start < |text|
    ensures boundary == BoundaryAt(text, start)
  {
    if IsOpen(text[start]) {
      boundary := FindCompositeJsonEnd(text, start);
    } else if text[start] == '"' {
      boundary := FindStringJsonEnd(text, start);
    } else {
      boundary := ScanPrimitive(text, start);
    }
  }

  /** Where the search continues after a boundary. */
  function After(boundary: Boundary): nat {
    match boundary
    case Found(end, _) => end
    case NotFound(resumeAt) => resumeAt
  }

  lemma {:induction false} ScanAdvances(text: string, index: nat, state: State)
    requires index <= |text|
    ensures index <= After(Scan(text, index, state)) <= |text|
    ensures index < |text| ==> index < After(Scan(text, index, state))
    ensures Scan(text, index, state).Found? ==> !Scan(text, index, state).primitive
    decreases |text| - index
  {
    if index < |text| && Step(state, text[index]).Going? {
      ScanAdvances(text, index + 1, Step(state, text[index]).state);
    }
  }

  lemma {:induction false} StringScanAdvances(text: string, index: nat, escaped: bool)
    requires index <= |text|
    ensures index <= After(ScanString(text, index, escaped)) <= |text|
    ensures ScanString(text, index, escaped).Found? ==> ScanString(text, index, escaped).primitive
    decreases |text| - index
  {
    if index < |text| {
      StringScanAdvances(text, index + 1, false);
      StringScanAdvances(text, index + 1, true);
    }
  }

  /** The search always moves on, and a boundary is primitive unless a bracket was opened. */
  lemma BoundaryAdvances(text: string, start: nat)
    requires start < |text|
    ensures start < After(BoundaryAt(text, start)) <= |text|
    ensures BoundaryAt(text, start).Found? ==> (BoundaryAt(text, start).primitive <==> !IsOpen(text[start]))
  {
    ScanAdvances(text, start, Outside([]));
    StringScanAdvances(text, start + 1, false);
  }

  /** A value may start at an opening bracket, or as a primitive at the first visible character. */
  predicate IsCandidate(text: string, start: nat)
    requires start < |text|
  {
    IsOpen(text[start]) || (start == SpacesEnd(text, 0) && IsPrimitiveStart(text[start]))
  }

  /** The candidate that starts here is complete and accepted; a primitive must be the whole visible text. */
  predicate Accepted(text: string, accepts: string -> bool, start: nat)
    requires start < |text|
  {
    var boundary := BoundaryAt(text, start);
    && IsCandidate(text, start) && boundary.Found? && start <= boundary.end <= |text|
    && (boundary.primitive ==> text[start..boundary.end] == Trim(text))
    && accepts(text[start..boundary.end])
  }

  function Next(text: string, start: nat): nat
    requires start < |text|
  {
    if IsCandidate(text, start) then After(BoundaryAt(text, start)) else start + 1
  }

  /** The first accepted candidate among those that the search comes to. */
  function Window(text: string, accepts: string -> bool, start: nat): Option<string>
    requires start <= |text|
    decreases |text| - start
  {
    if start == |text| then None
    else
      BoundaryAdvances(text, start);
      if Accepted(text, accepts, start) then Some(text[start..BoundaryAt(text, start).end])
      else Window(text, accepts, Next(text, start))
  }

  method ScanJsonWindow(text: string, accepts: string -> bool) returns (json: Option<string>)
    ensures json == Window(text, accepts, 0)
  {
    var firstNonWhitespace := SpacesEnd(text, 0);
    var trimmed := Trim(text);
    var start := 0;
    while start < |text|
      invariant start <= |text|
      invariant Window(text, accepts, 0) == Window(text, accepts, start)
    {
      var c := text[start];
      var isCandidateStart := IsOpen(c) || (start == firstNonWhitespace && IsPrimitiveStart(c));
      if !isCandidateStart {
        start := start + 1;
        continue;
      }
      var boundary := FindJsonValueBoundary(text, start);
      BoundaryAdvances(text, start);
      if boundary.NotFound? {
        start := boundary.resumeAt;
        continue;
      }
      var candidate := text[start..boundary.end];
      if boundary.primitive && candidate != trimmed {
        start := boundary.end;
        continue;
      }
      if accepts(candidate) {
        return Some(candidate);
      }
      start := boundary.end;
    }
    return None;
  }

  /** Whatever is returned was accepted and is one bracket, one string, one word or one number of the text. */
  lemma {:induction false} ReturnedIsAccepted(text: string, accepts: string -> bool, start: nat) returns (from: nat, to: nat)
    requires start <= |text| && Window(text, accepts, start).Some?
    ensures start <= from < to <= |text| && Window(text, accepts, start).value == text[from..to] && accepts(text[from..to])
    ensures if IsOpen(text[from]) then IsGroupAt(text, from, to)
            else text[from..to] == Trim(text)
                 && (if text[from] == '"' then IsQuotedAt(text, from, to) else IsPrimitiveAt(text, from, to))
    decreases |text| - start
  {
    BoundaryAdvances(text, start);
    if Accepted(text, accepts, start) {
      from, to := start, BoundaryAt(text, start).end;
      ExactAt(text, from, to);
    } else {
      from, to := ReturnedIsAccepted(text, accepts, Next(text, start));
    }
  }

  lemma ExactAt(text: string, from: nat, to: nat)
    requires from < |text| && BoundaryAt(text, from).Found? && BoundaryAt(text, from).end == to
    ensures if IsOpen(text[from]) then IsGroupAt(text, from, to)
            else if text[from] == '"' then IsQuotedAt(text, from, to) else IsPrimitiveAt(text, from, to)
  {
    BoundaryAdvances(text, from);
    if IsOpen(text[from]) {
      CompositeBoundaryIsExact(text, from, to);
    } else if text[from] == '"' {
      StringBoundaryIsExact(text, from, to);
    } else {
      PrimitiveBoundaryIsExact(text, from, to);
    }
  }

  // --------------------------------------------------------- prose before an answer

  /** Prose in which no value can start that could hide the answer after it. */
  predicate IsProse(text: string, end: nat) {
    end <= |text| && forall i :: 0 <= i < end ==> !IsOpen(text[i]) && text[i] != '"'
  }

  lemma PrimitiveStaysBefore(text: string, start: nat, end: nat, stop: nat)
    requires start < stop < |text| && IsOpen(text[stop]) && IsPrimitiveAt(text, start, end)
    ensures end <= stop
  {
    var p: Primitive :| ValidPrimitive(p) && At(text, start, PrintPrimitive(p)) && end == start + |PrintPrimitive(p)|;
    PrimitivePlain(p);
    forall k | start <= k < end ensures IsPlain(text[k]) {
      assert text[start + (k - start)] == PrintPrimitive(p)[k - start];
    }
  }

  lemma VisibleAt(text: string, stop: nat, piece: string, start: nat)
    requires start < stop < |text| && IsOpen(text[stop]) && start + |piece| <= stop
    requires At(text, start, piece) && start == SpacesEnd(text, 0)
    ensures piece != Trim(text)
  {
    assert SpacesStart(text, start, |text|) > stop;
  }

  /** In prose before an opening bracket nothing is accepted and nothing jumps over the bracket. */
  lemma ProseIsPassed(text: string, accepts: string -> bool, start: nat, stop: nat)
    requires start < stop < |text| && IsOpen(text[stop]) && IsProse(text, stop)
    ensures !Accepted(text, accepts, start) && start < Next(text, start) <= stop
  {
    BoundaryAdvances(text, start);
    if IsCandidate(text, start) && BoundaryAt(text, start).Found? {
      var end := BoundaryAt(text, start).end;
      PrimitiveBoundaryIsExact(text, start, end);
      PrimitiveStaysBefore(text, start, end, stop);
      VisibleAt(text, stop, text[start..end], start);
    }
  }

  lemma {:induction false} ProseIsSkipped(text: string, accepts: string -> bool, start: nat, stop: nat)
    requires start <= stop < |text| && IsOpen(text[stop]) && IsProse(text, stop)
    ensures Window(text, accepts, start) == Window(text, accepts, stop)
    decreases stop - start
  {
    if start < stop {
      ProseIsPassed(text, accepts, start, stop);
      ProseIsSkipped(text, accepts, Next(text, start), stop);
    }
  }

  /** Prose without brackets and quotes, then an array or object that is accepted: exactly that value is returned. */
  lemma AnswerAfterProse(prose: string, j: Json, rest: string, accepts: string -> bool)
    requires ValidJson(j) && (j.Arr? || j.Obj?) && accepts(JsonText(j))
    requires forall i :: 0 <= i < |prose| ==> !IsOpen(prose[i]) && prose[i] != '"'
    ensures Window(prose + JsonText(j) + rest, accepts, 0) == Some(JsonText(j))
  {
    var (text, value) := (prose + JsonText(j) + rest, JsonText(j));
    var stop := |prose|;
    assert IsOpen(value[0]) && text[stop] == value[0];
    assert text[stop..stop + |value|] == value;
    assert IsProse(text, stop) by {
      assert forall i :: 0 <= i < stop ==> text[i] == prose[i];
    }
    ProseIsSkipped(text, accepts, 0, stop);
    CompositeTextIsFound(text, stop, j);
  }

  // ------------------------------------------------------------------ extraction

  datatype ExtractionError = TooLarge(length: nat, maxLength: int) | MissingJson(length: nat, maxLength: int)

  const DEFAULT_MAX_CHARACTERS := 1_000_000

  predicate IsLimit(limit: Option<JsNumbers.Number>) {
    limit.Some? && limit.value.Finite? && limit.value.value > 0.0
  }

  /** A positive finite limit rounded down, and the default otherwise. */
  function MaxCharacters(limit: Option<JsNumbers.Number>): (n: int)
    ensures IsLimit(limit) ==> 0 <= n && n as real <= limit.value.value < (n + 1) as real
    ensures !IsLimit(limit) ==> n == 1_000_000
  {
    if limit.None? || !limit.value.Finite? || limit.value.value <= 0.0 then DEFAULT_MAX_CHARACTERS
    else limit.value.value.Floor
  }

  method ExtractJsonValue(text: string, accepts: string -> bool, maxCharacters: int) returns (json: Result<string, ExtractionError>)
    ensures json == (if |text| > maxCharacters then Failure(TooLarge(|text|, maxCharacters))
                     else match Window(text, accepts, 0)
                          case Some(value) => Success(value)
                          case None => Failure(MissingJson(|text|, maxCharacters)))
  {
    if |text| > maxCharacters {
      return Failure(TooLarge(|text|, maxCharacters));
    }
    var found := ScanJsonWindow(text, accepts);
    if found.None? {
      return Failure(MissingJson(|text|, maxCharacters));
    }
    return Success(found.value);
  }
}
