/**
 What the splitter returns, measured against the texts between the separators of a script:
 one trimmed statement for every text with a visible character, in order, none of them empty.
 */
module SqlResults {
  import opened Texts
  import opened SqlSplitter
  import opened SqlLexemes

  ghost predicate Visible(text: string) {
    exists k :: 0 <= k < |text| && !IsSpace(text[k])
  }

  /** The text without the white space at both ends. */
  ghost predicate IsTrimmed(text: string, part: string) {
    exists i: nat, j: nat :: IsTrimmedTo(text, i, j) && part == text[i..j]
  }

  predicate IsTrimmedTo(text: string, i: nat, j: nat) {
    && i <= j <= |text|
    && (forall k :: 0 <= k < i ==> IsSpace(text[k])) && (forall k :: j <= k < |text| ==> IsSpace(text[k]))
    && (i < j ==> !IsSpace(text[i]) && !IsSpace(text[j - 1]))
  }

  lemma TrimTrims(text: string)
    ensures IsTrimmed(text, Trim(text))
    ensures Trim(text) != "" <==> Visible(text)
  {
    var i := SpacesEnd(text, 0);
    var j := SpacesStart(text, i, |text|);
    assert IsTrimmedTo(text, i, j);
    if i < j {
      assert !IsSpace(text[i]);
    }
  }

  /** The statement is the trimmed piece; a semicolon at its very end goes too, with the white space before it. */
  ghost predicate IsResultOf(piece: string, statement: string) {
    exists part :: IsTrimmed(piece, part) && part != "" && ComesFrom(part, statement)
  }

  ghost predicate ComesFrom(part: string, statement: string)
    requires part != ""
  {
    if part[|part| - 1] == ';' then IsTrimmed(part[..|part| - 1], statement) else statement == part
  }

  /** Every semicolon comes after a visible character. */
  predicate Opened(text: string) {
    forall q :: 0 <= q < |text| && text[q] == ';' ==> OpenedBefore(text, q)
  }

  predicate OpenedBefore(text: string, q: int)
    requires q <= |text|
  {
    exists k :: 0 <= k < q && !IsSpace(text[k])
  }

  // ------------------------------------------------------ semicolons inside pieces

  /** A semicolon that separates nothing lies behind the first character of its comment or quotation. */
  lemma SpanKeepsOpened(sql: string, start: nat, s: Span)
    requires start <= s.from && IsSpan(sql, s) && !s.kind.Separator? && Opened(sql[start..s.from])
    ensures Opened(sql[start..s.to])
  {
    var (before, text) := (sql[start..s.from], sql[start..s.to]);
    forall q | 0 <= q < |text| && text[q] == ';' ensures OpenedBefore(text, q) {
      if q < |before| {
        assert before[q] == ';' && OpenedBefore(before, q);
        var k :| 0 <= k < q && !IsSpace(before[k]);
        assert text[k] == before[k];
      } else {
        SpanOpens(sql, s, start + q);
        assert text[|before|] == sql[s.from];
      }
    }
  }

  lemma SpanOpens(sql: string, s: Span, at: nat)
    requires IsSpan(sql, s) && !s.kind.Separator? && s.from <= at < s.to && sql[at] == ';'
    ensures s.from < at && !IsSpace(sql[s.from])
  {
  }

  lemma {:induction false} PiecesAreOpened(sql: string, spans: seq<Span>, start: nat, from: nat)
    requires start <= from && Tiles(sql, spans, from, |sql|) && from <= |sql| && Opened(sql[start..from])
    ensures forall n :: 0 <= n < |Pieces(sql, spans, start, from)| ==> Opened(Pieces(sql, spans, start, from)[n])
    decreases |spans|
  {
    if spans != [] {
      var s := spans[0];
      if s.kind.Separator? {
        assert Opened(sql[s.to..s.to]);
        PiecesAreOpened(sql, spans[1..], s.to, s.to);
      } else {
        SpanKeepsOpened(sql, start, s);
        PiecesAreOpened(sql, spans[1..], start, s.to);
      }
    }
  }

  // ------------------------------------------------------------------ statements

  lemma TrimOpened(piece: string, part: string)
    requires Opened(piece) && part == Trim(piece) && part != "" && part[|part| - 1] == ';'
    ensures Visible(part[..|part| - 1])
  {
    var i := SpacesEnd(piece, 0);
    var q := i + |part| - 1;
    assert piece[q] == part[|part| - 1];
    assert OpenedBefore(piece, q);
    var k :| 0 <= k < q && !IsSpace(piece[k]);
    assert part[..|part| - 1][k - i] == piece[k];
  }

  /** A piece with a visible character yields one statement that is not empty, and any other piece none. */
  ghost predicate Yields(piece: string, part: seq<string>) {
    && |part| == (if Visible(piece) then 1 else 0)
    && forall statement :: statement in part ==> statement != "" && IsResultOf(piece, statement)
  }

  lemma PartYields(piece: string)
    requires Opened(piece)
    ensures Yields(piece, NormalizePart(piece))
  {
    var part := Trim(piece);
    TrimTrims(piece);
    if part != "" && part[|part| - 1] == ';' {
      TrimOpened(piece, part);
      TrimTrims(part[..|part| - 1]);
      assert ComesFrom(part, Trim(part[..|part| - 1]));
    } else if part != "" {
      assert ComesFrom(part, part);
    }
  }

  function Flat(parts: seq<seq<string>>): seq<string> {
    if parts == [] then [] else Flat(parts[..|parts| - 1]) + parts[|parts| - 1]
  }

  lemma {:induction false} FlatFront(part: seq<string>, parts: seq<seq<string>>)
    ensures Flat([part] + parts) == part + Flat(parts)
  {
    if parts == [] {
      assert [part] + parts == [part] && [part][..0] == [] && [] + part == part;
    } else {
      var n := |parts| - 1;
      FlatFront(part, parts[..n]);
      assert ([part] + parts)[..n + 1] == [part] + parts[..n];
    }
  }

  /** The parts that make up the result, piece by piece. */
  lemma {:induction false} NormalizeIsFlat(raw: seq<string>) returns (parts: seq<seq<string>>)
    requires forall n :: 0 <= n < |raw| ==> Opened(raw[n])
    ensures Normalize(raw) == Flat(parts)
    ensures |parts| == |raw| && forall n :: 0 <= n < |raw| ==> Yields(raw[n], parts[n])
  {
    parts := [];
    if raw != [] {
      var rest := NormalizeIsFlat(raw[1..]);
      PartYields(raw[0]);
      FlatFront(NormalizePart(raw[0]), rest);
      parts := [NormalizePart(raw[0])] + rest;
      assert forall n :: 1 <= n < |raw| ==> raw[n] == raw[1..][n - 1] && parts[n] == rest[n - 1];
    }
  }

  /** `at` lists the pieces behind the statements, in order and without a gap. */
  ghost predicate Corresponds(pieces: seq<string>, statements: seq<string>, at: seq<nat>) {
    && |at| == |statements|
    && (forall i :: 0 <= i < |at| ==> ComesFromPiece(pieces, statements[i], at[i]))
    && (forall i, j :: 0 <= i < j < |at| ==> at[i] < at[j])
    && (forall n {:trigger pieces[n]} :: 0 <= n < |pieces| ==> (n in at <==> Visible(pieces[n])))
  }

  ghost predicate ComesFromPiece(pieces: seq<string>, statement: string, n: nat) {
    n < |pieces| && statement != "" && IsResultOf(pieces[n], statement)
  }

  lemma PiecesMore(pieces: seq<string>, piece: string, statement: string, n: nat)
    requires ComesFromPiece(pieces, statement, n)
    ensures ComesFromPiece(pieces + [piece], statement, n)
  {
  }

  lemma InBounds(pieces: seq<string>, statements: seq<string>, at: seq<nat>, n: nat)
    requires Corresponds(pieces, statements, at) && n in at
    ensures n < |pieces|
  {
    var i :| 0 <= i < |at| && at[i] == n;
    assert ComesFromPiece(pieces, statements[i], at[i]);
  }

  lemma CorrespondsWithout(pieces: seq<string>, statements: seq<string>, at: seq<nat>, piece: string)
    requires Corresponds(pieces, statements, at) && !Visible(piece)
    ensures Corresponds(pieces + [piece], statements, at)
  {
    var all := pieces + [piece];
    forall i | 0 <= i < |at| ensures ComesFromPiece(all, statements[i], at[i]) {
      PiecesMore(pieces, piece, statements[i], at[i]);
    }
    forall n | 0 <= n < |all| ensures n in at <==> Visible(all[n]) {
      if n < |pieces| {
        assert all[n] == pieces[n];
      } else if n in at {
        InBounds(pieces, statements, at, n);
      }
    }
  }

  lemma CorrespondsWith(pieces: seq<string>, statements: seq<string>, at: seq<nat>, piece: string, statement: string)
    requires Corresponds(pieces, statements, at) && Visible(piece) && statement != "" && IsResultOf(piece, statement)
    ensures Corresponds(pieces + [piece], statements + [statement], at + [|pieces|])
  {
    var (all, results, at') := (pieces + [piece], statements + [statement], at + [|pieces|]);
    forall i | 0 <= i < |at'| ensures ComesFromPiece(all, results[i], at'[i]) {
      if i < |at| {
        PiecesMore(pieces, piece, statements[i], at[i]);
      }
    }
    forall i, j | 0 <= i < j < |at'| ensures at'[i] < at'[j] {
      InBounds(pieces, statements, at, at[i]);
    }
    forall n | 0 <= n < |all| ensures n in at' <==> Visible(all[n]) {
      if n < |pieces| {
        assert all[n] == pieces[n] && (n in at' <==> n in at);
      }
    }
  }

  lemma CorrespondsMore(pieces: seq<string>, statements: seq<string>, at: seq<nat>, piece: string, more: seq<string>) returns (at': seq<nat>)
    requires Corresponds(pieces, statements, at) && Yields(piece, more)
    ensures Corresponds(pieces + [piece], statements + more, at')
  {
    if more == [] {
      at' := at;
      CorrespondsWithout(pieces, statements, at, piece);
      assert statements + more == statements;
    } else {
      at' := at + [|pieces|];
      assert more == [more[0]] && more[0] in more;
      CorrespondsWith(pieces, statements, at, piece, more[0]);
    }
  }

  lemma {:induction false} FlatCorresponds(pieces: seq<string>, parts: seq<seq<string>>) returns (at: seq<nat>)
    requires |parts| == |pieces| && forall n :: 0 <= n < |pieces| ==> Yields(pieces[n], parts[n])
    ensures Corresponds(pieces, Flat(parts), at)
  {
    at := [];
    if pieces != [] {
      var n := |pieces| - 1;
      at := FlatCorresponds(pieces[..n], parts[..n]);
      at := CorrespondsMore(pieces[..n], Flat(parts[..n]), at, pieces[n], parts[n]);
      assert pieces[..n] + [pieces[n]] == pieces;
    }
  }

  lemma EmptyLastYieldsNothing(pieces: seq<string>, statements: seq<string>, at: seq<nat>)
    requires Corresponds(WithoutEmptyLast(pieces), statements, at)
    ensures Corresponds(pieces, statements, at)
  {
    var raw := WithoutEmptyLast(pieces);
    forall i | 0 <= i < |at| ensures ComesFromPiece(pieces, statements[i], at[i]) {
      assert ComesFromPiece(raw, statements[i], at[i]);
    }
    forall n | 0 <= n < |pieces| ensures n in at <==> Visible(pieces[n]) {
      if n < |raw| {
        assert raw[n] == pieces[n];
      } else {
        assert forall i :: 0 <= i < |at| ==> ComesFromPiece(raw, statements[i], at[i]);
      }
    }
  }

  /**
   The splitter on every script. The returned statements correspond, in order and one to
   one, to the texts between separators that have a visible character; each is such a text
   trimmed, without a semicolon at its very end; and none is empty.
   */
  lemma SplitReturnsVisible(sql: string, spans: seq<Span>, pieces: seq<string>) returns (at: seq<nat>)
    requires Tiles(sql, spans, 0, |sql|) && pieces == Pieces(sql, spans, 0, 0)
    ensures Corresponds(pieces, Split(sql), at)
    ensures forall statement :: statement in Split(sql) ==> statement != ""
  {
    SplitIsLexical(sql, spans, pieces);
    assert Opened(sql[0..0]);
    PiecesAreOpened(sql, spans, 0, 0);
    var parts := NormalizeIsFlat(RawStatements(sql));
    at := FlatCorresponds(RawStatements(sql), parts);
    EmptyLastYieldsNothing(pieces, Split(sql), at);
    assert forall i :: 0 <= i < |at| ==> ComesFromPiece(pieces, Split(sql)[i], at[i]);
  }
}
