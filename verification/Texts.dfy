/** Pieces of strings and the white space around them. */
module Texts {

  /** The piece occurs in the text at the index. */
  predicate At(text: string, i: nat, piece: string) {
    i + |piece| <= |text| && forall k :: 0 <= k < |piece| ==> text[i + k] == piece[k]
  }

  /** The piece from its index `n` on occurs in the text at `i + n`. */
  predicate StartsWith(text: string, i: nat, piece: string, n: nat)
    requires n <= |piece|
    ensures StartsWith(text, i, piece, n) ==> i + |piece| <= |text|
    decreases |piece| - n
  {
    if n == |piece| then i + n <= |text| else i + n < |text| && text[i + n] == piece[n] && StartsWith(text, i, piece, n + 1)
  }

  lemma {:induction false} StartsWithIsAt(text: string, i: nat, piece: string, n: nat)
    requires n <= |piece|
    ensures StartsWith(text, i, piece, n) <==> i + |piece| <= |text| && forall k :: n <= k < |piece| ==> text[i + k] == piece[k]
    decreases |piece| - n
  {
    if n < |piece| {
      StartsWithIsAt(text, i, piece, n + 1);
    }
  }

  lemma AtSplit(text: string, i: nat, a: string, b: string)
    requires At(text, i, a + b)
    ensures At(text, i, a) && At(text, i + |a|, b)
  {
    assert forall k :: 0 <= k < |a| ==> (a + b)[k] == a[k];
    assert forall k :: 0 <= k < |b| ==> (a + b)[|a| + k] == b[k];
  }

  lemma AtJoin(text: string, i: nat, a: string, b: string)
    requires At(text, i, a) && At(text, i + |a|, b)
    ensures At(text, i, a + b)
  {
    forall k | 0 <= k < |a + b| ensures text[i + k] == (a + b)[k] {
      assert k >= |a| ==> text[i + |a| + (k - |a|)] == b[k - |a|];
    }
  }

  lemma AtChar(text: string, i: nat, c: char)
    requires At(text, i, [c])
    ensures i < |text| && text[i] == c
  {
    assert text[i + 0] == [c][0];
  }

  /** White space as trim and the class \s understand it. */
  predicate IsSpace(c: char) {
    || '\t' <= c <= '\r' || c == ' ' || c == '\U{A0}' || c == '\U{1680}' || '\U{2000}' <= c <= '\U{200A}'
    || c == '\U{2028}' || c == '\U{2029}' || c == '\U{202F}' || c == '\U{205F}' || c == '\U{3000}' || c == '\U{FEFF}'
  }

  function SpacesEnd(text: string, i: nat): (end: nat)
    requires i <= |text|
    ensures i <= end <= |text|
    ensures forall k :: i <= k < end ==> IsSpace(text[k])
    ensures end < |text| ==> !IsSpace(text[end])
    decreases |text| - i
  {
    if i < |text| && IsSpace(text[i]) then SpacesEnd(text, i + 1) else i
  }

  function SpacesStart(text: string, low: nat, i: nat): (start: nat)
    requires low <= i <= |text|
    ensures low <= start <= i
    ensures forall k :: start <= k < i ==> IsSpace(text[k])
    ensures low < start ==> !IsSpace(text[start - 1])
  {
    if low < i && IsSpace(text[i - 1]) then SpacesStart(text, low, i - 1) else i
  }

  function Trim(text: string): string {
    var start := SpacesEnd(text, 0);
    text[start..SpacesStart(text, start, |text|)]
  }
}
