/**
 JSON texts by the grammar of RFC 8259, white space included, and what the boundary
 scanner makes of them.
 */
module JsonTexts {
  import opened Texts
  import opened JsonScanner
  import opened JsonPrimitives

  /** A character of a string by section 7. */
  datatype StringUnit = Unescaped(c: char) | Escape(c: char) | UnicodeEscape(hex: string)

  datatype Element = Element(before: string, value: Json, after: string)

  /** An object member: white space, key, white space, colon, element. */
  datatype Member = Member(before: string, key: seq<StringUnit>, middle: string, element: Element)

  /** A value; `blank` is the white space inside an array or object that has no elements. */
  datatype Json =
    | Scalar(primitive: Primitive)
    | Str(units: seq<StringUnit>)
    | Arr(elements: seq<Element>, blank: string)
    | Obj(members: seq<Member>, blank: string)

  predicate IsBlank(c: char) {
    c == ' ' || c == '\t' || c == '\n' || c == '\r'
  }

  predicate IsHex(c: char) {
    IsDigit(c) || 'a' <= c <= 'f' || 'A' <= c <= 'F'
  }

  predicate IsEscape(c: char) {
    c == '"' || c == '\\' || c == '/' || c == 'b' || c == 'f' || c == 'n' || c == 'r' || c == 't'
  }

  predicate WhiteSpace(text: string) {
    forall i :: 0 <= i < |text| ==> IsBlank(text[i])
  }

  predicate ValidStringUnit(u: StringUnit) {
    match u
    case Unescaped(c) => c >= ' ' && c != '"' && c != '\\'
    case Escape(c) => IsEscape(c)
    case UnicodeEscape(hex) => |hex| == 4 && forall i :: 0 <= i < 4 ==> IsHex(hex[i])
  }

  predicate ValidUnits(units: seq<StringUnit>) {
    forall i :: 0 <= i < |units| ==> ValidStringUnit(units[i])
  }

  predicate ValidJson(j: Json)
    decreases j
  {
    match j
    case Scalar(p) => ValidPrimitive(p)
    case Str(units) => ValidUnits(units)
    case Arr(elements, blank) => WhiteSpace(blank) && forall i :: 0 <= i < |elements| ==> ValidElement(elements[i])
    case Obj(members, blank) =>
      && WhiteSpace(blank)
      && forall i :: 0 <= i < |members| ==>
           && WhiteSpace(members[i].before) && ValidUnits(members[i].key) && WhiteSpace(members[i].middle)
           && ValidElement(members[i].element)
  }

  predicate ValidElement(e: Element)
    decreases e
  {
    WhiteSpace(e.before) && ValidJson(e.value) && WhiteSpace(e.after)
  }

  function StringUnitText(u: StringUnit): string {
    match u
    case Unescaped(c) => [c]
    case Escape(c) => ['\\', c]
    case UnicodeEscape(hex) => ['\\', 'u'] + hex
  }

  function StringBody(units: seq<StringUnit>): string {
    if units == [] then "" else StringUnitText(units[0]) + StringBody(units[1..])
  }

  function StringText(units: seq<StringUnit>): string {
    "\"" + StringBody(units) + "\""
  }

  function JsonText(j: Json): string
    decreases j, 0
  {
    match j
    case Scalar(p) => PrintPrimitive(p)
    case Str(units) => StringText(units)
    case Arr(elements, blank) => "[" + (if elements == [] then blank else ElementsText(elements)) + "]"
    case Obj(members, blank) => "{" + (if members == [] then blank else MembersText(members)) + "}"
  }

  function ElementText(e: Element): string
    decreases e, 1
  {
    e.before + (JsonText(e.value) + e.after)
  }

  function ElementsText(elements: seq<Element>): string
    requires elements != []
    decreases elements, 2
  {
    if |elements| == 1 then ElementText(elements[0])
    else ElementText(elements[0]) + ("," + ElementsText(elements[1..]))
  }

  function MemberText(m: Member): string
    decreases m, 2
  {
    m.before + (StringText(m.key) + (m.middle + (":" + ElementText(m.element))))
  }

  function MembersText(members: seq<Member>): string
    requires members != []
    decreases members, 3
  {
    if |members| == 1 then MemberText(members[0])
    else MemberText(members[0]) + ("," + MembersText(members[1..]))
  }

  // ------------------------------------------------------------------ embedding

  /** A text is made of whole tokens. */
  ghost predicate Tokenized(text: string) {
    exists items: seq<Token> :: AllValid(items) && PrintAll(items) == text
  }

  predicate AllValid(items: seq<Token>) {
    forall i :: 0 <= i < |items| ==> ValidToken(items[i])
  }

  lemma {:induction false} PrintJoin(a: seq<Token>, b: seq<Token>)
    ensures PrintAll(a + b) == PrintAll(a) + PrintAll(b)
  {
    if a == [] {
      assert a + b == b;
    } else {
      assert (a + b)[1..] == a[1..] + b && (a + b)[0] == a[0];
      PrintJoin(a[1..], b);
      assert PrintToken(a[0]) + (PrintAll(a[1..]) + PrintAll(b)) == (PrintToken(a[0]) + PrintAll(a[1..])) + PrintAll(b);
    }
  }

  lemma TokenizedJoin(a: string, b: string)
    requires Tokenized(a) && Tokenized(b)
    ensures Tokenized(a + b)
  {
    var x: seq<Token> :| AllValid(x) && PrintAll(x) == a;
    var y: seq<Token> :| AllValid(y) && PrintAll(y) == b;
    PrintJoin(x, y);
    assert AllValid(x + y);
  }

  lemma TokenizedOne(t: Token)
    requires ValidToken(t)
    ensures Tokenized(PrintToken(t))
  {
    assert [t][1..] == [] && PrintAll([t]) == PrintToken(t) + "" == PrintToken(t);
    assert AllValid([t]);
  }

  /** A character that neither opens, closes nor quotes. */
  predicate IsPlain(c: char) {
    c != '"' && !IsOpen(c) && !IsClose(c)
  }

  lemma {:induction false} PlainTokenized(text: string)
    requires forall i :: 0 <= i < |text| ==> IsPlain(text[i])
    ensures Tokenized(text)
  {
    if text == "" {
      assert AllValid([]) && PrintAll([]) == "";
    } else {
      TokenizedOne(Plain(text[0]));
      PlainTokenized(text[1..]);
      TokenizedJoin([text[0]], text[1..]);
      assert [text[0]] + text[1..] == text;
    }
  }

  lemma BlankTokenized(text: string)
    requires WhiteSpace(text)
    ensures Tokenized(text)
  {
    PlainTokenized(text);
  }

  lemma PrimitivePlain(p: Primitive)
    requires ValidPrimitive(p)
    ensures forall i :: 0 <= i < |PrintPrimitive(p)| ==> IsPlain(PrintPrimitive(p)[i])
  {
    match p
    case Word(_) =>
    case Numeric(n) =>
      var (s, f, x) := (SignText(n), FractionText(n), ExponentText(n));
      assert forall c :: c in s || c in n.integer || c in f || c in x ==> IsPlain(c);
      assert forall i :: 0 <= i < |PrintNumber(n)| ==> PrintNumber(n)[i] in s + (n.integer + (f + x));
  }

  /** The scanner's view of a string's characters. */
  function UnitsOf(u: StringUnit): seq<Unit>
    requires ValidStringUnit(u)
  {
    match u
    case Unescaped(c) => [Bare(c)]
    case Escape(c) => [Escaped(c)]
    case UnicodeEscape(hex) => [Escaped('u'), Bare(hex[0]), Bare(hex[1]), Bare(hex[2]), Bare(hex[3])]
  }

  lemma {:induction false} UnitsJoin(a: seq<Unit>, b: seq<Unit>)
    ensures PrintUnits(a + b) == PrintUnits(a) + PrintUnits(b)
  {
    if a == [] {
      assert a + b == b;
    } else {
      assert (a + b)[1..] == a[1..] + b && (a + b)[0] == a[0];
      UnitsJoin(a[1..], b);
    }
  }

  lemma UnitText(u: StringUnit)
    requires ValidStringUnit(u)
    ensures PrintUnits(UnitsOf(u)) == StringUnitText(u)
    ensures forall i :: 0 <= i < |UnitsOf(u)| ==> ValidUnit(UnitsOf(u)[i])
  {
    var units := UnitsOf(u);
    if u.UnicodeEscape? {
      var h := u.hex;
      assert units == [Escaped('u')] + ([Bare(h[0])] + ([Bare(h[1])] + ([Bare(h[2])] + [Bare(h[3])])));
      UnitsJoin([Bare(h[2])], [Bare(h[3])]);
      UnitsJoin([Bare(h[1])], [Bare(h[2])] + [Bare(h[3])]);
      UnitsJoin([Bare(h[0])], [Bare(h[1])] + ([Bare(h[2])] + [Bare(h[3])]));
      UnitsJoin([Escaped('u')], [Bare(h[0])] + ([Bare(h[1])] + ([Bare(h[2])] + [Bare(h[3])])));
      assert ['\\', 'u'] + h == ['\\', 'u'] + ([h[0]] + ([h[1]] + ([h[2]] + [h[3]])));
    }
  }

  lemma {:induction false} StringUnits(units: seq<StringUnit>) returns (out: seq<Unit>)
    requires ValidUnits(units)
    ensures PrintUnits(out) == StringBody(units)
    ensures forall i :: 0 <= i < |out| ==> ValidUnit(out[i])
  {
    if units == [] {
      return [];
    }
    var rest := StringUnits(units[1..]);
    UnitText(units[0]);
    UnitsJoin(UnitsOf(units[0]), rest);
    out := UnitsOf(units[0]) + rest;
  }

  lemma StringToken(units: seq<StringUnit>) returns (t: Token)
    requires ValidUnits(units)
    ensures t.Quoted? && ValidToken(t) && PrintToken(t) == StringText(units)
  {
    var out := StringUnits(units);
    t := Quoted(out);
  }

  lemma StringTokenized(units: seq<StringUnit>)
    requires ValidUnits(units)
    ensures Tokenized(StringText(units))
  {
    var t := StringToken(units);
    TokenizedOne(t);
  }

  /** A bracket around tokens is one token. */
  lemma GroupOf(close: char, inner: string) returns (t: Token)
    requires IsClose(close) && Tokenized(inner)
    ensures t.Group? && ValidToken(t) && PrintToken(t) == [OpenerOf(close)] + inner + [close]
  {
    var items: seq<Token> :| AllValid(items) && PrintAll(items) == inner;
    t := Group(close, items);
  }

  /** An array or an object is one bracket token. */
  lemma {:induction false} CompositeToken(j: Json) returns (t: Token)
    requires ValidJson(j) && (j.Arr? || j.Obj?)
    ensures t.Group? && ValidToken(t) && PrintToken(t) == JsonText(j)
    decreases j, 0
  {
    BlankTokenized(j.blank);
    if j.Arr? {
      if j.elements != [] {
        ElementsTokenized(j.elements);
      }
      t := GroupOf(']', if j.elements == [] then j.blank else ElementsText(j.elements));
    } else {
      if j.members != [] {
        MembersTokenized(j.members);
      }
      t := GroupOf('}', if j.members == [] then j.blank else MembersText(j.members));
    }
  }

  lemma {:induction false} JsonTokenized(j: Json)
    requires ValidJson(j)
    ensures Tokenized(JsonText(j))
    decreases j, 1
  {
    match j
    case Scalar(p) =>
      PrimitivePlain(p);
      PlainTokenized(JsonText(j));
    case Str(units) => StringTokenized(units);
    case _ =>
      var t := CompositeToken(j);
      TokenizedOne(t);
  }

  lemma {:induction false} ElementTokenized(e: Element)
    requires ValidElement(e)
    ensures Tokenized(ElementText(e))
    decreases e, 2
  {
    BlankTokenized(e.before);
    BlankTokenized(e.after);
    JsonTokenized(e.value);
    TokenizedJoin(JsonText(e.value), e.after);
    TokenizedJoin(e.before, JsonText(e.value) + e.after);
  }

  lemma {:induction false} ElementsTokenized(elements: seq<Element>)
    requires elements != [] && forall i :: 0 <= i < |elements| ==> ValidElement(elements[i])
    ensures Tokenized(ElementsText(elements))
    decreases elements, 3
  {
    ElementTokenized(elements[0]);
    if |elements| > 1 {
      ElementsTokenized(elements[1..]);
      PlainTokenized(",");
      TokenizedJoin(",", ElementsText(elements[1..]));
      TokenizedJoin(ElementText(elements[0]), "," + ElementsText(elements[1..]));
    }
  }

  predicate ValidMember(m: Member) {
    WhiteSpace(m.before) && ValidUnits(m.key) && WhiteSpace(m.middle) && ValidElement(m.element)
  }

  lemma {:induction false} MemberTokenized(m: Member)
    requires ValidMember(m)
    ensures Tokenized(MemberText(m))
    decreases m, 3
  {
    BlankTokenized(m.before);
    BlankTokenized(m.middle);
    StringTokenized(m.key);
    ElementTokenized(m.element);
    PlainTokenized(":");
    TokenizedJoin(":", ElementText(m.element));
    TokenizedJoin(m.middle, ":" + ElementText(m.element));
    TokenizedJoin(StringText(m.key), m.middle + (":" + ElementText(m.element)));
    TokenizedJoin(m.before, StringText(m.key) + (m.middle + (":" + ElementText(m.element))));
  }

  lemma {:induction false} MembersTokenized(members: seq<Member>)
    requires members != [] && forall i :: 0 <= i < |members| ==> ValidMember(members[i])
    ensures Tokenized(MembersText(members))
    decreases members, 4
  {
    MemberTokenized(members[0]);
    if |members| > 1 {
      MembersTokenized(members[1..]);
      PlainTokenized(",");
      TokenizedJoin(",", MembersText(members[1..]));
      TokenizedJoin(MemberText(members[0]), "," + MembersText(members[1..]));
    }
  }

  // --------------------------------------------------------------- main results

  /** On any array or object of RFC 8259, whatever follows it, the scanner stops exactly at its end. */
  lemma CompositeTextIsFound(text: string, start: nat, j: Json)
    requires ValidJson(j) && (j.Arr? || j.Obj?) && At(text, start, JsonText(j))
    ensures Scan(text, start, Outside([])) == Found(start + |JsonText(j)|, false)
  {
    var t := CompositeToken(j);
    GroupIsFound(text, start, t);
  }

  /** The same for every string of RFC 8259. */
  lemma StringTextIsFound(text: string, start: nat, units: seq<StringUnit>)
    requires ValidUnits(units) && At(text, start, StringText(units))
    ensures start < |text| && text[start] == '"'
    ensures ScanString(text, start + 1, false) == Found(start + |StringText(units)|, true)
  {
    var t := StringToken(units);
    QuotedIsFound(text, start, t);
  }
}
