/**
 JSON.stringify of a string: which code units are escaped, and a reader that takes every
 quoted string back. Quotes, backslashes and control characters are escaped (section 7
 of RFC 8259), and so is a surrogate that has no partner.
 */
module JsonStrings {
  import opened Wrappers
  import opened JsonValues

  const QUOTE: CodeUnit := 0x22
  const BACKSLASH: CodeUnit := 0x5C

  predicate High(u: CodeUnit) { 0xD800 <= u < 0xDC00 }

  predicate Low(u: CodeUnit) { 0xDC00 <= u < 0xE000 }

  function HexDigit(n: int): (u: CodeUnit)
    requires 0 <= n < 16
  {
    if n < 10 then 48 + n else 87 + n
  }

  /** \uXXXX with lower-case hexadecimal digits. */
  function UnicodeEscape(u: CodeUnit): Text {
    [BACKSLASH, 0x75, HexDigit(u / 4096), HexDigit(u / 256 % 16), HexDigit(u / 16 % 16), HexDigit(u % 16)]
  }

  /** The letter of a two-character escape, if there is one. */
  function ShortEscape(u: CodeUnit): Option<CodeUnit> {
    if u == QUOTE || u == BACKSLASH then Some(u)
    else if u == 0x08 then Some(0x62)
    else if u == 0x09 then Some(0x74)
    else if u == 0x0A then Some(0x6E)
    else if u == 0x0C then Some(0x66)
    else if u == 0x0D then Some(0x72)
    else None
  }

  /** The escapes of section 7 of RFC 8259, and lower-case hexadecimal digits for all other ones. */
  lemma EscapesAreStandard(u: CodeUnit, digit: int)
    requires 0 <= digit < 16
    ensures EscapeUnit('"' as int) == ['\\' as int, '"' as int] && EscapeUnit('\\' as int) == ['\\' as int, '\\' as int]
    ensures EscapeUnit('\n' as int) == ['\\' as int, 'n' as int] && EscapeUnit('\r' as int) == ['\\' as int, 'r' as int]
    ensures EscapeUnit('\t' as int) == ['\\' as int, 't' as int]
    ensures EscapeUnit(8) == ['\\' as int, 'b' as int] && EscapeUnit(12) == ['\\' as int, 'f' as int]
    ensures HexDigit(digit) == "0123456789abcdef"[digit] as int
    ensures u >= ' ' as int && u != '"' as int && u != '\\' as int && !High(u) && !Low(u) ==> EscapeUnit(u) == [u]
    ensures (u < ' ' as int && u !in [8, 9, 10, 12, 13]) || High(u) || Low(u) ==>
              EscapeUnit(u) == ['\\' as int, 'u' as int, HexDigit(u / 4096), HexDigit(u / 256 % 16), HexDigit(u / 16 % 16), HexDigit(u % 16)]
  {
  }

  function EscapeUnit(u: CodeUnit): Text {
    match ShortEscape(u)
    case Some(letter) => [BACKSLASH, letter]
    case None => if u < 0x20 || High(u) || Low(u) then UnicodeEscape(u) else [u]
  }

  function Escaped(s: Text): Text {
    if s == [] then []
    else if |s| >= 2 && High(s[0]) && Low(s[1]) then [s[0], s[1]] + Escaped(s[2..])
    else EscapeUnit(s[0]) + Escaped(s[1..])
  }

  function Quote(s: Text): Text {
    [QUOTE] + Escaped(s) + [QUOTE]
  }

  // ---------------------------------------------------------------- reading back

  function HexValue(u: CodeUnit): (n: int)
    ensures 0 <= n < 16
  {
    if 48 <= u <= 57 then u - 48 else if 97 <= u <= 102 then u - 87 else 0
  }

  function HexUnit(a: CodeUnit, b: CodeUnit, c: CodeUnit, d: CodeUnit): CodeUnit {
    HexValue(a) * 4096 + HexValue(b) * 256 + HexValue(c) * 16 + HexValue(d)
  }

  function LongEscape(letter: CodeUnit): CodeUnit {
    if letter == 0x62 then 0x08
    else if letter == 0x74 then 0x09
    else if letter == 0x6E then 0x0A
    else if letter == 0x66 then 0x0C
    else if letter == 0x72 then 0x0D
    else letter
  }

  /** Reads string content up to the closing quote; also returns what follows it. */
  function Unescape(t: Text): Option<(Text, Text)>
    decreases |t|
  {
    if t == [] then None
    else if t[0] == QUOTE then Some(([], t[1..]))
    else if t[0] == BACKSLASH then
      if |t| < 2 then None
      else if t[1] == 0x75 then
        if |t| < 6 then None else Prepend(HexUnit(t[2], t[3], t[4], t[5]), Unescape(t[6..]))
      else Prepend(LongEscape(t[1]), Unescape(t[2..]))
    else Prepend(t[0], Unescape(t[1..]))
  }

  function Prepend(u: CodeUnit, rest: Option<(Text, Text)>): Option<(Text, Text)> {
    match rest
    case Some((s, after)) => Some(([u] + s, after))
    case None => None
  }

  lemma HexRoundTrip(u: CodeUnit)
    ensures HexUnit(HexDigit(u / 4096), HexDigit(u / 256 % 16), HexDigit(u / 16 % 16), HexDigit(u % 16)) == u
  {
    assert u == u / 16 * 16 + u % 16;
    assert u / 16 == u / 256 * 16 + u / 16 % 16;
    assert u / 256 == u / 4096 * 16 + u / 256 % 16;
  }

  lemma UnicodeEscapeRoundTrip(u: CodeUnit, t: Text)
    ensures Unescape(UnicodeEscape(u) + t) == Prepend(u, Unescape(t))
  {
    var (e, whole) := (UnicodeEscape(u), UnicodeEscape(u) + t);
    HexRoundTrip(u);
    assert whole[6..] == t;
    assert whole[0] == e[0] && whole[1] == e[1] && whole[2] == e[2] && whole[3] == e[3] && whole[4] == e[4] && whole[5] == e[5];
  }

  lemma ShortEscapeRoundTrip(u: CodeUnit, letter: CodeUnit, t: Text)
    requires ShortEscape(u) == Some(letter)
    ensures Unescape([BACKSLASH, letter] + t) == Prepend(u, Unescape(t))
  {
    assert ([BACKSLASH, letter] + t)[2..] == t;
  }

  /** One escaped unit is read back as that unit. */
  lemma UnitRoundTrip(u: CodeUnit, t: Text)
    ensures Unescape(EscapeUnit(u) + t) == Prepend(u, Unescape(t))
  {
    if ShortEscape(u).Some? {
      ShortEscapeRoundTrip(u, ShortEscape(u).value, t);
    } else if u < 0x20 || High(u) || Low(u) {
      UnicodeEscapeRoundTrip(u, t);
    } else {
      assert ([u] + t)[1..] == t;
    }
  }

  /** A pair of surrogates is read back as that pair. */
  lemma PairRoundTrip(h: CodeUnit, l: CodeUnit, t: Text)
    requires High(h) && Low(l)
    ensures Unescape([h, l] + t) == Prepend(h, Prepend(l, Unescape(t)))
  {
    assert ([h, l] + t)[1..] == [l] + t && ([l] + t)[1..] == t;
  }

  lemma Joins(front: Text, body: Text, tail: Text)
    ensures (front + body) + tail == front + (body + tail)
  {
  }

  /** Reading takes a quoted string back, whatever follows it. */
  lemma {:induction false} QuoteRoundTrip(s: Text, after: Text)
    ensures Unescape(Escaped(s) + ([QUOTE] + after)) == Some((s, after))
    decreases |s|
  {
    var tail := [QUOTE] + after;
    if s == [] {
      assert Escaped(s) + tail == tail && tail[1..] == after;
    } else if |s| >= 2 && High(s[0]) && Low(s[1]) {
      PairStep(s, after);
    } else {
      UnitStep(s, after);
    }
  }

  lemma {:induction false} PairStep(s: Text, after: Text)
    requires |s| >= 2 && High(s[0]) && Low(s[1])
    ensures Unescape(Escaped(s) + ([QUOTE] + after)) == Some((s, after))
    decreases |s|, 0
  {
    var (body, tail) := (Escaped(s[2..]), [QUOTE] + after);
    QuoteRoundTrip(s[2..], after);
    PairRoundTrip(s[0], s[1], body + tail);
    Joins([s[0], s[1]], body, tail);
    assert [s[0]] + ([s[1]] + s[2..]) == s;
  }

  lemma {:induction false} UnitStep(s: Text, after: Text)
    requires s != [] && !(|s| >= 2 && High(s[0]) && Low(s[1]))
    ensures Unescape(Escaped(s) + ([QUOTE] + after)) == Some((s, after))
    decreases |s|, 0
  {
    var (body, tail) := (Escaped(s[1..]), [QUOTE] + after);
    QuoteRoundTrip(s[1..], after);
    UnitRoundTrip(s[0], body + tail);
    Joins(EscapeUnit(s[0]), body, tail);
    assert [s[0]] + s[1..] == s;
  }

  lemma QuoteTail(s: Text, x: Text)
    ensures (Quote(s) + x)[1..] == Escaped(s) + ([QUOTE] + x)
  {
  }

  /** Quoted strings are self-delimiting and determine their content. */
  lemma QuoteInjective(s: Text, t: Text, x: Text, y: Text)
    requires Quote(s) + x == Quote(t) + y
    ensures s == t && x == y
  {
    QuoteTail(s, x);
    QuoteTail(t, y);
    QuoteRoundTrip(s, x);
    QuoteRoundTrip(t, y);
  }
}
