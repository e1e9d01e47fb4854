/**
 The canonical printer whose output is hashed into an invocation's fingerprint: no white
 space, and object members in the code-unit order of their keys (compare section 3.2.3
 of RFC 8785). Two values print the same exactly when they are equal up to the order of
 object members.
 */
module CanonicalJson {
  import opened Wrappers
  import opened JsonValues
  import opened JsonStrings
  import opened Decimals
  import opened Lexicographic

  /** A JSON value as it sits in memory: the members of an object have an order. */
  datatype Json =
    | JNull
    | JBool(flag: bool)
    | JNum(n: int)
    | JStr(text: Text)
    | JArr(items: seq<Json>)
    | JObj(members: seq<Member>)

  datatype Member = Member(key: Text, value: Json)

  predicate DistinctKeys(members: seq<Member>) {
    forall i, j :: 0 <= i < j < |members| ==> members[i].key != members[j].key
  }

  /** No object has a key twice. */
  predicate WellFormed(v: Json) {
    match v
    case JArr(items) => forall i :: 0 <= i < |items| ==> WellFormed(items[i])
    case JObj(members) => DistinctKeys(members) && forall i :: 0 <= i < |members| ==> WellFormed(members[i].value)
    case _ => true
  }

  predicate HasKey(members: seq<Member>, key: Text) {
    exists i :: 0 <= i < |members| && members[i].key == key
  }

  /** The member with a key; keys are distinct, so there is at most one. */
  function IndexOf(members: seq<Member>, key: Text): (i: nat)
    requires HasKey(members, key)
    ensures i < |members| && members[i].key == key
  {
    if members[0].key == key then 0
    else
      assert HasKey(members[1..], key) by {
        var i :| 0 <= i < |members| && members[i].key == key;
        assert members[1..][i - 1].key == key;
      }
      1 + IndexOf(members[1..], key)
  }

  function KeySet(members: seq<Member>): (keys: set<Text>)
    ensures forall k :: k in keys <==> HasKey(members, k)
  {
    set i | 0 <= i < |members| :: members[i].key
  }

  /** The value without the order of object members. */
  function Meaning(v: Json): Value
    requires WellFormed(v)
  {
    match v
    case JNull => Null
    case JBool(flag) => Bool(flag)
    case JNum(n) => Num(n)
    case JStr(text) => Str(text)
    case JArr(items) => Arr(seq(|items|, i requires 0 <= i < |items| => Meaning(items[i])))
    case JObj(members) => Obj(map k | k in KeySet(members) :: Meaning(members[IndexOf(members, k)].value))
  }

  // -------------------------------------------------------------------- sorting

  /** Array.prototype.sort puts strings in the order of their code units. */
  predicate SortedKeys(keys: seq<Text>) {
    forall i, j :: 0 <= i < j < |keys| ==> Less(keys[i], keys[j])
  }

  function Insert(key: Text, keys: seq<Text>): seq<Text> {
    if keys == [] then [key]
    else if Less(keys[0], key) then [keys[0]] + Insert(key, keys[1..])
    else [key] + keys
  }

  /** The keys of the members, sorted. */
  function Keys(members: seq<Member>): seq<Text> {
    if members == [] then [] else Insert(members[0].key, Keys(members[1..]))
  }

  lemma {:induction false} InsertSorts(key: Text, keys: seq<Text>)
    requires SortedKeys(keys) && key !in keys
    ensures SortedKeys(Insert(key, keys))
    ensures forall k :: k in Insert(key, keys) <==> k == key || k in keys
    ensures |Insert(key, keys)| == |keys| + 1
  {
    if keys != [] {
      LessTotal(keys[0], key);
      if Less(keys[0], key) {
        InsertSorts(key, keys[1..]);
        assert keys == [keys[0]] + keys[1..];
        forall j | 0 <= j < |Insert(key, keys[1..])| ensures Less(keys[0], Insert(key, keys[1..])[j]) {
          assert Insert(key, keys[1..])[j] in Insert(key, keys[1..]);
        }
      } else {
        forall j | 0 < j < |keys| ensures Less(key, keys[j]) {
          LessTransitive(key, keys[0], keys[j]);
        }
      }
    }
  }

  lemma {:induction false} KeysSort(members: seq<Member>)
    requires DistinctKeys(members)
    ensures SortedKeys(Keys(members)) && |Keys(members)| == |members|
    ensures forall k :: k in Keys(members) <==> exists i :: 0 <= i < |members| && members[i].key == k
  {
    if members != [] {
      KeysSort(members[1..]);
      assert members[0].key !in Keys(members[1..]);
      InsertSorts(members[0].key, Keys(members[1..]));
      forall k ensures k in Keys(members) <==> exists i :: 0 <= i < |members| && members[i].key == k {
        if i :| 0 <= i < |members| && members[i].key == k {
          assert i > 0 ==> members[1..][i - 1].key == k;
        }
      }
    }
  }

  /** A strictly sorted sequence is determined by its elements. */
  lemma {:induction false} SortedUnique(a: seq<Text>, b: seq<Text>)
    requires SortedKeys(a) && SortedKeys(b) && forall k :: k in a <==> k in b
    ensures a == b
  {
    assert b != [] ==> b[0] in b;
    if a != [] {
      assert a[0] in a && a[0] in b;
      assert b[0] in b && b[0] in a;
      LessStrict(a[0], b[0]);
      LessStrict(a[0], a[0]);
      assert a[0] == b[0];
      forall k ensures k in a[1..] <==> k in b[1..] {
        LessStrict(k, k);
        assert k in a <==> k in b;
        assert a == [a[0]] + a[1..] && b == [b[0]] + b[1..];
      }
      SortedUnique(a[1..], b[1..]);
      assert a == [a[0]] + a[1..] && b == [b[0]] + b[1..];
    }
  }

  // ------------------------------------------------------------------- printing

  const COMMA: CodeUnit := 0x2C
  const COLON: CodeUnit := 0x3A
  const LBRACKET: CodeUnit := 0x5B
  const RBRACKET: CodeUnit := 0x5D
  const LBRACE: CodeUnit := 0x7B
  const RBRACE: CodeUnit := 0x7D
  const MINUS: CodeUnit := 0x2D

  const NULL_TEXT: Text := [0x6E, 0x75, 0x6C, 0x6C]
  const TRUE_TEXT: Text := [0x74, 0x72, 0x75, 0x65]
  const FALSE_TEXT: Text := [0x66, 0x61, 0x6C, 0x73, 0x65]

  function IntegerText(n: int): Text {
    if n < 0 then [MINUS] + Digits(-n) else Digits(n)
  }

  lemma {:induction false} KeysHaveMembers(members: seq<Member>)
    ensures forall k :: k in Keys(members) ==> HasKey(members, k)
  {
    if members != [] {
      KeysHaveMembers(members[1..]);
      forall k | k in Keys(members) ensures HasKey(members, k) {
        InsertHas(members[0].key, Keys(members[1..]), k);
        if k != members[0].key {
          var i :| 0 <= i < |members[1..]| && members[1..][i].key == k;
          assert members[i + 1].key == k;
        }
      }
    }
  }

  lemma {:induction false} InsertHas(key: Text, keys: seq<Text>, k: Text)
    requires k in Insert(key, keys)
    ensures k == key || k in keys
  {
    if keys != [] && Less(keys[0], key) && k != keys[0] {
      InsertHas(key, keys[1..], k);
    }
  }

  function StableJson(v: Json): Text
    decreases v, 0
  {
    match v
    case JNull => NULL_TEXT
    case JBool(flag) => if flag then TRUE_TEXT else FALSE_TEXT
    case JNum(n) => IntegerText(n)
    case JStr(text) => Quote(text)
    case JArr(items) => [LBRACKET] + (ItemsText(items) + [RBRACKET])
    case JObj(members) =>
      KeysHaveMembers(members);
      [LBRACE] + (MembersText(members, Keys(members)) + [RBRACE])
  }

  function ItemsText(items: seq<Json>): Text
    decreases items, 0
  {
    if items == [] then []
    else if |items| == 1 then StableJson(items[0])
    else StableJson(items[0]) + ([COMMA] + ItemsText(items[1..]))
  }

  function MembersText(members: seq<Member>, keys: seq<Text>): Text
    requires forall k :: k in keys ==> HasKey(members, k)
    decreases members, |keys|
  {
    if keys == [] then []
    else if |keys| == 1 then MemberText(members, keys[0])
    else MemberText(members, keys[0]) + ([COMMA] + MembersText(members, keys[1..]))
  }

  function MemberText(members: seq<Member>, key: Text): Text
    requires HasKey(members, key)
    decreases members, 0
  {
    Quote(key) + ([COLON] + StableJson(members[IndexOf(members, key)].value))
  }

  // ------------------------------------------------------------- what is printed

  /** The texts with a comma between any two. */
  function Separated(texts: seq<Text>): seq<int> {
    if texts == [] then []
    else if |texts| == 1 then texts[0]
    else Separated(texts[..|texts| - 1]) + [',' as int] + texts[|texts| - 1]
  }

  lemma {:induction false} SeparatedFront(texts: seq<Text>)
    requires |texts| >= 2
    ensures Separated(texts) == texts[0] + ([',' as int] + Separated(texts[1..]))
  {
    var n := |texts| - 1;
    if n == 1 {
      assert texts[..1] == [texts[0]] && texts[1..] == [texts[1]];
    } else {
      SeparatedFront(texts[..n]);
      assert texts[..n][1..] == texts[1..][..n - 1];
      assert texts[1..][n - 1] == texts[n];
    }
  }

  lemma {:induction false} ItemsPrint(items: seq<Json>, texts: seq<Text>)
    requires |texts| == |items| && forall i :: 0 <= i < |items| ==> texts[i] == StableJson(items[i])
    ensures ItemsText(items) == Separated(texts)
  {
    if |items| >= 2 {
      ItemsPrint(items[1..], texts[1..]);
      SeparatedFront(texts);
    }
  }

  /** The member with the key, printed. */
  predicate IsMemberText(text: Text, members: seq<Member>, key: Text) {
    exists i :: 0 <= i < |members| && members[i].key == key
                && text == Quote(key) + [':' as int] + StableJson(members[i].value)
  }

  lemma IndexIsUnique(members: seq<Member>, key: Text, i: nat)
    requires WellFormed(JObj(members)) && i < |members| && members[i].key == key
    ensures HasKey(members, key) && IndexOf(members, key) == i
  {
  }

  lemma MemberPrints(members: seq<Member>, key: Text, text: Text)
    requires WellFormed(JObj(members)) && IsMemberText(text, members, key)
    ensures HasKey(members, key) && MemberText(members, key) == text
  {
    var i :| 0 <= i < |members| && members[i].key == key && text == Quote(key) + [':' as int] + StableJson(members[i].value);
    IndexIsUnique(members, key, i);
    assert Quote(key) + [':' as int] + StableJson(members[i].value) == Quote(key) + ([COLON] + StableJson(members[i].value));
  }

  lemma {:induction false} MembersPrint(members: seq<Member>, keys: seq<Text>, texts: seq<Text>)
    requires WellFormed(JObj(members)) && |texts| == |keys|
    requires forall i :: 0 <= i < |keys| ==> HasKey(members, keys[i]) && IsMemberText(texts[i], members, keys[i])
    ensures MembersText(members, keys) == Separated(texts)
    decreases |keys|
  {
    if keys != [] {
      MemberPrints(members, keys[0], texts[0]);
    }
    if |keys| >= 2 {
      MembersPrint(members, keys[1..], texts[1..]);
      SeparatedFront(texts);
    }
  }

  /**
   The printed text, piece by piece: the three words, an optional minus and a numeral that
   reads as the number, and brackets around the items or around the members in the order
   of their keys, with commas and colons between.
   */
  lemma PrintsAsJson(v: Json, keys: seq<Text>, texts: seq<Text>)
    requires WellFormed(v) && (v.JObj? ==> keys == Keys(v.members))
    requires v.JArr? ==> |texts| == |v.items| && forall i :: 0 <= i < |v.items| ==> texts[i] == StableJson(v.items[i])
    requires v.JObj? ==> |texts| == |keys| && forall i :: 0 <= i < |keys| ==> IsMemberText(texts[i], v.members, keys[i])
    ensures match v
            case JNull => StableJson(v) == ['n' as int, 'u' as int, 'l' as int, 'l' as int]
            case JBool(flag) => StableJson(v) == if flag then ['t' as int, 'r' as int, 'u' as int, 'e' as int]
                                                 else ['f' as int, 'a' as int, 'l' as int, 's' as int, 'e' as int]
            case JNum(n) => (n >= 0 ==> NumberOf(StableJson(v)) == n)
                            && (n < 0 ==> StableJson(v)[..1] == ['-' as int] && NumberOf(StableJson(v)[1..]) == -n)
            case JStr(text) => StableJson(v) == Quote(text)
            case JArr(_) => StableJson(v) == ['[' as int] + Separated(texts) + [']' as int]
            case JObj(_) => StableJson(v) == ['{' as int] + Separated(texts) + ['}' as int]
  {
    match v
    case JNum(n) =>
      DigitsRead(if n < 0 then -n else n);
      assert n < 0 ==> IntegerText(n)[1..] == Digits(-n);
    case JArr(items) => ItemsPrint(items, texts);
    case JObj(members) =>
      KeysHaveMembers(members);
      MembersPrint(members, keys, texts);
    case _ =>
  }

  // -------------------------------------------------------- one text, one meaning

  /** What can follow a value inside an array or object, or at the end. */
  predicate Ends(x: Text) {
    x == [] || x[0] == COMMA || x[0] == RBRACKET || x[0] == RBRACE
  }

  /** The first unit of a text tells the kind of value. */
  lemma FirstUnit(v: Json)
    ensures StableJson(v) != []
    ensures var u := StableJson(v)[0];
            match v
            case JNull => u == 0x6E
            case JBool(flag) => u == if flag then 0x74 else 0x66
            case JNum(n) => if n < 0 then u == MINUS else IsDigit(u)
            case JStr(_) => u == QUOTE
            case JArr(_) => u == LBRACKET
            case JObj(_) => u == LBRACE
  {
  }

  lemma SameKind(a: Json, b: Json, x: Text, y: Text)
    requires StableJson(a) + x == StableJson(b) + y
    ensures a.JNull? == b.JNull? && a.JBool? == b.JBool? && a.JNum? == b.JNum?
    ensures a.JStr? == b.JStr? && a.JArr? == b.JArr? && a.JObj? == b.JObj?
    ensures a.JBool? ==> a.flag == b.flag
    ensures a.JNum? ==> (a.n < 0) == (b.n < 0)
  {
    FirstUnit(a);
    FirstUnit(b);
    assert (StableJson(a) + x)[0] == StableJson(a)[0] && (StableJson(b) + y)[0] == StableJson(b)[0];
  }

  lemma SameFront(front: Text, p: Text, q: Text)
    requires front + p == front + q
    ensures p == q
  {
    assert p == (front + p)[|front|..] && q == (front + q)[|front|..];
  }

  lemma IntegersAgree(a: int, b: int, x: Text, y: Text)
    requires IntegerText(a) + x == IntegerText(b) + y && Ends(x) && Ends(y) && (a < 0) == (b < 0)
    ensures a == b && x == y
  {
    if a < 0 {
      Joins([MINUS], Digits(-a), x);
      Joins([MINUS], Digits(-b), y);
      SameFront([MINUS], Digits(-a) + x, Digits(-b) + y);
      NumeralEnds(-a, -b, x, y);
    } else {
      NumeralEnds(a, b, x, y);
    }
  }

  lemma Bracketed(open: CodeUnit, body: Text, close: CodeUnit, x: Text)
    ensures ([open] + (body + [close])) + x == [open] + (body + ([close] + x))
  {
  }

  /**
   A text is self-delimiting and has one meaning: whatever follows, two values that start
   the same text are equal up to the order of members, and the same text remains.
   */
  lemma {:induction false} UniquelyDecodable(a: Json, b: Json, x: Text, y: Text)
    requires WellFormed(a) && WellFormed(b) && Ends(x) && Ends(y)
    requires StableJson(a) + x == StableJson(b) + y
    ensures Meaning(a) == Meaning(b) && x == y
    decreases a, 0
  {
    SameKind(a, b, x, y);
    match a
    case JNull => SameFront(NULL_TEXT, x, y);
    case JBool(_) => SameFront(StableJson(a), x, y);
    case JNum(n) => IntegersAgree(n, b.n, x, y);
    case JStr(text) => QuoteInjective(text, b.text, x, y);
    case JArr(items) =>
      Bracketed(LBRACKET, ItemsText(items), RBRACKET, x);
      Bracketed(LBRACKET, ItemsText(b.items), RBRACKET, y);
      SameFront([LBRACKET], ItemsText(items) + ([RBRACKET] + x), ItemsText(b.items) + ([RBRACKET] + y));
      ItemsAgree(items, b.items, x, y);
      assert Meaning(a).items == Meaning(b).items;
    case JObj(members) =>
      KeysHaveMembers(members);
      KeysHaveMembers(b.members);
      var (p, q) := (MembersText(members, Keys(members)), MembersText(b.members, Keys(b.members)));
      Bracketed(LBRACE, p, RBRACE, x);
      Bracketed(LBRACE, q, RBRACE, y);
      SameFront([LBRACE], p + ([RBRACE] + x), q + ([RBRACE] + y));
      MembersAgree(members, Keys(members), b.members, Keys(b.members), x, y);
      MeaningsOfMembers(members, b.members);
  }

  /** What follows the first item. */
  function ItemsTail(items: seq<Json>, x: Text): Text
    requires items != []
  {
    if |items| == 1 then [RBRACKET] + x else [COMMA] + (ItemsText(items[1..]) + ([RBRACKET] + x))
  }

  lemma ItemsSplit(items: seq<Json>, x: Text)
    requires items != []
    ensures ItemsText(items) + ([RBRACKET] + x) == StableJson(items[0]) + ItemsTail(items, x)
    ensures Ends(ItemsTail(items, x))
    ensures (ItemsText(items) + ([RBRACKET] + x))[0] != RBRACKET
  {
    FirstUnit(items[0]);
  }

  lemma {:induction false} ItemsAgree(a: seq<Json>, b: seq<Json>, x: Text, y: Text)
    requires forall i :: 0 <= i < |a| ==> WellFormed(a[i])
    requires forall i :: 0 <= i < |b| ==> WellFormed(b[i])
    requires ItemsText(a) + ([RBRACKET] + x) == ItemsText(b) + ([RBRACKET] + y)
    ensures |a| == |b| && (forall i :: 0 <= i < |a| ==> Meaning(a[i]) == Meaning(b[i])) && x == y
    decreases a, 0
  {
    if a != [] { ItemsSplit(a, x); }
    if b != [] { ItemsSplit(b, y); }
    if a == [] {
      assert ItemsText(a) + ([RBRACKET] + x) == [RBRACKET] + x;
      assert b == [] && ItemsText(b) + ([RBRACKET] + y) == [RBRACKET] + y;
      SameFront([RBRACKET], x, y);
    } else {
      assert b == [] ==> ItemsText(b) + ([RBRACKET] + y) == [RBRACKET] + y;
      UniquelyDecodable(a[0], b[0], ItemsTail(a, x), ItemsTail(b, y));
      var (p, q) := (ItemsTail(a, x), ItemsTail(b, y));
      assert (|a| == 1 <==> p[0] == RBRACKET) && (|b| == 1 <==> q[0] == RBRACKET);
      if |a| == 1 {
        SameFront([RBRACKET], x, y);
      } else {
        SameFront([COMMA], ItemsText(a[1..]) + ([RBRACKET] + x), ItemsText(b[1..]) + ([RBRACKET] + y));
        ItemsAgree(a[1..], b[1..], x, y);
        assert forall i :: 1 <= i < |a| ==> a[i] == a[1..][i - 1] && b[i] == b[1..][i - 1];
      }
    }
  }

  function MembersTail(members: seq<Member>, keys: seq<Text>, x: Text): Text
    requires keys != [] && forall k :: k in keys ==> HasKey(members, k)
  {
    if |keys| == 1 then [RBRACE] + x else [COMMA] + (MembersText(members, keys[1..]) + ([RBRACE] + x))
  }

  lemma MemberSplit(members: seq<Member>, key: Text, x: Text)
    requires HasKey(members, key)
    ensures MemberText(members, key) + x == Quote(key) + ([COLON] + (StableJson(members[IndexOf(members, key)].value) + x))
    ensures (MemberText(members, key) + x)[0] == QUOTE
  {
    var text := StableJson(members[IndexOf(members, key)].value);
    Joins(Quote(key), [COLON] + text, x);
    Joins([COLON], text, x);
  }

  lemma MembersSplit(members: seq<Member>, keys: seq<Text>, x: Text)
    requires keys != [] && HasKey(members, keys[0]) && forall k :: k in keys ==> HasKey(members, k)
    ensures MembersText(members, keys) + ([RBRACE] + x) == MemberText(members, keys[0]) + MembersTail(members, keys, x)
    ensures Ends(MembersTail(members, keys, x))
  {
    if |keys| > 1 {
      var rest := MembersText(members, keys[1..]);
      Joins(MemberText(members, keys[0]), [COMMA] + rest, [RBRACE] + x);
      Joins([COMMA], rest, [RBRACE] + x);
    }
  }

  function MemberValue(members: seq<Member>, key: Text): Json
    requires HasKey(members, key)
  {
    members[IndexOf(members, key)].value
  }

  /** Both objects have the key, with the same meaning under it. */
  predicate SameValue(ms: seq<Member>, ns: seq<Member>, key: Text) {
    HasKey(ms, key) && HasKey(ns, key) &&
    var (v, w) := (MemberValue(ms, key), MemberValue(ns, key));
    WellFormed(v) && WellFormed(w) && Meaning(v) == Meaning(w)
  }

  /** The first members have the same key, and their values start the same text. */
  lemma FirstMembers(ms: seq<Member>, ks: seq<Text>, ns: seq<Member>, ls: seq<Text>, x: Text, y: Text)
    requires ks != [] && HasKey(ms, ks[0]) && forall k :: k in ks ==> HasKey(ms, k)
    requires forall k :: k in ls ==> HasKey(ns, k)
    requires MembersText(ms, ks) + ([RBRACE] + x) == MembersText(ns, ls) + ([RBRACE] + y)
    ensures ls != [] && ls[0] == ks[0] && HasKey(ns, ls[0])
    ensures StableJson(MemberValue(ms, ks[0])) + MembersTail(ms, ks, x) == StableJson(MemberValue(ns, ls[0])) + MembersTail(ns, ls, y)
    ensures Ends(MembersTail(ms, ks, x)) && Ends(MembersTail(ns, ls, y))
  {
    var p := MembersTail(ms, ks, x);
    MembersSplit(ms, ks, x);
    MemberSplit(ms, ks[0], p);
    if ls == [] {
      assert false;
    } else {
      assert ls[0] in ls;
      var q := MembersTail(ns, ls, y);
      MembersSplit(ns, ls, y);
      MemberSplit(ns, ls[0], q);
      var (v, w) := (MemberValue(ms, ks[0]), MemberValue(ns, ls[0]));
      QuoteInjective(ks[0], ls[0], [COLON] + (StableJson(v) + p), [COLON] + (StableJson(w) + q));
      SameFront([COLON], StableJson(v) + p, StableJson(w) + q);
    }
  }

  lemma NoMembers(ns: seq<Member>, ls: seq<Text>, x: Text, y: Text)
    requires forall k :: k in ls ==> HasKey(ns, k)
    requires [RBRACE] + x == MembersText(ns, ls) + ([RBRACE] + y)
    ensures ls == [] && x == y
  {
    if ls != [] {
      assert ls[0] in ls;
      MembersSplit(ns, ls, y);
      MemberSplit(ns, ls[0], MembersTail(ns, ls, y));
    } else {
      SameFront([RBRACE], x, y);
    }
  }

  lemma {:induction false} FirstMembersAgree(ms: seq<Member>, ks: seq<Text>, ns: seq<Member>, ls: seq<Text>, x: Text, y: Text)
    requires forall i :: 0 <= i < |ms| ==> WellFormed(ms[i].value)
    requires forall i :: 0 <= i < |ns| ==> WellFormed(ns[i].value)
    requires ks != [] && HasKey(ms, ks[0]) && forall k :: k in ks ==> HasKey(ms, k)
    requires forall k :: k in ls ==> HasKey(ns, k)
    requires MembersText(ms, ks) + ([RBRACE] + x) == MembersText(ns, ls) + ([RBRACE] + y)
    ensures ls != [] && ls[0] == ks[0] && SameValue(ms, ns, ks[0])
    ensures MembersTail(ms, ks, x) == MembersTail(ns, ls, y)
    decreases ms, |ks|, 0
  {
    FirstMembers(ms, ks, ns, ls, x, y);
    UniquelyDecodable(ms[IndexOf(ms, ks[0])].value, MemberValue(ns, ls[0]), MembersTail(ms, ks, x), MembersTail(ns, ls, y));
  }

  lemma {:induction false} MembersAgree(ms: seq<Member>, ks: seq<Text>, ns: seq<Member>, ls: seq<Text>, x: Text, y: Text)
    requires forall i :: 0 <= i < |ms| ==> WellFormed(ms[i].value)
    requires forall i :: 0 <= i < |ns| ==> WellFormed(ns[i].value)
    requires forall k :: k in ks ==> HasKey(ms, k)
    requires forall k :: k in ls ==> HasKey(ns, k)
    requires MembersText(ms, ks) + ([RBRACE] + x) == MembersText(ns, ls) + ([RBRACE] + y)
    ensures ks == ls && x == y
    ensures forall k :: k in ks ==> SameValue(ms, ns, k)
    decreases ms, |ks|, 1
  {
    if ks == [] {
      assert MembersText(ms, ks) + ([RBRACE] + x) == [RBRACE] + x;
      NoMembers(ns, ls, x, y);
    } else {
      assert ks[0] in ks;
      FirstMembersAgree(ms, ks, ns, ls, x, y);
      NextMembers(ms, ks, ns, ls, x, y);
      if |ks| > 1 {
        MembersAgree(ms, ks[1..], ns, ls[1..], x, y);
      }
      assert ks == [ks[0]] + ks[1..] && ls == [ls[0]] + ls[1..];
    }
  }

  /** The same text after the first members: both end, or both go on. */
  lemma NextMembers(ms: seq<Member>, ks: seq<Text>, ns: seq<Member>, ls: seq<Text>, x: Text, y: Text)
    requires ks != [] && ls != []
    requires forall k :: k in ks ==> HasKey(ms, k)
    requires forall k :: k in ls ==> HasKey(ns, k)
    requires MembersTail(ms, ks, x) == MembersTail(ns, ls, y)
    ensures |ks| == 1 <==> |ls| == 1
    ensures |ks| == 1 ==> x == y
    ensures |ks| > 1 ==> MembersText(ms, ks[1..]) + ([RBRACE] + x) == MembersText(ns, ls[1..]) + ([RBRACE] + y)
  {
    var (p, q) := (MembersTail(ms, ks, x), MembersTail(ns, ls, y));
    assert p[0] == q[0];
    if |ks| == 1 {
      SameFront([RBRACE], x, y);
    } else {
      SameFront([COMMA], MembersText(ms, ks[1..]) + ([RBRACE] + x), MembersText(ns, ls[1..]) + ([RBRACE] + y));
    }
  }

  lemma MeaningAt(members: seq<Member>, key: Text)
    requires WellFormed(JObj(members))
    ensures key in Meaning(JObj(members)).members <==> HasKey(members, key)
    ensures HasKey(members, key) ==> Meaning(JObj(members)).members[key] == Meaning(members[IndexOf(members, key)].value)
  {
  }

  /** The sorted keys are the keys of the map. */
  lemma KeysOfMeaning(members: seq<Member>, key: Text)
    requires WellFormed(JObj(members))
    ensures key in Meaning(JObj(members)).members <==> key in Keys(members)
    ensures key in Keys(members) <==> HasKey(members, key)
  {
    KeysSort(members);
    MeaningAt(members, key);
  }

  lemma MapsEqual(p: map<Text, Value>, q: map<Text, Value>)
    requires forall k :: k in p <==> k in q
    requires forall k :: k in p && k in q ==> p[k] == q[k]
    ensures p == q
  {
  }

  lemma SameMeaningAt(ms: seq<Member>, ns: seq<Member>, key: Text)
    requires WellFormed(JObj(ms)) && WellFormed(JObj(ns)) && Keys(ms) == Keys(ns)
    requires key in Keys(ms) ==> SameValue(ms, ns, key)
    ensures var (p, q) := (Meaning(JObj(ms)).members, Meaning(JObj(ns)).members);
            (key in p <==> key in q) && (key in p && key in q ==> p[key] == q[key])
  {
    KeysOfMeaning(ms, key);
    KeysOfMeaning(ns, key);
    MeaningAt(ms, key);
    MeaningAt(ns, key);
  }

  /** Objects with the same sorted keys and the same meaning under each key are the same map. */
  lemma MeaningsOfMembers(ms: seq<Member>, ns: seq<Member>)
    requires WellFormed(JObj(ms)) && WellFormed(JObj(ns)) && Keys(ms) == Keys(ns)
    requires forall k :: k in Keys(ms) ==> SameValue(ms, ns, k)
    ensures Meaning(JObj(ms)) == Meaning(JObj(ns))
  {
    var (p, q) := (Meaning(JObj(ms)).members, Meaning(JObj(ns)).members);
    forall k ensures (k in p <==> k in q) && (k in p && k in q ==> p[k] == q[k]) {
      SameMeaningAt(ms, ns, k);
    }
    MapsEqual(p, q);
  }

  // -------------------------------------------------------- one meaning, one text

  lemma {:induction false} Canonical(a: Json, b: Json)
    requires WellFormed(a) && WellFormed(b) && Meaning(a) == Meaning(b)
    ensures StableJson(a) == StableJson(b)
    decreases a, 0
  {
    match a
    case JArr(items) =>
      assert |items| == |b.items|;
      forall i | 0 <= i < |items| ensures Meaning(items[i]) == Meaning(b.items[i]) {
        assert Meaning(a).items[i] == Meaning(b).items[i];
      }
      ItemsCanonical(items, b.items);
    case JObj(members) =>
      KeysCanonical(members, b.members);
      KeysHaveMembers(members);
      KeysHaveMembers(b.members);
      forall k | k in Keys(members)
        ensures SameValue(members, b.members, k)
      {
        MeaningAt(members, k);
        MeaningAt(b.members, k);
      }
      MembersCanonical(members, b.members, Keys(members));
    case _ =>
  }

  lemma KeysCanonical(ms: seq<Member>, ns: seq<Member>)
    requires WellFormed(JObj(ms)) && WellFormed(JObj(ns)) && Meaning(JObj(ms)) == Meaning(JObj(ns))
    ensures Keys(ms) == Keys(ns)
  {
    KeysSort(ms);
    KeysSort(ns);
    forall k ensures k in Keys(ms) <==> k in Keys(ns) {
      KeysOfMeaning(ms, k);
      KeysOfMeaning(ns, k);
    }
    SortedUnique(Keys(ms), Keys(ns));
  }

  lemma {:induction false} ItemsCanonical(a: seq<Json>, b: seq<Json>)
    requires |a| == |b|
    requires forall i :: 0 <= i < |a| ==> WellFormed(a[i]) && WellFormed(b[i]) && Meaning(a[i]) == Meaning(b[i])
    ensures ItemsText(a) == ItemsText(b)
    decreases a, 0
  {
    if a != [] {
      Canonical(a[0], b[0]);
      ItemsCanonical(a[1..], b[1..]);
    }
  }

  lemma {:induction false} MembersCanonical(ms: seq<Member>, ns: seq<Member>, keys: seq<Text>)
    requires forall i :: 0 <= i < |ms| ==> WellFormed(ms[i].value)
    requires forall i :: 0 <= i < |ns| ==> WellFormed(ns[i].value)
    requires forall k :: k in keys ==> HasKey(ms, k)
    requires forall k :: k in keys ==> HasKey(ns, k)
    requires forall k :: k in keys ==> SameValue(ms, ns, k)
    ensures MembersText(ms, keys) == MembersText(ns, keys)
    decreases ms, |keys|
  {
    if keys != [] {
      assert keys[0] in keys;
      Canonical(ms[IndexOf(ms, keys[0])].value, ns[IndexOf(ns, keys[0])].value);
      MembersCanonical(ms, ns, keys[1..]);
    }
  }

  /** Two values print the same exactly when they are equal up to the order of members. */
  lemma StableJsonIsCanonical(a: Json, b: Json)
    requires WellFormed(a) && WellFormed(b)
    ensures StableJson(a) == StableJson(b) <==> Meaning(a) == Meaning(b)
  {
    if StableJson(a) == StableJson(b) {
      UniquelyDecodable(a, b, [], []);
    }
    if Meaning(a) == Meaning(b) {
      Canonical(a, b);
    }
  }

  // ------------------------------------------------------- a text that can be encoded

  /** Every surrogate has its partner, so that encoding as UTF-8 loses nothing. */
  predicate Paired(t: Text) {
    if t == [] then true
    else if |t| >= 2 && High(t[0]) && Low(t[1]) then Paired(t[2..])
    else !High(t[0]) && !Low(t[0]) && Paired(t[1..])
  }

  lemma {:induction false} PairedJoin(a: Text, b: Text)
    requires Paired(a) && Paired(b)
    ensures Paired(a + b)
    decreases |a|
  {
    if a == [] {
      assert a + b == b;
    } else if |a| >= 2 && High(a[0]) && Low(a[1]) {
      PairedJoin(a[2..], b);
      assert (a + b)[2..] == a[2..] + b && (a + b)[0] == a[0] && (a + b)[1] == a[1];
    } else {
      PairedJoin(a[1..], b);
      assert (a + b)[1..] == a[1..] + b && (a + b)[0] == a[0];
    }
  }

  predicate Plain(t: Text) {
    forall i :: 0 <= i < |t| ==> !High(t[i]) && !Low(t[i])
  }

  lemma {:induction false} PlainPaired(t: Text)
    requires Plain(t)
    ensures Paired(t)
  {
    if t != [] {
      PlainPaired(t[1..]);
    }
  }

  lemma {:induction false} EscapedPaired(s: Text)
    ensures Paired(Escaped(s))
    decreases |s|
  {
    if s != [] {
      if |s| >= 2 && High(s[0]) && Low(s[1]) {
        EscapedPaired(s[2..]);
        assert Escaped(s)[2..] == Escaped(s[2..]);
      } else {
        EscapedPaired(s[1..]);
        PlainPaired(EscapeUnit(s[0]));
        PairedJoin(EscapeUnit(s[0]), Escaped(s[1..]));
      }
    }
  }

  lemma QuotePaired(s: Text)
    ensures Paired(Quote(s))
  {
    EscapedPaired(s);
    PlainPaired([QUOTE]);
    PairedJoin([QUOTE], Escaped(s));
    PairedJoin([QUOTE] + Escaped(s), [QUOTE]);
  }

  lemma WrapPaired(open: CodeUnit, body: Text, close: Text)
    requires Plain([open]) && Paired(body) && Paired(close)
    ensures Paired([open] + (body + close))
  {
    PlainPaired([open]);
    PairedJoin(body, close);
    PairedJoin([open], body + close);
  }

  /** The printed text can be encoded, even when a string of the value has a lone surrogate. */
  lemma {:induction false} StableJsonPaired(v: Json)
    ensures Paired(StableJson(v))
    decreases v, 0
  {
    match v
    case JStr(text) => QuotePaired(text);
    case JArr(items) =>
      ItemsPaired(items);
      PlainPaired([RBRACKET]);
      WrapPaired(LBRACKET, ItemsText(items), [RBRACKET]);
    case JObj(members) =>
      KeysHaveMembers(members);
      MembersPaired(members, Keys(members));
      PlainPaired([RBRACE]);
      WrapPaired(LBRACE, MembersText(members, Keys(members)), [RBRACE]);
    case _ => PlainPaired(StableJson(v));
  }

  lemma {:induction false} ItemsPaired(items: seq<Json>)
    ensures Paired(ItemsText(items))
    decreases items, 0
  {
    if items != [] {
      StableJsonPaired(items[0]);
      ItemsPaired(items[1..]);
      PlainPaired([COMMA]);
      PairedJoin([COMMA], ItemsText(items[1..]));
      PairedJoin(StableJson(items[0]), [COMMA] + ItemsText(items[1..]));
    }
  }

  lemma {:induction false} MembersPaired(members: seq<Member>, keys: seq<Text>)
    requires forall k :: k in keys ==> HasKey(members, k)
    ensures Paired(MembersText(members, keys))
    decreases members, |keys|
  {
    if keys != [] {
      assert keys[0] in keys;
      var value := members[IndexOf(members, keys[0])].value;
      StableJsonPaired(value);
      QuotePaired(keys[0]);
      PlainPaired([COLON]);
      PairedJoin([COLON], StableJson(value));
      PairedJoin(Quote(keys[0]), [COLON] + StableJson(value));
      MembersPaired(members, keys[1..]);
      PlainPaired([COMMA]);
      PairedJoin([COMMA], MembersText(members, keys[1..]));
      PairedJoin(MemberText(members, keys[0]), [COMMA] + MembersText(members, keys[1..]));
    }
  }
}
