/** Fresh names for generated constants: a used name gets the first free number from two on. */
module UniqueNames {
  import opened Decimals

  function Numeral(n: nat): string {
    seq(|Digits(n)|, i requires 0 <= i < |Digits(n)| => Digits(n)[i] as char)
  }

  lemma NumeralInjective(a: nat, b: nat)
    requires Numeral(a) == Numeral(b)
    ensures a == b
  {
    var (x, y) := (Digits(a), Digits(b));
    assert |Numeral(a)| == |x| && |Numeral(b)| == |y|;
    forall i | 0 <= i < |x| ensures x[i] == y[i] {
      assert Numeral(a)[i] == x[i] as char && Numeral(b)[i] == y[i] as char;
    }
    DigitsInjective(a, b);
  }

  /** The name itself, then the name with 2, 3, 4 and so on. */
  function Candidate(identifier: string, n: nat): string {
    if n == 0 then identifier else identifier + Numeral(n + 1)
  }

  function CodesOf(text: string): (codes: seq<int>)
    ensures |codes| == |text| && forall i :: 0 <= i < |text| ==> codes[i] == text[i] as int
  {
    seq(|text|, i requires 0 <= i < |text| => text[i] as int)
  }

  /** The suffix of a candidate reads as a number, and numbering starts at two. */
  lemma CandidateIsNumbered(identifier: string, n: nat) returns (suffix: string)
    ensures Candidate(identifier, n) == identifier + suffix
    ensures if n == 0 then suffix == "" else suffix != "" && suffix[0] != '0' && NumberOf(CodesOf(suffix)) == n + 1
  {
    if n == 0 {
      suffix := "";
    } else {
      suffix := Numeral(n + 1);
      DigitsRead(n + 1);
      assert CodesOf(suffix) == Digits(n + 1);
    }
  }

  lemma CandidatesDiffer(identifier: string, a: nat, b: nat)
    requires a != b
    ensures Candidate(identifier, a) != Candidate(identifier, b)
  {
    var (x, y) := (Candidate(identifier, a), Candidate(identifier, b));
    assert a > 0 ==> x[|identifier|..] == Numeral(a + 1);
    assert b > 0 ==> y[|identifier|..] == Numeral(b + 1);
    assert |Numeral(a + 1)| > 0 && |Numeral(b + 1)| > 0;
    if a > 0 && b > 0 && x == y {
      NumeralInjective(a + 1, b + 1);
    }
  }

  /** The first `n` candidates. */
  function Candidates(identifier: string, n: nat): set<string> {
    if n == 0 then {} else Candidates(identifier, n - 1) + {Candidate(identifier, n - 1)}
  }

  lemma {:induction false} CandidateIsNew(identifier: string, n: nat, k: nat)
    requires k <= n
    ensures Candidate(identifier, n) !in Candidates(identifier, k)
    decreases k
  {
    if k > 0 {
      CandidatesDiffer(identifier, n, k - 1);
      CandidateIsNew(identifier, n, k - 1);
    }
  }

  lemma {:induction false} CandidatesAreMany(identifier: string, n: nat)
    ensures |Candidates(identifier, n)| == n
  {
    if n > 0 {
      CandidatesAreMany(identifier, n - 1);
      CandidateIsNew(identifier, n - 1, n - 1);
    }
  }

  lemma {:induction false} CandidatesAreUsed(used: set<string>, identifier: string, n: nat)
    requires forall m :: 0 <= m < n ==> Candidate(identifier, m) in used
    ensures Candidates(identifier, n) <= used
  {
    if n > 0 {
      CandidatesAreUsed(used, identifier, n - 1);
    }
  }

  lemma SubsetSize(a: set<string>, b: set<string>)
    requires a <= b
    ensures |a| <= |b|
  {
    if a != {} {
      var x :| x in a;
      SubsetSize(a - {x}, b - {x});
    }
  }

  /** If the first `n` candidates are all used then there are at least `n` used names. */
  lemma UsedBound(used: set<string>, identifier: string, n: nat)
    requires forall m :: 0 <= m < n ==> Candidate(identifier, m) in used
    ensures n <= |used|
  {
    CandidatesAreMany(identifier, n);
    CandidatesAreUsed(used, identifier, n);
    SubsetSize(Candidates(identifier, n), used);
  }

  predicate IsFirstFree(used: set<string>, identifier: string, n: nat) {
    Candidate(identifier, n) !in used && forall m :: 0 <= m < n ==> Candidate(identifier, m) in used
  }

  /** The names taken so far. */
  class UsedNames {
    var used: set<string>

    constructor (reserved: set<string>)
      ensures used == reserved
    {
      used := reserved;
    }

    /** Takes the first candidate that is free; there always is one. */
    method GetUniqueIdentifier(identifier: string) returns (candidate: string)
      modifies this
      ensures exists n :: 0 <= n <= |old(used)| && candidate == Candidate(identifier, n) && IsFirstFree(old(used), identifier, n)
      ensures used == old(used) + {candidate}
    {
      candidate := identifier;
      var counter := 2;
      ghost var n := 0;
      while candidate in used
        invariant counter == n + 2 && candidate == Candidate(identifier, n) && used == old(used)
        invariant forall m :: 0 <= m < n ==> Candidate(identifier, m) in used
        invariant n <= |used|
        decreases |used| - n
      {
        candidate := identifier + Numeral(counter);
        counter := counter + 1;
        UsedBound(used, identifier, n + 1);
        n := n + 1;
      }
      used := used + {candidate};
    }
  }

  const RESERVED: set<string> := {"schema", "builder", "zql"}

  /**
   One constant for every table: pairwise distinct, never a reserved name, and each made
   from its own table's preferred name.
   */
  method TableConstants(tables: seq<string>, preferred: string -> string) returns (names: map<string, string>)
    requires forall i, j :: 0 <= i < j < |tables| ==> tables[i] != tables[j]
    ensures forall t :: t in names <==> t in tables
    ensures forall t :: t in names ==> names[t] !in RESERVED && preferred(t) <= names[t]
    ensures forall t :: t in names ==> names[t] != "schema" && names[t] != "builder" && names[t] != "zql"
    ensures forall t, u :: t in names && u in names && t != u ==> names[t] != names[u]
  {
    var usedNames := new UsedNames(RESERVED);
    names := map[];
    for i := 0 to |tables|
      invariant forall t :: t in names <==> t in tables[..i]
      invariant RESERVED <= usedNames.used && forall t :: t in names ==> names[t] in usedNames.used
      invariant forall t :: t in names ==> names[t] !in RESERVED && preferred(t) <= names[t]
      invariant forall t, u :: t in names && u in names && t != u ==> names[t] != names[u]
      invariant fresh(usedNames)
    {
      var name := usedNames.GetUniqueIdentifier(preferred(tables[i]));
      names := names[tables[i] := name];
    }
  }
}
