/** The order of texts by their first different code; a proper prefix comes first. */
module Lexicographic {

  predicate Less(a: seq<int>, b: seq<int>) {
    if b == [] then false
    else if a == [] then true
    else a[0] < b[0] || (a[0] == b[0] && Less(a[1..], b[1..]))
  }

  /** The texts agree before `k`; there the first ends or has the smaller code. */
  predicate FirstDiffers(a: seq<int>, b: seq<int>, k: nat) {
    k <= |a| && k < |b| && (forall i :: 0 <= i < k ==> a[i] == b[i]) && (k < |a| ==> a[k] < b[k])
  }

  /** The order compares the first codes that differ. */
  lemma {:induction false} LessExactly(a: seq<int>, b: seq<int>)
    ensures Less(a, b) <==> exists k: nat :: FirstDiffers(a, b, k)
  {
    if b != [] {
      if a == [] || a[0] < b[0] {
        assert FirstDiffers(a, b, 0);
      } else if a[0] == b[0] {
        LessExactly(a[1..], b[1..]);
        if k: nat :| FirstDiffers(a[1..], b[1..], k) {
          assert forall i :: 1 <= i <= k ==> a[i] == a[1..][i - 1] && b[i] == b[1..][i - 1];
          assert FirstDiffers(a, b, k + 1);
        }
        if k: nat :| FirstDiffers(a, b, k) {
          assert FirstDiffers(a[1..], b[1..], k - 1);
        }
      }
    }
  }

  lemma {:induction false} LessTotal(a: seq<int>, b: seq<int>)
    ensures a == b || Less(a, b) || Less(b, a)
  {
    if a != [] && b != [] {
      LessTotal(a[1..], b[1..]);
      if a[0] == b[0] && a[1..] == b[1..] {
        assert a == [a[0]] + a[1..] && b == [b[0]] + b[1..];
      }
    }
  }

  lemma {:induction false} LessStrict(a: seq<int>, b: seq<int>)
    ensures !(Less(a, b) && Less(b, a))
  {
    if a != [] && b != [] {
      LessStrict(a[1..], b[1..]);
    }
  }

  lemma {:induction false} LessTransitive(a: seq<int>, b: seq<int>, c: seq<int>)
    requires Less(a, b) && Less(b, c)
    ensures Less(a, c)
  {
    if a != [] && a[0] == b[0] == c[0] {
      LessTransitive(a[1..], b[1..], c[1..]);
    }
  }
}
