/** Cardinalities of finite sets and of the values of a sequence. */
module Counting {

  lemma SubsetSize<T>(a: set<T>, b: set<T>)
    requires a <= b
    ensures |a| <= |b|
  {
    assert b == a + (b - a);
  }

  predicate Different<T(==)>(s: seq<T>) {
    forall i, j | 0 <= i < j < |s| :: s[i] != s[j]
  }

  /** A sequence has as many values as elements exactly when no element repeats. */
  lemma {:induction false} ValuesCount<T>(s: seq<T>, values: set<T>)
    requires forall x :: x in values <==> x in s
    ensures |values| <= |s| && (|values| == |s| <==> Different(s))
  {
    if s == [] {
      assert values == {};
    } else {
      var n := |s| - 1;
      var rest := set i | 0 <= i < n :: s[i];
      assert s == s[..n] + [s[n]];
      ValuesCount(s[..n], rest);
      assert values == rest + {s[n]};
      if s[n] in rest {
        var i :| 0 <= i < n && s[i] == s[n];
      }
    }
  }
}
