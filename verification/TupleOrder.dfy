/** Python's order on tuples of strings. */
module TupleOrder {
  import opened KeyOrder

  predicate TupleLess(a: seq<string>, b: seq<string>) {
    b != [] && (a == [] || ScalarLess(a[0], b[0]) || (a[0] == b[0] && TupleLess(a[1..], b[1..])))
  }

  lemma {:induction false} TupleTransitive(a: seq<string>, b: seq<string>, c: seq<string>)
    requires !TupleLess(b, a) && !TupleLess(c, b)
    ensures !TupleLess(c, a)
  {
    if a != [] && b != [] && c != [] {
      ScalarTrichotomy(a[0], b[0]);
      ScalarTrichotomy(b[0], c[0]);
      if a[0] == b[0] && b[0] == c[0] {
        TupleTransitive(a[1..], b[1..], c[1..]);
        ScalarTrichotomy(a[0], a[0]);
      } else {
        if ScalarLess(a[0], b[0]) && ScalarLess(b[0], c[0]) {
          ScalarTransitive(a[0], b[0], c[0]);
        }
        ScalarTrichotomy(a[0], c[0]);
      }
    }
  }

  lemma {:induction false} TupleIrreflexive(a: seq<string>)
    ensures !TupleLess(a, a)
  {
    if a != [] {
      ScalarTrichotomy(a[0], a[0]);
      TupleIrreflexive(a[1..]);
    }
  }

  lemma {:induction false} TupleAsymmetric(a: seq<string>, b: seq<string>)
    requires TupleLess(a, b)
    ensures !TupleLess(b, a)
  {
    if a != [] {
      ScalarTrichotomy(a[0], b[0]);
      if a[0] == b[0] {
        TupleAsymmetric(a[1..], b[1..]);
      }
    }
  }

  lemma {:induction false} PrefixComesFirst(a: seq<string>, b: seq<string>)
    requires a <= b && a != b
    ensures TupleLess(a, b)
  {
    if a != [] {
      PrefixComesFirst(a[1..], b[1..]);
    }
  }
}
