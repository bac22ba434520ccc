/** The lexicographic order of strings, by code unit. */
module Strings {
  import Sorting

  predicate AtMost(a: string, b: string) {
    if a == [] then true
    else if b == [] then false
    else if a[0] != b[0] then a[0] < b[0]
    else AtMost(a[1..], b[1..])
  }

  lemma {:induction false} Connected(a: string, b: string)
    ensures AtMost(a, b) || AtMost(b, a)
    ensures AtMost(a, b) && AtMost(b, a) ==> a == b
  {
    if a != [] && b != [] && a[0] == b[0] {
      Connected(a[1..], b[1..]);
      assert a == [a[0]] + a[1..] && b == [b[0]] + b[1..];
    }
  }

  lemma {:induction false} Transitive(a: string, b: string, c: string)
    requires AtMost(a, b) && AtMost(b, c)
    ensures AtMost(a, c)
  {
    if a != [] && b != [] && c != [] && a[0] == b[0] == c[0] {
      Transitive(a[1..], b[1..], c[1..]);
    }
  }

  lemma StringsTotallyOrdered()
    ensures Sorting.TotalOrder(AtMost)
  {
    forall a, b ensures (AtMost(a, b) || AtMost(b, a)) && (AtMost(a, b) && AtMost(b, a) ==> a == b) {
      Connected(a, b);
    }
    forall a, b, c | AtMost(a, b) && AtMost(b, c) ensures AtMost(a, c) {
      Transitive(a, b, c);
    }
  }
}
