/** The order in which a std::map<std::string, ...> visits its keys:
    lexicographic comparison character by character, a proper prefix first. */
module Ordering {

  predicate LexLess(a: string, b: string)
    decreases |a|
  {
    if b == [] then false
    else if a == [] then true
    else if a[0] != b[0] then a[0] < b[0]
    else LexLess(a[1..], b[1..])
  }

  lemma {:induction false} LexIrreflexive(a: string)
    ensures !LexLess(a, a)
    decreases |a|
  {
    if a != [] {
      LexIrreflexive(a[1..]);
    }
  }

  lemma {:induction false} LexTransitive(a: string, b: string, c: string)
    requires LexLess(a, b) && LexLess(b, c)
    ensures LexLess(a, c)
    decreases |a|
  {
    if a != [] && a[0] == b[0] && b[0] == c[0] {
      LexTransitive(a[1..], b[1..], c[1..]);
    }
  }

  lemma {:induction false} LexTotal(a: string, b: string)
    requires a != b
    ensures LexLess(a, b) || LexLess(b, a)
    decreases |a|
  {
    if a != [] && b != [] && a[0] == b[0] {
      assert a[1..] != b[1..] by {
        assert a == [a[0]] + a[1..] && b == [b[0]] + b[1..];
      }
      LexTotal(a[1..], b[1..]);
    }
  }

  lemma LexAsymmetric(a: string, b: string)
    requires LexLess(a, b)
    ensures !LexLess(b, a)
  {
    if LexLess(b, a) {
      LexTransitive(a, b, a);
      LexIrreflexive(a);
    }
  }

  /** Strictly ascending in the map's key order, hence without repeats. */
  ghost predicate SortedNames(s: seq<string>) {
    forall i, j :: 0 <= i < j < |s| ==> LexLess(s[i], s[j])
  }

  /** The least name of a non-empty set. */
  method LeastName(names: set<string>) returns (m: string)
    requires names != {}
    ensures m in names
    ensures forall x :: x in names && x != m ==> LexLess(m, x)
  {
    m :| m in names;
    var rest := names - {m};
    while rest != {}
      invariant rest <= names && m in names && m !in rest
      invariant forall x :: x in names - rest && x != m ==> LexLess(m, x)
      decreases rest
    {
      var x :| x in rest;
      if LexLess(x, m) {
        forall y | y in names - rest && y != m
          ensures LexLess(x, y)
        {
          LexTransitive(x, m, y);
        }
        m := x;
      } else {
        LexTotal(m, x);
      }
      rest := rest - {x};
    }
  }

  /** The names of a set in the order a std::map visits them. */
  method AscendingNames(names: set<string>) returns (r: seq<string>)
    ensures SortedNames(r)
    ensures forall x :: x in r <==> x in names
    ensures |r| == |names|
  {
    r := [];
    var rest := names;
    while rest != {}
      invariant rest <= names
      invariant forall x :: x in r <==> x in names && x !in rest
      invariant SortedNames(r)
      invariant forall i, y :: 0 <= i < |r| && y in rest ==> LexLess(r[i], y)
      invariant |r| + |rest| == |names|
      decreases rest
    {
      var m := LeastName(rest);
      r := r + [m];
      rest := rest - {m};
    }
  }
}
