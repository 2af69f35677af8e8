/** Go's `for k := range m` over a string-keyed map used as a set: every key exactly once,
    in an order the language leaves unspecified. */
module GoMaps {
  /** No element occurs twice. */
  predicate Distinct(xs: seq<string>) {
    forall i, j :: 0 <= i < j < |xs| ==> xs[i] != xs[j]
  }

  /** `xs` lists the elements of `s`, each once, in some order. */
  predicate Enumerates(xs: seq<string>, s: set<string>) {
    Distinct(xs) && (forall x :: x in xs ==> x in s) && (forall x :: x in s ==> x in xs)
  }

  /** The keys of a set-valued Go map, in iteration order: any order the
      runtime picks. */
  method EnumerateSet(s: set<string>) returns (xs: seq<string>)
    ensures Enumerates(xs, s)
  {
    xs := [];
    var rest := s;
    while rest != {}
      invariant rest <= s
      invariant forall x :: x in xs ==> x in s && x !in rest
      invariant forall x :: x in s ==> x in xs || x in rest
      invariant Distinct(xs)
      decreases |rest|
    {
      var x :| x in rest;
      xs := xs + [x];
      rest := rest - {x};
    }
  }

  /** An enumeration is empty exactly when the set is, and is as long as the
      set is large. */
  lemma {:induction false} EnumeratesSize(xs: seq<string>, s: set<string>)
    requires Enumerates(xs, s)
    ensures |xs| == |s|
    ensures xs == [] <==> s == {}
    decreases |xs|
  {
    if xs != [] {
      var x := xs[|xs| - 1];
      var init := xs[..|xs| - 1];
      assert x in s;
      forall y | y in init
        ensures y in s - {x}
      {
        var i :| 0 <= i < |init| && init[i] == y;
        assert xs[i] == y && i < |xs| - 1;
      }
      forall y | y in s - {x}
        ensures y in init
      {
        assert y in xs && y != x;
        assert xs == init + [x];
      }
      EnumeratesSize(init, s - {x});
    }
  }
}
