/** util.StringSet: a `map[string]bool` whose keys all map to true, used as
    a finite set of strings. */
module StringSet {
  import opened Seqs

  /** `r` lists every member of `s` exactly once and nothing else. */
  ghost predicate Enumerates(r: seq<string>, s: set<string>) {
    Distinct(r) && forall v :: v in r <==> v in s
  }

  /** NewStringSetFromSlice: the set of the slice's elements. */
  function FromSlice(xs: seq<string>): (s: set<string>)
    ensures forall v :: v in s <==> v in xs
    ensures |s| <= |xs|
  {
    if xs == [] then {} else FromSlice(xs[..|xs| - 1]) + {xs[|xs| - 1]}
  }

  /** StringSet.Difference: one pass over `s` keeping what `other` lacks. */
  method Difference(s: set<string>, other: set<string>) returns (r: set<string>)
    ensures r == s - other
    ensures r <= s
    ensures other == {} ==> r == s
    ensures other == s ==> r == {}
  {
    r := {};
    var rest := s;
    while rest != {}
      invariant rest <= s
      invariant r == (s - rest) - other
      decreases rest
    {
      var v :| v in rest;
      if v !in other {
        r := r + {v};
      }
      rest := rest - {v};
    }
  }

  /** StringSet.ToSlice: the members in whatever order the map iteration
      yields them. */
  method ToSlice(s: set<string>) returns (r: seq<string>)
    ensures Enumerates(r, s)
    ensures |r| == |s|
  {
    r := [];
    var rest := s;
    while rest != {}
      invariant rest <= s
      invariant Distinct(r)
      invariant forall v :: v in r <==> v in s && v !in rest
      invariant |r| + |rest| == |s|
      decreases rest
    {
      var v :| v in rest;
      r := r + [v];
      rest := rest - {v};
    }
  }

  /** Any enumeration of a set is as long as the set is large. */
  lemma {:induction false} EnumerationLength(r: seq<string>, s: set<string>)
    requires Enumerates(r, s)
    ensures |r| == |s|
  {
    if r != [] {
      var last := r[|r| - 1];
      var init := r[..|r| - 1];
      assert Enumerates(init, s - {last}) by {
        forall v ensures v in init <==> v in s - {last} {
          if v in s - {last} {
            assert v in r;
            var j :| 0 <= j < |r| && r[j] == v;
            assert j != |r| - 1;
            assert init[j] == v;
          }
        }
      }
      EnumerationLength(init, s - {last});
    }
  }

  /** Converting a slice to a set and back removes duplicates and keeps the
      element set: the result enumerates the slice's distinct elements. */
  lemma SliceRoundTrip(xs: seq<string>, r: seq<string>)
    requires Enumerates(r, FromSlice(xs))
    ensures Distinct(r)
    ensures forall v :: v in r <==> v in xs
    ensures FromSlice(r) == FromSlice(xs)
    ensures |r| <= |xs|
  {
    var s := FromSlice(xs);
    EnumerationLength(r, s);
    var t := FromSlice(r);
    assert t == s by {
      forall v
        ensures v in t <==> v in s
      {
      }
    }
  }
}
