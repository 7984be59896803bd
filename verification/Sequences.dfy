/** Facts about sequences used throughout. */
module Sequences {

  /** No element occurs twice. */
  predicate NeverTwice<T(==)>(s: seq<T>) { forall i, j :: 0 <= i < j < |s| ==> s[i] != s[j] }

  /** The wanted positions, in order. */
  ghost predicate ArePlaces(places: seq<nat>, wanted: set<nat>) {
    && (forall i, j :: 0 <= i < j < |places| ==> places[i] < places[j])
    && (forall p :: p in places <==> p in wanted)
  }

  lemma PlacesGrow(places: seq<nat>, wanted: set<nat>, n: nat)
    requires ArePlaces(places, wanted) && forall p :: p in wanted ==> p < n
    ensures ArePlaces(places + [n], wanted + {n})
  {
    forall i | 0 <= i < |places| ensures places[i] < n {
      assert places[i] in places;
    }
  }

  lemma Regroup<T>(a: seq<T>, b: seq<T>, c: seq<T>)
    ensures a + b + c == a + (b + c)
  {
  }

  lemma FirstOrAfter<T>(s: seq<T>)
    requires s != []
    ensures forall x :: x in s <==> x == s[0] || x in s[1..]
  {
    assert s == [s[0]] + s[1..];
  }

  lemma LastOrBefore<T>(s: seq<T>)
    requires s != []
    ensures forall x :: x in s <==> x == s[|s| - 1] || x in s[..|s| - 1]
  {
    assert s == s[..|s| - 1] + [s[|s| - 1]];
  }
}
