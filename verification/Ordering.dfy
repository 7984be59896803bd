/** Sorting as the scripts use it: Python's `sorted` and `list.sort`, numpy's stable `argsort`. */
module Ordering {
  import opened Sequences

  ghost predicate TotalPreorder<T(!new)>(le: (T, T) -> bool) {
    && (forall x, y :: le(x, y) || le(y, x))
    && (forall x, y, z :: le(x, y) && le(y, z) ==> le(x, z))
  }

  ghost predicate Antisymmetric<T(!new)>(le: (T, T) -> bool) {
    forall x, y :: le(x, y) && le(y, x) ==> x == y
  }

  ghost predicate SortedBy<T>(le: (T, T) -> bool, s: seq<T>) {
    forall i, j :: 0 <= i < j < |s| ==> le(s[i], s[j])
  }

  function Insert<T>(le: (T, T) -> bool, x: T, s: seq<T>): seq<T> {
    if s == [] || le(x, s[0]) then [x] + s else [s[0]] + Insert(le, x, s[1..])
  }

  /** Stable sort: an element goes in front of the first later element that is not below it. */
  function Sort<T>(le: (T, T) -> bool, s: seq<T>): seq<T> {
    if s == [] then [] else Insert(le, s[0], Sort(le, s[1..]))
  }

  lemma {:induction false} InsertSorted<T(!new)>(le: (T, T) -> bool, x: T, s: seq<T>)
    requires TotalPreorder(le) && SortedBy(le, s)
    ensures SortedBy(le, Insert(le, x, s))
  {
    if s != [] && !le(x, s[0]) {
      InsertSorted(le, x, s[1..]);
      var rest := Insert(le, x, s[1..]);
      InsertKeeps(le, x, s[1..]);
      forall j | 0 <= j < |rest| ensures le(s[0], rest[j]) {
        assert rest[j] in rest;
      }
    }
  }

  lemma {:induction false} InsertKeeps<T>(le: (T, T) -> bool, x: T, s: seq<T>)
    ensures multiset(Insert(le, x, s)) == multiset{x} + multiset(s)
    ensures forall y :: y in Insert(le, x, s) <==> y == x || y in s
  {
    if s != [] && !le(x, s[0]) {
      InsertKeeps(le, x, s[1..]);
      assert s == [s[0]] + s[1..];
    }
  }

  lemma {:induction false} SortSorts<T(!new)>(le: (T, T) -> bool, s: seq<T>)
    requires TotalPreorder(le)
    ensures SortedBy(le, Sort(le, s))
    ensures multiset(Sort(le, s)) == multiset(s)
    ensures |Sort(le, s)| == |s|
  {
    if s != [] {
      SortSorts(le, s[1..]);
      InsertSorted(le, s[0], Sort(le, s[1..]));
      InsertKeeps(le, s[0], Sort(le, s[1..]));
      assert s == [s[0]] + s[1..];
    }
    assert |multiset(Sort(le, s))| == |Sort(le, s)| && |multiset(s)| == |s|;
  }

  /** The first of the least elements. */
  ghost predicate IsFirstLeast<T>(le: (T, T) -> bool, s: seq<T>, k: int) {
    && 0 <= k < |s|
    && (forall j :: 0 <= j < |s| ==> le(s[k], s[j]))
    && (forall j :: 0 <= j < k ==> !le(s[j], s[k]))
  }

  /** Being stable, the sort puts the first of the least elements in front. */
  lemma {:induction false} SortStartsWithFirst<T(!new)>(le: (T, T) -> bool, s: seq<T>) returns (k: nat)
    requires TotalPreorder(le) && s != []
    ensures IsFirstLeast(le, s, k) && |Sort(le, s)| == |s| && Sort(le, s)[0] == s[k]
  {
    SortSorts(le, s);
    k := 0;
    if |s| > 1 {
      var least := SortStartsWithFirst(le, s[1..]);
      if !le(s[0], s[1..][least]) { k := least + 1; }
    }
  }

  lemma TailElements<T>(s: seq<T>)
    requires s != []
    ensures multiset(s[1..]) == multiset(s) - multiset{s[0]}
  {
    assert s == [s[0]] + s[1..];
  }

  lemma HeadIsLeast<T(!new)>(le: (T, T) -> bool, a: seq<T>, b: seq<T>)
    requires TotalPreorder(le) && SortedBy(le, a) && multiset(a) == multiset(b) && a != [] && b != []
    ensures le(a[0], b[0])
  {
    assert b[0] in multiset(a);
    var j :| 0 <= j < |a| && a[j] == b[0];
    assert j == 0 || le(a[0], a[j]);
    assert le(b[0], b[0]);
  }

  /** A sorted list is determined by its contents. */
  lemma {:induction false} SortedUnique<T(!new)>(le: (T, T) -> bool, a: seq<T>, b: seq<T>)
    requires TotalPreorder(le) && Antisymmetric(le)
    requires SortedBy(le, a) && SortedBy(le, b) && multiset(a) == multiset(b)
    ensures a == b
  {
    assert |multiset(a)| == |a| && |multiset(b)| == |b|;
    if a != [] {
      HeadIsLeast(le, a, b);
      HeadIsLeast(le, b, a);
      TailElements(a);
      TailElements(b);
      SortedUnique(le, a[1..], b[1..]);
      assert a == [a[0]] + a[1..] && b == [b[0]] + b[1..];
    }
  }

  lemma SameElements<T>(a: seq<T>, b: seq<T>)
    requires multiset(a) == multiset(b)
    ensures forall x :: x in a <==> x in b
  {
    assert forall x :: x in a <==> x in multiset(a);
    assert forall x :: x in b <==> x in multiset(b);
  }

  lemma {:induction false} CountedOnce<T(!new)>(s: seq<T>, x: T)
    requires NeverTwice(s)
    ensures multiset(s)[x] == if x in s then 1 else 0
  {
    if s != [] {
      CountedOnce(s[1..], x);
      TailElements(s);
      assert s == [s[0]] + s[1..] && s[0] !in s[1..];
    }
  }

  /** Lists without repetitions and with the same members are permutations of one another. */
  lemma SameSetSameElements<T(!new)>(a: seq<T>, b: seq<T>)
    requires NeverTwice(a) && NeverTwice(b) && forall x :: x in a <==> x in b
    ensures multiset(a) == multiset(b)
  {
    forall x ensures multiset(a)[x] == multiset(b)[x] {
      CountedOnce(a, x);
      CountedOnce(b, x);
    }
  }

  function Without<T>(s: seq<T>, k: nat): seq<T>
    requires k < |s|
  {
    s[..k] + s[k + 1..]
  }

  lemma WithoutElement<T>(s: seq<T>, k: nat)
    requires k < |s|
    ensures multiset(Without(s, k)) == multiset(s) - multiset{s[k]}
  {
    assert s == s[..k] + [s[k]] + s[k + 1..];
  }

  lemma StaysIn<T>(s: seq<T>, i: nat, j: nat)
    requires i < |s| && j < |s| && i != j
    ensures s[i] in Without(s, j)
  {
    assert Without(s, j)[if i < j then i else i - 1] == s[i];
  }

  lemma WasAt<T>(s: seq<T>, l: nat, x: T) returns (k: nat)
    requires l < |s| && x in Without(s, l)
    ensures k < |s| && k != l && s[k] == x
  {
    var m :| 0 <= m < |Without(s, l)| && Without(s, l)[m] == x;
    k := if m < l then m else m + 1;
  }

  /** Two entries of a list are two entries of every permutation of it. */
  lemma PairSurvives<T>(a: seq<T>, b: seq<T>, i: nat, j: nat) returns (k: nat, l: nat)
    requires multiset(a) == multiset(b) && i < |a| && j < |a| && i != j
    ensures k < |b| && l < |b| && k != l && b[k] == a[i] && b[l] == a[j]
  {
    SameElements(a, b);
    assert a[j] in b;
    l :| 0 <= l < |b| && b[l] == a[j];
    WithoutElement(a, j);
    WithoutElement(b, l);
    SameElements(Without(a, j), Without(b, l));
    StaysIn(a, i, j);
    k := WasAt(b, l, a[i]);
  }
}
