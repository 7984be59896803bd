/** Bisection over time stamps and the nearest-neighbour rules built on it. On sorted stamps it finds the
    place of a stamp; what it does on unsorted ones is stated as well. */
module StampSearch {
  import opened Sequences
  import opened Reals

  ghost predicate NonDecreasing(a: seq<real>) {
    forall i, j :: 0 <= i < j < |a| ==> a[i] <= a[j]
  }

  ghost predicate StrictlyIncreasing(a: seq<real>) {
    forall i, j :: 0 <= i < j < |a| ==> a[i] < a[j]
  }

  /** The bisection loop of `np.searchsorted(a, v)` and `bisect.bisect_left(a, v)` from lo to hi. */
  function BisectLeft(a: seq<real>, v: real, lo: nat, hi: nat): (i: nat)
    requires lo <= hi <= |a|
    ensures lo <= i <= hi
    ensures (i == lo || a[i - 1] < v) && (i == hi || v <= a[i])
    decreases hi - lo
  {
    if lo == hi then lo
    else
      var mid := (lo + hi) / 2;
      if a[mid] < v then BisectLeft(a, v, mid + 1, hi) else BisectLeft(a, v, lo, mid)
  }

  /** One round of the loop. */
  lemma BisectRound(a: seq<real>, v: real, lo: nat, mid: nat, hi: nat)
    requires lo < hi <= |a| && mid == (lo + hi) / 2
    ensures BisectLeft(a, v, lo, hi) == if a[mid] < v then BisectLeft(a, v, mid + 1, hi) else BisectLeft(a, v, lo, mid)
  {
  }

  /** The bisection loop with `side='right'`. */
  function BisectRight(a: seq<real>, v: real, lo: nat, hi: nat): (i: nat)
    requires lo <= hi <= |a|
    ensures lo <= i <= hi
    ensures (i == lo || a[i - 1] <= v) && (i == hi || v < a[i])
    decreases hi - lo
  {
    if lo == hi then lo
    else
      var mid := (lo + hi) / 2;
      if v < a[mid] then BisectRight(a, v, lo, mid) else BisectRight(a, v, mid + 1, hi)
  }

  /** The insertion point. On sorted stamps it is the first index whose stamp is not before v; on any
      stamps, the one in front of it is before v and the one at it is not. */
  function InsertionLeft(a: seq<real>, v: real): (i: nat)
    ensures i <= |a| && (i == 0 || a[i - 1] < v) && (i == |a| || v <= a[i])
    ensures NonDecreasing(a) ==> forall k :: 0 <= k < i ==> a[k] < v
    ensures NonDecreasing(a) ==> forall k :: i <= k < |a| ==> v <= a[k]
  {
    BisectLeft(a, v, 0, |a|)
  }

  /** The insertion point behind equal stamps: on sorted stamps the first index whose stamp is after v. */
  function InsertionRight(a: seq<real>, v: real): (i: nat)
    ensures i <= |a|
    ensures NonDecreasing(a) ==> forall k :: 0 <= k < i ==> a[k] <= v
    ensures NonDecreasing(a) ==> forall k :: i <= k < |a| ==> v < a[k]
  {
    BisectRight(a, v, 0, |a|)
  }

  /** The two positions looked at around an insertion point. */
  predicate Beside(a: seq<real>, v: real, k: int) {
    0 <= k < |a| && (k == InsertionLeft(a, v) - 1 || k == InsertionLeft(a, v))
  }

  /** One of the two neighbours is at least as near as any stamp of the whole sequence. */
  lemma NeighbourIsNearest(a: seq<real>, v: real, k: int)
    requires NonDecreasing(a) && 0 <= k < |a|
    ensures exists n :: Beside(a, v, n) && Abs(a[n] - v) <= Abs(a[k] - v)
  {
    var i := InsertionLeft(a, v);
    var n := if k < i then i - 1 else i;
    assert Beside(a, v, n) && Abs(a[n] - v) <= Abs(a[k] - v);
  }

  /** A later stamp never goes to an earlier place, sorted or not. */
  lemma {:induction false} BisectMonotone(a: seq<real>, u: real, v: real, lo: nat, hi: nat)
    requires u <= v && lo <= hi <= |a|
    ensures BisectLeft(a, u, lo, hi) <= BisectLeft(a, v, lo, hi)
    decreases hi - lo
  {
    if lo < hi {
      var mid := (lo + hi) / 2;
      BisectRound(a, u, lo, mid, hi);
      BisectRound(a, v, lo, mid, hi);
      if a[mid] < u {
        BisectMonotone(a, u, v, mid + 1, hi);
      } else if v <= a[mid] {
        BisectMonotone(a, u, v, lo, mid);
      }
    }
  }

  lemma InsertionMonotone(a: seq<real>, u: real, v: real)
    requires u <= v
    ensures InsertionLeft(a, u) <= InsertionLeft(a, v)
  {
    BisectMonotone(a, u, v, 0, |a|);
  }

  /** Two stamps without an entry between them go to the same place. */
  lemma {:induction false} BisectSamePath(a: seq<real>, u: real, v: real, lo: nat, hi: nat)
    requires u <= v && lo <= hi <= |a| && forall k :: lo <= k < hi ==> a[k] < u || v <= a[k]
    ensures BisectLeft(a, u, lo, hi) == BisectLeft(a, v, lo, hi)
    decreases hi - lo
  {
    if lo < hi {
      var mid := (lo + hi) / 2;
      BisectRound(a, u, lo, mid, hi);
      BisectRound(a, v, lo, mid, hi);
      if a[mid] < u {
        BisectSamePath(a, u, v, mid + 1, hi);
      } else {
        BisectSamePath(a, u, v, lo, mid);
      }
    }
  }

  lemma SameInsertion(a: seq<real>, u: real, v: real)
    requires u <= v && forall k :: 0 <= k < |a| ==> a[k] < u || v <= a[k]
    ensures InsertionLeft(a, u) == InsertionLeft(a, v)
  {
    BisectSamePath(a, u, v, 0, |a|);
  }

  // ---------- the nearest of the two neighbours ----------

  /** `min` over the neighbours of the insertion point by distance: the earlier one wins a tie. */
  function NearestIndex(times: seq<real>, stamp: real): nat
    requires times != []
  {
    var i := InsertionLeft(times, stamp);
    if i == 0 then 0
    else if i == |times| then i - 1
    else if Abs(times[i] - stamp) < Abs(times[i - 1] - stamp) then i
    else i - 1
  }

  /** The answer to a query is as near as any stamp of the sequence. */
  ghost predicate AnsweredRight(times: seq<real>, stamp: real)
    requires times != []
  {
    forall k :: 0 <= k < |times| ==> Abs(times[NearestIndex(times, stamp)] - stamp) <= Abs(times[k] - stamp)
  }

  /** On sorted stamps, of several nearest ones the last one before the query is the answer, and without such the
      first one at or after it. */
  lemma NearestPrefersBefore(times: seq<real>, stamp: real, k: nat)
    requires NonDecreasing(times) && k < |times|
    requires forall j :: 0 <= j < |times| ==> Abs(times[k] - stamp) <= Abs(times[j] - stamp)
    ensures var e := NearestIndex(times, stamp);
      && e < |times|
      && (times[k] < stamp ==> times[e] < stamp && k <= e)
      && (times[e] >= stamp ==> e <= k)
  {
    hide InsertionLeft;
    var i := InsertionLeft(times, stamp);
    if times[k] < stamp {
      assert k < i && times[k] <= times[i - 1];
    } else {
      assert i <= k && times[i] <= times[k];
    }
  }

  /** The query for a stamp of the sequence lands on that stamp, right behind the next lower one. */
  predicate FindsItself(times: seq<real>, y: real) {
    var i := InsertionLeft(times, y);
    && i < |times| && times[i] == y
    && forall k :: 0 <= k < |times| && times[k] < y ==> 0 < i && times[k] <= times[i - 1]
  }

  /** Every stamp finds itself, and the last one is the greatest. */
  predicate Searchable(times: seq<real>) {
    && (forall k :: 0 <= k < |times| ==> FindsItself(times, times[k]))
    && (forall k :: 0 <= k < |times| ==> times[k] <= times[|times| - 1])
  }

  /** Every query whatever is answered with a nearest stamp exactly when the sequence is searchable. */
  lemma AllAnsweredExactly(times: seq<real>)
    requires times != []
    ensures (forall v :: AnsweredRight(times, v)) <==> Searchable(times)
  {
    if Searchable(times) {
      forall v ensures AnsweredRight(times, v) {
        SearchableAnswers(times, v);
      }
    }
    if forall v :: AnsweredRight(times, v) {
      forall k | 0 <= k < |times| ensures FindsItself(times, times[k]) && times[k] <= times[|times| - 1] {
        AnswersFind(times, times[k], k);
        AnswersEndHigh(times, k);
      }
    }
  }

  lemma SearchableAnswers(times: seq<real>, v: real)
    requires times != [] && Searchable(times)
    ensures AnsweredRight(times, v)
  {
    if k :| 0 <= k < |times| && v <= times[k] {
      var m := LeastFrom(times, v, k);
      assert FindsItself(times, times[m]);
      BetweenNeighbours(times, v, times[m]);
    } else {
      BeyondAll(times, v);
    }
  }

  lemma BeyondAll(times: seq<real>, v: real)
    requires times != [] && forall k :: 0 <= k < |times| ==> times[k] < v && times[k] <= times[|times| - 1]
    ensures AnsweredRight(times, v)
  {
    assert InsertionLeft(times, v) == |times|;
  }

  /** A query between an entry y that finds itself and the next lower one. */
  lemma BetweenNeighbours(times: seq<real>, v: real, y: real)
    requires times != [] && FindsItself(times, y) && v <= y
    requires forall j :: 0 <= j < |times| && v <= times[j] ==> y <= times[j]
    ensures AnsweredRight(times, v)
  {
    assert forall j :: 0 <= j < |times| ==> times[j] < v || y <= times[j];
    SameInsertion(times, v, y);
    forall k | 0 <= k < |times| ensures Abs(times[NearestIndex(times, v)] - v) <= Abs(times[k] - v) {
      assert times[k] < v ==> times[k] < y;
    }
  }

  /** The least entry that is not below v. */
  lemma LeastFrom(times: seq<real>, v: real, k: nat) returns (m: nat)
    requires k < |times| && v <= times[k]
    ensures m < |times| && v <= times[m] && forall j :: 0 <= j < |times| && v <= times[j] ==> times[m] <= times[j]
  {
    m := k;
    for n := 0 to |times|
      invariant m < |times| && v <= times[m] && forall j :: 0 <= j < n && v <= times[j] ==> times[m] <= times[j]
    {
      if v <= times[n] < times[m] { m := n; }
    }
  }

  /** The greatest entry below v. */
  lemma GreatestBelow(times: seq<real>, v: real, k: nat) returns (m: nat)
    requires k < |times| && times[k] < v
    ensures m < |times| && times[m] < v && forall j :: 0 <= j < |times| && times[j] < v ==> times[j] <= times[m]
  {
    m := k;
    for n := 0 to |times|
      invariant m < |times| && times[m] < v && forall j :: 0 <= j < n && times[j] < v ==> times[j] <= times[m]
    {
      if times[m] < times[n] < v { m := n; }
    }
  }

  lemma AnswersFind(times: seq<real>, y: real, at: nat)
    requires at < |times| && times[at] == y && forall v :: AnsweredRight(times, v)
    ensures FindsItself(times, y)
  {
    var i := InsertionLeft(times, y);
    assert AnsweredRight(times, y);
    assert Abs(times[NearestIndex(times, y)] - y) <= Abs(times[at] - y);
    forall k | 0 <= k < |times| && times[k] < y ensures 0 < i && times[k] <= times[i - 1] {
      var m := GreatestBelow(times, y, k);
      var step := (y - times[m]) / 4.0;
      var between := times[m] + step;
      assert forall j :: 0 <= j < |times| ==> times[j] < between || y <= times[j];
      SameInsertion(times, between, y);
      assert AnsweredRight(times, between);
      assert Abs(times[NearestIndex(times, between)] - between) <= Abs(times[m] - between);
    }
  }

  lemma AnswersEndHigh(times: seq<real>, k: nat)
    requires k < |times| && forall v :: AnsweredRight(times, v)
    ensures times[k] <= times[|times| - 1]
  {
    var m := Greatest(times);
    var beyond := times[m] + 1.0;
    assert InsertionLeft(times, beyond) == |times|;
    assert AnsweredRight(times, beyond);
    assert Abs(times[NearestIndex(times, beyond)] - beyond) <= Abs(times[m] - beyond);
  }

  lemma Greatest(times: seq<real>) returns (m: nat)
    requires times != []
    ensures m < |times| && forall j :: 0 <= j < |times| ==> times[j] <= times[m]
  {
    m := 0;
    for n := 0 to |times|
      invariant m < |times| && forall j :: 0 <= j < n ==> times[j] <= times[m]
    {
      if times[m] < times[n] { m := n; }
    }
  }

  lemma SortedIsSearchable(times: seq<real>)
    requires NonDecreasing(times)
    ensures Searchable(times)
  {
    forall k | 0 <= k < |times| ensures FindsItself(times, times[k]) {
      SortedFindsItself(times, k);
    }
  }

  lemma SortedFindsItself(times: seq<real>, k: nat)
    requires NonDecreasing(times) && k < |times|
    ensures FindsItself(times, times[k])
  {
    var i := InsertionLeft(times, times[k]);
    assert i <= k;
  }

  /** Of stamps that never repeat, exactly the sorted ones are searchable. */
  lemma SearchableMeansSorted(times: seq<real>)
    requires NeverTwice(times)
    ensures Searchable(times) <==> NonDecreasing(times)
  {
    if NonDecreasing(times) {
      SortedIsSearchable(times);
    } else {
      var i, j :| 0 <= i < j < |times| && times[i] > times[j];
      SwappedNotSearchable(times, i, j);
    }
  }

  lemma SwappedNotSearchable(times: seq<real>, i: nat, j: nat)
    requires NeverTwice(times) && i < j < |times| && times[i] > times[j]
    ensures !Searchable(times)
  {
    if Searchable(times) {
      OwnPlace(times, i);
      OwnPlace(times, j);
      InsertionMonotone(times, times[j], times[i]);
    }
  }

  lemma OwnPlace(times: seq<real>, k: nat)
    requires NeverTwice(times) && k < |times| && Searchable(times)
    ensures InsertionLeft(times, times[k]) == k
  {
    assert FindsItself(times, times[k]);
  }

  lemma ZeroIsFound(times: seq<real>)
    requires times == [0.0, 1.0, 0.0, 1.0]
    ensures InsertionLeft(times, 0.0) == 0
  {
    BisectRound(times, 0.0, 0, 2, 4);
    BisectRound(times, 0.0, 0, 1, 2);
    BisectRound(times, 0.0, 0, 0, 1);
  }

  lemma OneIsFound(times: seq<real>)
    requires times == [0.0, 1.0, 0.0, 1.0]
    ensures InsertionLeft(times, 1.0) == 3
  {
    BisectRound(times, 1.0, 0, 2, 4);
    BisectRound(times, 1.0, 3, 3, 4);
  }

  /** With a repeated stamp an unsorted sequence may still be searchable. */
  lemma UnsortedButSearchable(times: seq<real>)
    requires times == [0.0, 1.0, 0.0, 1.0]
    ensures Searchable(times) && !NonDecreasing(times)
  {
    ZeroIsFound(times);
    OneIsFound(times);
    assert FindsItself(times, 0.0) && FindsItself(times, 1.0);
    assert times[1] > times[2];
  }
}
