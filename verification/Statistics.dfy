/** Sum, mean and extremes of a list of reals. */
module Statistics {

  function Sum(xs: seq<real>): real { if xs == [] then 0.0 else xs[0] + Sum(xs[1..]) }

  function Mean(xs: seq<real>): real
    requires xs != []
  {
    Sum(xs) / |xs| as real
  }

  function Min(xs: seq<real>): real
    requires xs != []
  {
    if |xs| == 1 then xs[0] else if xs[0] < Min(xs[1..]) then xs[0] else Min(xs[1..])
  }

  function Max(xs: seq<real>): real
    requires xs != []
  {
    if |xs| == 1 then xs[0] else if xs[0] > Max(xs[1..]) then xs[0] else Max(xs[1..])
  }

  lemma {:induction false} ExtremesBound(xs: seq<real>)
    requires xs != []
    ensures Min(xs) in xs && Max(xs) in xs && forall x :: x in xs ==> Min(xs) <= x <= Max(xs)
  {
    if |xs| > 1 {
      ExtremesBound(xs[1..]);
      assert xs == [xs[0]] + xs[1..];
    }
  }
}
