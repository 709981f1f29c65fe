/** Lists of measured values: their total and extremes. */
module Samples {
  function Total(vs: seq<real>): real {
    if vs == [] then 0.0 else Total(vs[..|vs| - 1]) + vs[|vs| - 1]
  }

  ghost predicate IsLeast(v: real, vs: seq<real>) {
    v in vs && forall i :: 0 <= i < |vs| ==> v <= vs[i]
  }

  ghost predicate IsGreatest(v: real, vs: seq<real>) {
    v in vs && forall i :: 0 <= i < |vs| ==> vs[i] <= v
  }

  /** Taking the smaller and the greater of the extremes and one more value gives the extremes with it. */
  lemma ExtremesGrow(vs: seq<real>, least: real, greatest: real, v: real)
    requires IsLeast(least, vs) && IsGreatest(greatest, vs)
    ensures IsLeast(if v < least then v else least, vs + [v])
    ensures IsGreatest(if v > greatest then v else greatest, vs + [v])
  {
    var more := vs + [v];
    assert more[|vs|] == v && forall x :: x in vs ==> x in more;
  }
}
