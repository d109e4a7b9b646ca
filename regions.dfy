/*
  An axis-aligned cell of a quadtree (N = 2) or octree (N = 3): its lower
  and upper corners on the N explicit axes, and the fixed coordinates
  `perp` of the 3 - N axes the tree does not subdivide.  The Region type
  itself is not part of the modelled source; its embedding into 3-space,
  centre and subdivision follow the documented behaviour.
*/
module Regions {
  import opened Grid

  datatype Region = Region(lower: seq<real>, upper: seq<real>, perp: seq<real>)

  /** A region of an N-dimensional tree: both corners have N coordinates and
      the 3 - N remaining ones are fixed by `perp`. */
  predicate Shaped(r: Region, N: nat)
  {
    N <= 3 && |r.lower| == N && |r.upper| == N && |r.perp| == 3 - N
  }

  /** The corners as 3-space points, the form the evaluator works in. */
  function Lower3(r: Region): (p: seq<real>)
    ensures |p| == |r.lower| + |r.perp|
    ensures p[..|r.lower|] == r.lower && p[|r.lower|..] == r.perp
  {
    r.lower + r.perp
  }

  function Upper3(r: Region): (p: seq<real>)
    ensures |p| == |r.upper| + |r.perp|
    ensures p[..|r.upper|] == r.upper && p[|r.upper|..] == r.perp
  {
    r.upper + r.perp
  }

  function Mid(a: real, b: real): real
  {
    (a + b) / 2.0
  }

  /** The centre of the region on its N axes, halfway between the corners. */
  function Center(r: Region): (c: seq<real>)
    requires |r.lower| == |r.upper|
    ensures |c| == |r.lower|
    ensures forall j :: 0 <= j < |c| ==> c[j] - r.lower[j] == r.upper[j] - c[j]
  {
    seq(|r.lower|, j requires 0 <= j < |r.lower| => Mid(r.lower[j], r.upper[j]))
  }

  /** Whether child `i` takes the upper half on axis `j`: bit `j` of `i`. */
  predicate UpperHalf(i: nat, j: nat)
  {
    Digit(i, 2, j) == 1
  }

  /** Child `i` of the region: on every axis `j`, the upper half when bit `j`
      of `i` is set and the lower half otherwise. */
  function Child(r: Region, i: nat): (c: Region)
    requires |r.lower| == |r.upper|
    ensures |c.lower| == |c.upper| == |r.lower| && c.perp == r.perp
  {
    var n := |r.lower|;
    Region(
      seq(n, j requires 0 <= j < n =>
        if UpperHalf(i, j) then Mid(r.lower[j], r.upper[j]) else r.lower[j]),
      seq(n, j requires 0 <= j < n =>
        if UpperHalf(i, j) then r.upper[j] else Mid(r.lower[j], r.upper[j])),
      r.perp)
  }

  /** The 2^N children, in child-index order. */
  function Subdivide(r: Region): (rs: seq<Region>)
    requires |r.lower| == |r.upper|
    ensures |rs| == Pow(2, |r.lower|)
    ensures forall i :: 0 <= i < |rs| ==> rs[i] == Child(r, i)
  {
    seq(Pow(2, |r.lower|), i requires 0 <= i => Child(r, i))
  }

  /** The closed box of the region holds `x` on its N axes. */
  predicate Contains(r: Region, x: seq<real>)
    requires |r.lower| == |r.upper|
  {
    |x| == |r.lower| &&
    forall j :: 0 <= j < |x| ==> r.lower[j] <= x[j] <= r.upper[j]
  }

  /** Every child lies inside its parent. */
  lemma ChildInside(r: Region, i: nat, x: seq<real>)
    requires |r.lower| == |r.upper|
    requires forall j :: 0 <= j < |r.lower| ==> r.lower[j] <= r.upper[j]
    requires Contains(Child(r, i), x)
    ensures Contains(r, x)
  {
  }

  /** Distinct children meet only on faces: a point in both lies on the
      midplane of an axis on which their indices differ. */
  lemma ChildrenMeetOnFaces(r: Region, i: nat, k: nat, x: seq<real>)
    requires |r.lower| == |r.upper|
    requires i < Pow(2, |r.lower|) && k < Pow(2, |r.lower|) && i != k
    requires Contains(Child(r, i), x) && Contains(Child(r, k), x)
    ensures exists j :: 0 <= j < |x| && x[j] == Mid(r.lower[j], r.upper[j])
  {
    var n := |r.lower|;
    var di, dk := Digits(i, 2, n), Digits(k, 2, n);
    DigitsInjective(i, k, 2, n);
    assert di != dk;
    var j :| 0 <= j < n && di[j] != dk[j];
    assert UpperHalf(i, j) != UpperHalf(k, j);
    assert x[j] == Mid(r.lower[j], r.upper[j]);
  }

  /** The children cover their parent: a point of the region lies in the
      child whose index has bit `j` set exactly when the point is in the
      upper half of axis `j`. */
  lemma SubdivideCovers(r: Region, x: seq<real>) returns (i: nat)
    requires |r.lower| == |r.upper| && Contains(r, x)
    ensures i < Pow(2, |r.lower|) && Contains(Subdivide(r)[i], x)
  {
    var n := |r.lower|;
    var bits := seq(n, j requires 0 <= j < n =>
      if x[j] >= Mid(r.lower[j], r.upper[j]) then 1 else 0);
    DigitsOfValue(bits, 2);
    i := Value(bits, 2);
    assert forall j :: 0 <= j < n ==> Digit(i, 2, j) == Digits(i, 2, n)[j] == bits[j];
  }
}
