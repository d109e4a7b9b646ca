/*
  A Feature: the gradient directions observed at (about) one point of the
  surface, accumulated one at a time.  The set stays consistent with a single
  smooth sheet: some direction p lies strictly on the positive side of every
  stored direction.  Directions are integer 3-vectors, so the feasibility
  test is exact.
*/
module Features {
  import opened Cones

  /** `e` is the exact opposite of `d`. */
  predicate Opposite(d: seq<int>, e: seq<int>)
  {
    |e| == |d| && forall i :: 0 <= i < |d| ==> e[i] == -d[i]
  }

  lemma {:induction false} DotOpposite(d: seq<int>, e: seq<int>, p: seq<real>)
    requires Opposite(d, e) && |d| == |p|
    ensures Dot(e, p) == -Dot(d, p)
  {
    if |d| > 0 {
      assert Opposite(d[1..], e[1..]);
      DotOpposite(d[1..], e[1..], p[1..]);
      assert (e[0] as real) * p[0] == -((d[0] as real) * p[0]);
    }
  }

  /** The zero direction is on the positive side of no point, so no system
      holding it is feasible. */
  lemma {:induction false} ZeroInfeasible(ds: seq<seq<int>>, k: nat)
    requires Zeros(k) in ds
    ensures !Feasible(ds, k)
  {
    if Feasible(ds, k) {
      var p :| |p| == k && Separates(ds, p);
      DotZeros(k, p);
    }
  }

  /** No point is on the positive side of both a direction of `ds` and its
      opposite. */
  lemma {:induction false} AntipodalInfeasible(ds: seq<seq<int>>, d: seq<int>, e: seq<int>, k: nat)
    requires d in ds && e in ds && Opposite(d, e)
    ensures !Feasible(ds, k)
  {
    if Feasible(ds, k) {
      var p :| |p| == k && Separates(ds, p);
      DotOpposite(d, e, p);
    }
  }

  /** Feasibility is inherited by every system whose directions all occur in
      a feasible one. */
  lemma {:induction false} FeasibleSubset(ds: seq<seq<int>>, es: seq<seq<int>>, k: nat)
    requires forall d :: d in ds ==> d in es
    requires Feasible(es, k)
    ensures Feasible(ds, k)
  {
    var p :| |p| == k && Separates(es, p);
    Witness(ds, k, p);
  }

  /** Adding a direction that is already held changes nothing about
      feasibility. */
  lemma {:induction false} RepeatFeasible(ds: seq<seq<int>>, d: seq<int>, k: nat)
    requires d in ds
    ensures Feasible(ds + [d], k) == Feasible(ds, k)
  {
    if Feasible(ds, k) {
      FeasibleSubset(ds + [d], ds, k);
    }
    if Feasible(ds + [d], k) {
      FeasibleSubset(ds, ds + [d], k);
    }
  }

  class Feature {
    /** The point the Feature is attached to; it plays no part in the
        separability test. */
    const vertex: seq<real>
    /** The directions accepted so far, in order. */
    var dirs: seq<seq<int>>

    /** Every held direction is a 3-vector and together they are feasible. */
    ghost predicate Valid()
      reads this
    {
      Dims(dirs, 3) && Feasible(dirs, 3)
    }

    constructor(vertex: seq<real>)
      ensures this.vertex == vertex && dirs == []
      ensures Valid()
    {
      this.vertex := vertex;
      dirs := [];
      new;
      Witness([], 3, [0.0, 0.0, 0.0]);
    }

    /** Whether `d` could be pushed; stores nothing. */
    function Check(d: seq<int>): (r: bool)
      reads this
      requires Dims(dirs, 3) && |d| == 3
      ensures r == Feasible(dirs + [d], 3)
    {
      Decide(dirs + [d], 3)
    }

    /** Whether this Feature and `other` are compatible: some point
        separates the directions of both. */
    function CheckFeature(other: Feature): (r: bool)
      reads this, other
      requires Dims(dirs, 3) && Dims(other.dirs, 3)
      ensures r == Feasible(dirs + other.dirs, 3)
    {
      Decide(dirs + other.dirs, 3)
    }

    /** Adds `d` when the directions stay feasible with it, and reports
        whether it did; a rejected direction leaves the Feature as it was. */
    method Push(d: seq<int>) returns (ok: bool)
      modifies this
      requires Valid() && |d| == 3
      ensures Valid()
      ensures ok == Feasible(old(dirs) + [d], 3)
      ensures dirs == if ok then old(dirs) + [d] else old(dirs)
    {
      ok := Check(d);
      if ok {
        dirs := dirs + [d];
      }
    }
  }
}
