/*
  The scenarios that pin down the behaviour of a Feature, each replayed on a
  fresh Feature and proved: an accepted push by a separating point, a
  rejected one by an antipodal pair, the zero direction, or non-negative
  weights under which the directions sum to zero (Gordan's certificate).
*/
module FeatureTests {
  import opened Cones
  import opened Features

  /** The Feature's own point; every scenario uses the origin. */
  const Origin: seq<real> := [0.0, 0.0, 0.0]

  /** The dot product of two 3-vectors, written out. */
  lemma {:induction false} Dot3(d: seq<int>, p: seq<real>)
    requires |d| == |p| == 3
    ensures Dot(d, p) == (d[0] as real) * p[0] + (d[1] as real) * p[1] + (d[2] as real) * p[2]
  {
    assert Dot(d[2..], p[2..]) == (d[2] as real) * p[2] + Dot(d[3..], p[3..]);
    assert d[1..][1..] == d[2..] && p[1..][1..] == p[2..];
  }

  /** A point that separates `ds` and is strictly positive on `d`, checked
      coordinate by coordinate, separates `ds + [d]`, which is therefore
      feasible. */
  lemma {:induction false} SeparatedPush(ds: seq<seq<int>>, d: seq<int>, p: seq<real>)
    requires |p| == 3 && |d| == 3 && Separates(ds, p)
    requires (d[0] as real) * p[0] + (d[1] as real) * p[1] + (d[2] as real) * p[2] > 0.0
    ensures Separates(ds + [d], p) && Feasible(ds + [d], 3)
  {
    Dot3(d, p);
    Witness(ds + [d], 3, p);
  }

  /** Two 3-vectors are opposite when their coordinates are. */
  lemma {:induction false} Opposite3(d: seq<int>, e: seq<int>)
    requires |d| == |e| == 3 && e[0] == -d[0] && e[1] == -d[1] && e[2] == -d[2]
    ensures Opposite(d, e)
  {
  }

  /** A combination of two 3-vectors, written out. */
  lemma {:induction false} Lin3(a: int, u: seq<int>, b: int, v: seq<int>)
    requires |u| == |v| == 3
    ensures Lin(a, u, b, v) == [a * u[0] + b * v[0], a * u[1] + b * v[1], a * u[2] + b * v[2]]
  {
  }

  /** Adding one weighted direction in front of a weighted sum. */
  lemma {:induction false} CombinationPrepend(d: seq<int>, ds: seq<seq<int>>, w: nat, ws: seq<nat>,
                                              x: int, y: int, z: int)
    requires |d| == 3 && |ws| == |ds| && Dims(ds, 3) && Combination(ds, ws, 3) == [x, y, z]
    ensures Dims([d] + ds, 3)
    ensures Combination([d] + ds, [w] + ws, 3) == [w * d[0] + x, w * d[1] + y, w * d[2] + z]
  {
    var es := [d] + ds;
    assert es[1..] == ds && ([w] + ws)[1..] == ws;
    CombinationUnfold(es, [w] + ws, 3);
    Lin3(w, d, 1, [x, y, z]);
  }

  /** The weighted sums of one to four directions of 3-space, written out
      coordinate by coordinate. */
  lemma {:induction false} Combination1(d: seq<int>, wd: nat)
    requires |d| == 3
    ensures Dims([d], 3)
    ensures Combination([d], [wd], 3) == [wd * d[0] + 0, wd * d[1] + 0, wd * d[2] + 0]
  {
    var none: seq<seq<int>> := [];
    var nw: seq<nat> := [];
    assert Combination(none, nw, 3) == [0, 0, 0];
    CombinationPrepend(d, none, wd, nw, 0, 0, 0);
    assert [d] + none == [d] && [wd] + nw == [wd];
  }

  lemma {:induction false} Combination2(c: seq<int>, d: seq<int>, wc: nat, wd: nat)
    requires |c| == |d| == 3
    ensures Dims([c] + [d], 3)
    ensures Combination([c] + [d], [wc] + [wd], 3)
         == [wc * c[0] + (wd * d[0] + 0), wc * c[1] + (wd * d[1] + 0), wc * c[2] + (wd * d[2] + 0)]
  {
    Combination1(d, wd);
    CombinationPrepend(c, [d], wc, [wd], wd * d[0] + 0, wd * d[1] + 0, wd * d[2] + 0);
  }

  lemma {:induction false} Combination3(b: seq<int>, c: seq<int>, d: seq<int>, wb: nat, wc: nat, wd: nat)
    requires |b| == |c| == |d| == 3
    ensures Dims([b] + ([c] + [d]), 3)
    ensures Combination([b] + ([c] + [d]), [wb] + ([wc] + [wd]), 3)
         == [wb * b[0] + (wc * c[0] + (wd * d[0] + 0)),
             wb * b[1] + (wc * c[1] + (wd * d[1] + 0)),
             wb * b[2] + (wc * c[2] + (wd * d[2] + 0))]
  {
    Combination2(c, d, wc, wd);
    CombinationPrepend(b, [c] + [d], wb, [wc] + [wd],
                       wc * c[0] + (wd * d[0] + 0), wc * c[1] + (wd * d[1] + 0), wc * c[2] + (wd * d[2] + 0));
  }

  lemma {:induction false} Combination4(a: seq<int>, b: seq<int>, c: seq<int>, d: seq<int>,
                                        wa: nat, wb: nat, wc: nat, wd: nat)
    requires |a| == |b| == |c| == |d| == 3
    ensures Dims([a] + ([b] + ([c] + [d])), 3)
    ensures Combination([a] + ([b] + ([c] + [d])), [wa] + ([wb] + ([wc] + [wd])), 3)
         == [wa * a[0] + (wb * b[0] + (wc * c[0] + (wd * d[0] + 0))),
             wa * a[1] + (wb * b[1] + (wc * c[1] + (wd * d[1] + 0))),
             wa * a[2] + (wb * b[2] + (wc * c[2] + (wd * d[2] + 0)))]
  {
    Combination3(b, c, d, wb, wc, wd);
    CombinationPrepend(a, [b] + ([c] + [d]), wa, [wb] + ([wc] + [wd]),
                       wb * b[0] + (wc * c[0] + (wd * d[0] + 0)),
                       wb * b[1] + (wc * c[1] + (wd * d[1] + 0)),
                       wb * b[2] + (wc * c[2] + (wd * d[2] + 0)));
  }

  /** Gordan's certificate for four directions of 3-space: weights, the
      first positive, under which the directions sum to zero. */
  lemma {:induction false} Refuted4(a: seq<int>, b: seq<int>, c: seq<int>, d: seq<int>,
                                    wa: nat, wb: nat, wc: nat, wd: nat)
    requires |a| == |b| == |c| == |d| == 3 && wa > 0
    requires wa * a[0] + wb * b[0] + wc * c[0] + wd * d[0] == 0
    requires wa * a[1] + wb * b[1] + wc * c[1] + wd * d[1] == 0
    requires wa * a[2] + wb * b[2] + wc * c[2] + wd * d[2] == 0
    ensures !Feasible([a] + ([b] + ([c] + [d])), 3)
  {
    Combination4(a, b, c, d, wa, wb, wc, wd);
    var ws := [wa] + ([wb] + ([wc] + [wd]));
    assert ws[0] > 0;
    assert Zeros(3) == [0, 0, 0];
    Refuted([a] + ([b] + ([c] + [d])), ws, 3);
  }

  /** Gordan's certificate for four of the directions of `ds`. */
  lemma {:induction false} RefutedIn(ds: seq<seq<int>>, a: seq<int>, b: seq<int>, c: seq<int>, d: seq<int>,
                                     wa: nat, wb: nat, wc: nat, wd: nat)
    requires a in ds && b in ds && c in ds && d in ds
    requires |a| == |b| == |c| == |d| == 3 && wa > 0
    requires wa * a[0] + wb * b[0] + wc * c[0] + wd * d[0] == 0
    requires wa * a[1] + wb * b[1] + wc * c[1] + wd * d[1] == 0
    requires wa * a[2] + wb * b[2] + wc * c[2] + wd * d[2] == 0
    ensures !Feasible(ds, 3)
  {
    Refuted4(a, b, c, d, wa, wb, wc, wd);
    if Feasible(ds, 3) {
      FeasibleSubset([a] + ([b] + ([c] + [d])), ds, 3);
    }
  }

  /** The zero direction is refused by a fresh Feature. */
  method PushZero() returns (r: bool)
    ensures !r
  {
    var f := new Feature(Origin);
    assert Zeros(3) == [0, 0, 0];
    ZeroInfeasible(f.dirs + [[0, 0, 0]], 3);
    r := f.Push([0, 0, 0]);
  }

  /** A direction is accepted and its exact opposite then refused. */
  method Antipodal() returns (r: seq<bool>)
    ensures r == [true, false]
  {
    var f := new Feature(Origin);
    SeparatedPush(f.dirs, [1, 0, 0], [1.0, 0.0, 0.0]);
    var a := f.Push([1, 0, 0]);
    Opposite3([1, 0, 0], [-1, 0, 0]);
    AntipodalInfeasible(f.dirs + [[-1, 0, 0]], [1, 0, 0], [-1, 0, 0], 3);
    var b := f.Push([-1, 0, 0]);
    r := [a, b];
  }

  /** The three axes and the diagonal share the positive octant; the
      opposite diagonal is then refused. */
  method SeparableOctant() returns (r: seq<bool>)
    ensures r == [true, true, true, true, false]
  {
    var f := new Feature(Origin);
    var p := [1.0, 1.0, 1.0];
    SeparatedPush(f.dirs, [1, 0, 0], p);
    var a := f.Push([1, 0, 0]);
    SeparatedPush(f.dirs, [0, 1, 0], p);
    var b := f.Push([0, 1, 0]);
    SeparatedPush(f.dirs, [0, 0, 1], p);
    var c := f.Push([0, 0, 1]);
    SeparatedPush(f.dirs, [1, 1, 1], p);
    var d := f.Push([1, 1, 1]);
    Opposite3([1, 1, 1], [-1, -1, -1]);
    AntipodalInfeasible(f.dirs + [[-1, -1, -1]], [1, 1, 1], [-1, -1, -1], 3);
    var e := f.Push([-1, -1, -1]);
    r := [a, b, c, d, e];
  }

  /** Repeated directions are accepted again, a refused direction leaves
      the Feature unchanged, and a direction compatible with what is
      actually held is still accepted afterwards. */
  method SeparableRepeated() returns (r: seq<bool>)
    ensures r == [true, true, true, true, true, false, true]
  {
    var f := new Feature(Origin);
    var p := [1.0, -1.0, -1.0];
    SeparatedPush(f.dirs, [1, 0, 0], p);
    var a := f.Push([1, 0, 0]);
    SeparatedPush(f.dirs, [0, -1, 0], p);
    var b := f.Push([0, -1, 0]);
    SeparatedPush(f.dirs, [0, 0, -1], p);
    var c := f.Push([0, 0, -1]);
    SeparatedPush(f.dirs, [0, 0, -1], p);
    var d := f.Push([0, 0, -1]);
    SeparatedPush(f.dirs, [0, -1, 0], p);
    var e := f.Push([0, -1, 0]);
    var held := f.dirs;
    RefutedIn(held + [[-1, 1, 1]], [1, 0, 0], [0, -1, 0], [0, 0, -1], [-1, 1, 1], 1, 1, 1, 1);
    var g := f.Push([-1, 1, 1]);
    assert f.dirs == held;
    SeparatedPush(f.dirs, [1, -1, -1], p);
    var h := f.Push([1, -1, -1]);
    r := [a, b, c, d, e, g, h];
  }

  /** Directions 90 degrees apart around one axis, and one of them again,
      are all accepted (the exact form of the near-parallel case). */
  method NearParallel() returns (r: seq<bool>)
    ensures r == [true, true, true]
  {
    var f := new Feature(Origin);
    var p := [1.0, 0.0, 0.0];
    SeparatedPush(f.dirs, [1, 0, -1], p);
    var a := f.Push([1, 0, -1]);
    SeparatedPush(f.dirs, [1, 0, 1], p);
    var b := f.Push([1, 0, 1]);
    RepeatFeasible(f.dirs, [1, 0, -1], 3);
    var c := f.Push([1, 0, -1]);
    r := [a, b, c];
  }

  /** Checking stores nothing: after a direction and its opposite both
      check compatible, one of them can still be pushed, after which the
      other no longer checks. */
  method FlatPlane() returns (r: seq<bool>)
    ensures r == [true, true, true, true, true, false]
  {
    var f := new Feature(Origin);
    var below := [-2.0, -1.0, 0.0];
    var above := [-2.0, 1.0, 0.0];
    SeparatedPush(f.dirs, [-1, 1, 0], above);
    SeparatedPush(f.dirs, [-1, 1, 0], below);
    var a := f.Push([-1, 1, 0]);
    SeparatedPush(f.dirs, [-1, -1, 0], above);
    SeparatedPush(f.dirs, [-1, -1, 0], below);
    var b := f.Push([-1, -1, 0]);
    SeparatedPush(f.dirs, [0, -1, 0], below);
    var c := f.Check([0, -1, 0]);
    SeparatedPush(f.dirs, [0, 1, 0], above);
    var d := f.Check([0, 1, 0]);
    var e := f.Push([0, 1, 0]);
    Opposite3([0, 1, 0], [0, -1, 0]);
    AntipodalInfeasible(f.dirs + [[0, -1, 0]], [0, 1, 0], [0, -1, 0], 3);
    var g := f.Check([0, -1, 0]);
    r := [a, b, c, d, e, g];
  }

  /** A fresh Feature into which `d` and then `e` are pushed, both accepted
      because `p` is strictly on the positive side of each. */
  method PushedPair(d: seq<int>, e: seq<int>, p: seq<real>) returns (f: Feature, a: bool, b: bool)
    requires |d| == |e| == |p| == 3
    requires (d[0] as real) * p[0] + (d[1] as real) * p[1] + (d[2] as real) * p[2] > 0.0
    requires (e[0] as real) * p[0] + (e[1] as real) * p[1] + (e[2] as real) * p[2] > 0.0
    ensures fresh(f) && f.Valid() && f.dirs == [d, e]
    ensures a && b
  {
    f := new Feature(Origin);
    SeparatedPush(f.dirs, d, p);
    a := f.Push(d);
    SeparatedPush(f.dirs, e, p);
    b := f.Push(e);
  }

  /** Two Features, each feasible on its own, whose four directions
      together enclose the origin: 4*(0,0,1) + 2*(1,0,-1) + (-1,1,-1) +
      (-1,-1,-1) = 0. */
  method Tetrahedron() returns (r: seq<bool>)
    ensures r == [true, true, true, true, false]
  {
    var f, a, b := PushedPair([0, 0, 1], [1, 0, -1], [1.0, 0.0, 0.5]);
    var g, c, d := PushedPair([-1, 1, -1], [-1, -1, -1], [-1.0, 0.0, 0.0]);
    RefutedIn(f.dirs + g.dirs, [0, 0, 1], [1, 0, -1], [-1, 1, -1], [-1, -1, -1], 4, 2, 1, 1);
    var e := f.CheckFeature(g);
    r := [a, b, c, d, e];
  }
}
