/** Strict separability of a set of integer directions.

    A finite set of directions `ds` in k-space is *feasible* when some point
    `p` lies strictly on the positive side of every one of them
    (`Dot(d, p) > 0` for each `d`). This is the compatibility test that a
    Feature applies to the gradient directions it accumulates. Because the
    inequality is strict, a zero direction and a pair of antipodal directions
    are never feasible.

    `Decide` computes the same answer by Fourier-Motzkin elimination of the
    first coordinate, and its contract states that the two agree on every input.
    `Refuted` is the converse tool used by the test scenarios: a non-negative,
    not-all-zero weighting of the directions that sums to the zero vector
    (a Gordan certificate) shows that no separating point exists. */
module Cones {

  /** Dot product of an integer direction with a real point. */
  function Dot(d: seq<int>, p: seq<real>): real
    requires |d| == |p|
    decreases |d|
  {
    if |d| == 0 then 0.0 else (d[0] as real) * p[0] + Dot(d[1..], p[1..])
  }

  /** Every direction in `ds` has `k` components. */
  predicate Dims(ds: seq<seq<int>>, k: nat)
  {
    forall d :: d in ds ==> |d| == k
  }

  /** `p` is strictly on the positive side of every direction in `ds`. */
  ghost predicate Separates(ds: seq<seq<int>>, p: seq<real>)
  {
    forall d :: d in ds ==> |d| == |p| && Dot(d, p) > 0.0
  }

  /** Some point of k-space separates `ds`. */
  ghost predicate Feasible(ds: seq<seq<int>>, k: nat)
  {
    exists p: seq<real> :: |p| == k && Separates(ds, p)
  }

  /** A separating point of the right dimension shows feasibility. */
  lemma {:induction false} Witness(ds: seq<seq<int>>, k: nat, p: seq<real>)
    requires |p| == k && Separates(ds, p)
    ensures Feasible(ds, k)
  {
  }

  /** The integer combination `a * u + b * v`, component by component. */
  function Lin(a: int, u: seq<int>, b: int, v: seq<int>): (r: seq<int>)
    requires |u| == |v|
    ensures |r| == |u|
    ensures forall i :: 0 <= i < |u| ==> r[i] == a * u[i] + b * v[i]
  {
    seq(|u|, i requires 0 <= i < |u| => a * u[i] + b * v[i])
  }

  /** The zero direction of k-space. */
  function Zeros(k: nat): (r: seq<int>)
    ensures |r| == k
    ensures forall j :: 0 <= j < k ==> r[j] == 0
  {
    if k == 0 then [] else [0] + Zeros(k - 1)
  }

  lemma {:induction false} DotLin(a: int, u: seq<int>, b: int, v: seq<int>, p: seq<real>)
    requires |u| == |v| == |p|
    ensures Dot(Lin(a, u, b, v), p) == (a as real) * Dot(u, p) + (b as real) * Dot(v, p)
  {
    var x := seq(|u|, i requires 0 <= i < |u| => a * u[i]);
    var y := seq(|v|, i requires 0 <= i < |v| => b * v[i]);
    DotSum(Lin(a, u, b, v), x, y, p);
    DotScale(x, a, u, p);
    DotScale(y, b, v, p);
  }

  /** `Dot` is additive in the direction. */
  lemma {:induction false} DotSum(w: seq<int>, x: seq<int>, y: seq<int>, p: seq<real>)
    requires |w| == |x| == |y| == |p|
    requires forall i :: 0 <= i < |w| ==> w[i] == x[i] + y[i]
    ensures Dot(w, p) == Dot(x, p) + Dot(y, p)
    decreases |w|
  {
    if |w| > 0 {
      DotSum(w[1..], x[1..], y[1..], p[1..]);
      assert (w[0] as real) * p[0] == (x[0] as real) * p[0] + (y[0] as real) * p[0];
    }
  }

  /** `Dot` is homogeneous in the direction. */
  lemma {:induction false} DotScale(w: seq<int>, a: int, u: seq<int>, p: seq<real>)
    requires |w| == |u| == |p|
    requires forall i :: 0 <= i < |w| ==> w[i] == a * u[i]
    ensures Dot(w, p) == (a as real) * Dot(u, p)
    decreases |w|
  {
    if |w| > 0 {
      DotScale(w[1..], a, u[1..], p[1..]);
      CastMul(a, u[0]);
      assert (w[0] as real) * p[0] == (a as real) * ((u[0] as real) * p[0]);
    }
  }

  lemma {:induction false} CastMul(a: int, x: int)
    ensures (a * x) as real == (a as real) * (x as real)
  {
  }

  lemma {:induction false} DotZeros(k: nat, p: seq<real>)
    requires |p| == k
    ensures Dot(Zeros(k), p) == 0.0
  {
    if k > 0 {
      assert Zeros(k)[1..] == Zeros(k - 1);
      DotZeros(k - 1, p[1..]);
    }
  }

  // ---------------------------------------------------------------------
  // Fourier-Motzkin elimination of the first coordinate

  /** The directions of `ds` whose first component is positive. */
  function Positive(ds: seq<seq<int>>): (r: seq<seq<int>>)
    requires forall d :: d in ds ==> |d| > 0
    ensures forall d :: d in r ==> d in ds
  {
    if ds == [] then []
    else (if ds[0][0] > 0 then [ds[0]] else []) + Positive(ds[1..])
  }

  /** The directions of `ds` whose first component is negative. */
  function Negative(ds: seq<seq<int>>): (r: seq<seq<int>>)
    requires forall d :: d in ds ==> |d| > 0
    ensures forall d :: d in r ==> d in ds
  {
    if ds == [] then []
    else (if ds[0][0] < 0 then [ds[0]] else []) + Negative(ds[1..])
  }

  /** The remaining components of the directions of `ds` whose first component is zero. */
  function ZeroTails(ds: seq<seq<int>>, k: nat): (r: seq<seq<int>>)
    requires k > 0 && Dims(ds, k)
    ensures Dims(r, k - 1)
  {
    if ds == [] then []
    else (if ds[0][0] == 0 then [ds[0][1..]] else []) + ZeroTails(ds[1..], k)
  }

  /** For `a` with a positive and `b` with a negative first component, the
      positive combination of the two whose first component cancels, without
      that component. */
  function Combine(a: seq<int>, b: seq<int>): (r: seq<int>)
    requires |a| == |b| > 0
    ensures |r| == |a| - 1
  {
    Lin(-b[0], a[1..], a[0], b[1..])
  }

  /** `Combine(a, b)` for every `b` of `ms`. */
  function Cross(a: seq<int>, ms: seq<seq<int>>): (r: seq<seq<int>>)
    requires |a| > 0 && Dims(ms, |a|)
    ensures Dims(r, |a| - 1)
  {
    if ms == [] then [] else [Combine(a, ms[0])] + Cross(a, ms[1..])
  }

  /** `Combine(a, b)` for every `a` of `ps` and every `b` of `ms`. */
  function Pairs(ps: seq<seq<int>>, ms: seq<seq<int>>, k: nat): (r: seq<seq<int>>)
    requires k > 0 && Dims(ps, k) && Dims(ms, k)
    ensures Dims(r, k - 1)
  {
    if ps == [] then [] else Cross(ps[0], ms) + Pairs(ps[1..], ms, k)
  }

  // Membership in the pieces of an elimination step

  lemma {:induction false} PositiveMembers(ds: seq<seq<int>>)
    requires forall d :: d in ds ==> |d| > 0
    ensures forall d :: d in Positive(ds) <==> d in ds && d[0] > 0
  {
    if ds != [] {
      PositiveMembers(ds[1..]);
    }
  }

  lemma {:induction false} NegativeMembers(ds: seq<seq<int>>)
    requires forall d :: d in ds ==> |d| > 0
    ensures forall d :: d in Negative(ds) <==> d in ds && d[0] < 0
  {
    if ds != [] {
      NegativeMembers(ds[1..]);
    }
  }

  lemma {:induction false} ZeroTailsMembers(ds: seq<seq<int>>, k: nat)
    requires k > 0 && Dims(ds, k)
    ensures forall d :: d in ds && d[0] == 0 ==> d[1..] in ZeroTails(ds, k)
    ensures forall t :: t in ZeroTails(ds, k) ==> exists d :: d in ds && d[0] == 0 && t == d[1..]
  {
    if ds != [] {
      ZeroTailsMembers(ds[1..], k);
    }
  }

  lemma {:induction false} CrossMembers(a: seq<int>, ms: seq<seq<int>>)
    requires |a| > 0 && Dims(ms, |a|)
    ensures forall b :: b in ms ==> Combine(a, b) in Cross(a, ms)
    ensures forall c :: c in Cross(a, ms) ==> exists b :: b in ms && c == Combine(a, b)
  {
    if ms != [] {
      CrossMembers(a, ms[1..]);
    }
  }

  lemma {:induction false} PairsMembers(ps: seq<seq<int>>, ms: seq<seq<int>>, k: nat)
    requires k > 0 && Dims(ps, k) && Dims(ms, k)
    ensures forall a, b :: a in ps && b in ms ==> Combine(a, b) in Pairs(ps, ms, k)
    ensures forall c :: c in Pairs(ps, ms, k) ==> exists a, b :: a in ps && b in ms && c == Combine(a, b)
  {
    if ps != [] {
      CrossMembers(ps[0], ms);
      PairsMembers(ps[1..], ms, k);
    }
  }

  /** The system in the last `k - 1` coordinates that is feasible exactly when `ds` is. */
  function Eliminate(ds: seq<seq<int>>, k: nat): (r: seq<seq<int>>)
    requires k > 0 && Dims(ds, k)
    ensures Dims(r, k - 1)
  {
    ZeroTails(ds, k) + Pairs(Positive(ds), Negative(ds), k)
  }

  // ---------------------------------------------------------------------
  // Correctness of the elimination step

  lemma {:induction false} MulPos(x: real, y: real)
    requires x > 0.0 && y > 0.0
    ensures x * y > 0.0
  {
  }

  /** A product with a positive factor is positive only if the other factor is. */
  lemma {:induction false} PosFactor(x: real, y: real)
    requires x > 0.0 && x * y > 0.0
    ensures y > 0.0
  {
  }

  /** The algebra behind `CombineSeparated`: the first coordinate cancels. */
  lemma {:induction false} CancelFirst(ra: real, rb: real, x: real, ta: real, tb: real)
    requires ra > 0.0 && rb < 0.0
    requires ra * x + ta > 0.0 && rb * x + tb > 0.0
    ensures (-rb) * ta + ra * tb > 0.0
  {
    assert (-rb) * ta + ra * tb == (-rb) * (ra * x + ta) + ra * (rb * x + tb);
    MulPos(-rb, ra * x + ta);
    MulPos(ra, rb * x + tb);
  }

  /** The dot product of a combined direction, by linearity. */
  lemma {:induction false} DotCombine(a: seq<int>, b: seq<int>, q: seq<real>)
    requires |a| == |b| == |q| + 1
    ensures Dot(Combine(a, b), q) == (-(b[0] as real)) * Dot(a[1..], q) + (a[0] as real) * Dot(b[1..], q)
  {
    DotLin(-b[0], a[1..], a[0], b[1..], q);
  }

  /** `Dot` with its first term split off. */
  lemma {:induction false} DotHead(d: seq<int>, p: seq<real>)
    requires |d| == |p| > 0
    ensures Dot(d, p) == (d[0] as real) * p[0] + Dot(d[1..], p[1..])
  {
  }

  lemma {:induction false} CombineSeparatedSplit(a: seq<int>, b: seq<int>, p: seq<real>)
    requires |a| == |b| == |p| > 0 && a[0] > 0 && b[0] < 0
    requires (a[0] as real) * p[0] + Dot(a[1..], p[1..]) > 0.0
    requires (b[0] as real) * p[0] + Dot(b[1..], p[1..]) > 0.0
    ensures Dot(Combine(a, b), p[1..]) > 0.0
  {
    CancelFirst(a[0] as real, b[0] as real, p[0], Dot(a[1..], p[1..]), Dot(b[1..], p[1..]));
    DotCombine(a, b, p[1..]);
  }

  /** A combined direction is positive at every point that separates both of its sources. */
  lemma {:induction false} CombineSeparated(a: seq<int>, b: seq<int>, p: seq<real>)
    requires |a| == |b| == |p| > 0 && a[0] > 0 && b[0] < 0
    requires Dot(a, p) > 0.0 && Dot(b, p) > 0.0
    ensures Dot(Combine(a, b), p[1..]) > 0.0
  {
    DotHead(a, p);
    DotHead(b, p);
    CombineSeparatedSplit(a, b, p);
  }

  lemma {:induction false} EliminateSound(ds: seq<seq<int>>, k: nat, p: seq<real>)
    requires k > 0 && Dims(ds, k) && |p| == k && Separates(ds, p)
    ensures Separates(Eliminate(ds, k), p[1..])
  {
    var q := p[1..];
    ZeroTailsMembers(ds, k);
    PositiveMembers(ds);
    NegativeMembers(ds);
    PairsMembers(Positive(ds), Negative(ds), k);
    forall c | c in Eliminate(ds, k)
      ensures |c| == |q| && Dot(c, q) > 0.0
    {
      if c in ZeroTails(ds, k) {
        var d :| d in ds && d[0] == 0 && c == d[1..];
        assert Dot(d, p) == (d[0] as real) * p[0] + Dot(c, q);
      } else {
        var a, b :| a in Positive(ds) && b in Negative(ds) && c == Combine(a, b);
        CombineSeparated(a, b, p);
      }
    }
  }

  /** The value of the first coordinate at which `d` changes sign, the last
      `k - 1` coordinates being `q`. */
  function Bound(d: seq<int>, q: seq<real>): real
    requires |d| == |q| + 1 && d[0] != 0
  {
    -Dot(d[1..], q) / (d[0] as real)
  }

  /** The largest bound of the directions of `ps`. */
  function MaxBound(ps: seq<seq<int>>, q: seq<real>): (r: real)
    requires ps != [] && forall d :: d in ps ==> |d| == |q| + 1 && d[0] != 0
    ensures forall d :: d in ps ==> Bound(d, q) <= r
    ensures exists d :: d in ps && r == Bound(d, q)
  {
    if |ps| == 1 then Bound(ps[0], q)
    else
      var m := MaxBound(ps[1..], q);
      if Bound(ps[0], q) >= m then Bound(ps[0], q) else m
  }

  /** The smallest bound of the directions of `ms`. */
  function MinBound(ms: seq<seq<int>>, q: seq<real>): (r: real)
    requires ms != [] && forall d :: d in ms ==> |d| == |q| + 1 && d[0] != 0
    ensures forall d :: d in ms ==> r <= Bound(d, q)
    ensures exists d :: d in ms && r == Bound(d, q)
  {
    if |ms| == 1 then Bound(ms[0], q)
    else
      var m := MinBound(ms[1..], q);
      if Bound(ms[0], q) <= m then Bound(ms[0], q) else m
  }

  /** `Bound` undoes the division by the first component. */
  lemma {:induction false} BoundScaled(d: seq<int>, q: seq<real>)
    requires |d| == |q| + 1 && d[0] != 0
    ensures (d[0] as real) * Bound(d, q) == -Dot(d[1..], q)
  {
  }

  /** The algebra behind `AboveBound` and `BelowBound`. */
  lemma {:induction false} SideOfBound(r: real, l: real, t: real, x: real)
    requires r * l == -t
    requires (r > 0.0 && x > l) || (r < 0.0 && x < l)
    ensures r * x + t > 0.0
  {
    assert r * x + t == r * (x - l);
    if r > 0.0 { MulPos(r, x - l); } else { MulPos(-r, l - x); }
  }

  /** Above its bound, a direction with a positive first component is positive. */
  lemma {:induction false} AboveBound(a: seq<int>, q: seq<real>, x: real)
    requires |a| == |q| + 1 && a[0] > 0 && x > Bound(a, q)
    ensures Dot(a, [x] + q) > 0.0
  {
    assert ([x] + q)[1..] == q;
    BoundScaled(a, q);
    SideOfBound(a[0] as real, Bound(a, q), Dot(a[1..], q), x);
  }

  /** Below its bound, a direction with a negative first component is positive. */
  lemma {:induction false} BelowBound(b: seq<int>, q: seq<real>, x: real)
    requires |b| == |q| + 1 && b[0] < 0 && x < Bound(b, q)
    ensures Dot(b, [x] + q) > 0.0
  {
    assert ([x] + q)[1..] == q;
    BoundScaled(b, q);
    SideOfBound(b[0] as real, Bound(b, q), Dot(b[1..], q), x);
  }

  /** The algebra behind `BoundsOrdered`. */
  lemma {:induction false} OrderedByProduct(ra: real, rb: real, la: real, lb: real, ta: real, tb: real)
    requires ra > 0.0 && rb < 0.0 && ra * la == -ta && rb * lb == -tb
    requires (-rb) * ta + ra * tb > 0.0
    ensures la < lb
  {
    assert (-rb) * ta + ra * tb == (ra * (-rb)) * (lb - la);
    MulPos(ra, -rb);
    PosFactor(ra * (-rb), lb - la);
  }

  /** A positive combination puts the bound of `a` strictly below that of `b`. */
  lemma {:induction false} BoundsOrdered(a: seq<int>, b: seq<int>, q: seq<real>)
    requires |a| == |b| == |q| + 1 && a[0] > 0 && b[0] < 0
    requires Dot(Combine(a, b), q) > 0.0
    ensures Bound(a, q) < Bound(b, q)
  {
    DotLin(-b[0], a[1..], a[0], b[1..], q);
    BoundScaled(a, q);
    BoundScaled(b, q);
    OrderedByProduct(a[0] as real, b[0] as real, Bound(a, q), Bound(b, q), Dot(a[1..], q), Dot(b[1..], q));
  }

  lemma {:induction false} EliminateComplete(ds: seq<seq<int>>, k: nat, q: seq<real>)
    requires k > 0 && Dims(ds, k) && |q| == k - 1
    requires Separates(Eliminate(ds, k), q)
    ensures Feasible(ds, k)
  {
    var ps, ms := Positive(ds), Negative(ds);
    ZeroTailsMembers(ds, k);
    PositiveMembers(ds);
    NegativeMembers(ds);
    PairsMembers(ps, ms, k);
    var x: real;
    if ps == [] && ms == [] {
      x := 0.0;
    } else if ps == [] {
      x := MinBound(ms, q) - 1.0;
    } else if ms == [] {
      x := MaxBound(ps, q) + 1.0;
    } else {
      var lo, hi := MaxBound(ps, q), MinBound(ms, q);
      var a :| a in ps && lo == Bound(a, q);
      var b :| b in ms && hi == Bound(b, q);
      assert Combine(a, b) in Eliminate(ds, k);
      BoundsOrdered(a, b, q);
      x := (lo + hi) / 2.0;
    }
    var p := [x] + q;
    forall d | d in ds
      ensures |d| == |p| && Dot(d, p) > 0.0
    {
      if d[0] > 0 {
        assert d in ps;
        AboveBound(d, q, x);
      } else if d[0] < 0 {
        assert d in ms;
        BelowBound(d, q, x);
      } else {
        assert d[1..] in Eliminate(ds, k);
        assert p[1..] == q;
      }
    }
    Witness(ds, k, p);
  }

  /** With no coordinate left, only the empty system is feasible. */
  lemma {:induction false} NoCoordinates(ds: seq<seq<int>>)
    requires Dims(ds, 0)
    ensures Feasible(ds, 0) == (ds == [])
  {
    if ds == [] {
      Witness(ds, 0, []);
    } else {
      forall p: seq<real> | |p| == 0
        ensures !Separates(ds, p)
      {
        assert ds[0] in ds && Dot(ds[0], p) == 0.0;
      }
    }
  }

  /** One elimination step preserves feasibility, in both directions. */
  lemma {:induction false} EliminateExact(ds: seq<seq<int>>, k: nat)
    requires k > 0 && Dims(ds, k)
    ensures Feasible(Eliminate(ds, k), k - 1) == Feasible(ds, k)
  {
    var es := Eliminate(ds, k);
    if Feasible(ds, k) {
      var p :| |p| == k && Separates(ds, p);
      EliminateSound(ds, k, p);
      Witness(es, k - 1, p[1..]);
    }
    if Feasible(es, k - 1) {
      var q :| |q| == k - 1 && Separates(es, q);
      EliminateComplete(ds, k, q);
    }
  }

  /** Decides `Feasible(ds, k)` by eliminating one coordinate at a time; with
      no coordinate left, only the empty system is feasible. */
  function Decide(ds: seq<seq<int>>, k: nat): (r: bool)
    requires Dims(ds, k)
    ensures r == Feasible(ds, k)
    decreases k
  {
    if k == 0 then
      NoCoordinates(ds);
      ds == []
    else
      EliminateExact(ds, k);
      Decide(Eliminate(ds, k), k - 1)
  }

  // ---------------------------------------------------------------------
  // Certificates of infeasibility

  /** The weighted sum of the directions of `ds`, the weights being `ws`. */
  function Combination(ds: seq<seq<int>>, ws: seq<nat>, k: nat): (r: seq<int>)
    requires |ws| == |ds| && Dims(ds, k)
    ensures |r| == k
  {
    if ds == [] then Zeros(k) else Lin(ws[0], ds[0], 1, Combination(ds[1..], ws[1..], k))
  }

  lemma {:induction false} DotAdd(a: int, u: seq<int>, v: seq<int>, p: seq<real>, c: seq<int>)
    requires |u| == |v| == |p| && c == Lin(a, u, 1, v)
    ensures Dot(c, p) == (a as real) * Dot(u, p) + Dot(v, p)
  {
    DotLin(a, u, 1, v, p);
  }

  /** The dot product of a weighted sum splits off its first term. */
  lemma {:induction false} CombinationHead(ds: seq<seq<int>>, ws: seq<nat>, k: nat, p: seq<real>)
    requires |ws| == |ds| > 0 && Dims(ds, k) && |p| == k
    ensures Dot(Combination(ds, ws, k), p)
         == (ws[0] as real) * Dot(ds[0], p) + Dot(Combination(ds[1..], ws[1..], k), p)
  {
    CombinationUnfold(ds, ws, k);
    DotAdd(ws[0], ds[0], Combination(ds[1..], ws[1..], k), p, Combination(ds, ws, k));
  }

  lemma {:induction false} CombinationUnfold(ds: seq<seq<int>>, ws: seq<nat>, k: nat)
    requires |ws| == |ds| > 0 && Dims(ds, k)
    ensures |ds[0]| == k && Dims(ds[1..], k)
    ensures Combination(ds, ws, k) == Lin(ws[0], ds[0], 1, Combination(ds[1..], ws[1..], k))
  {
    assert ds[0] in ds;
  }

  /** Removing the first direction keeps the rest separated. */
  lemma {:induction false} SeparatesTail(ds: seq<seq<int>>, p: seq<real>)
    requires |ds| > 0 && Separates(ds, p)
    ensures Separates(ds[1..], p) && Dot(ds[0], p) > 0.0
  {
    assert ds[0] in ds;
    assert forall d :: d in ds[1..] ==> d in ds;
  }

  /** At a separating point the weighted sum is non-negative. */
  lemma {:induction false} CombinationNonNegative(ds: seq<seq<int>>, ws: seq<nat>, k: nat, p: seq<real>)
    requires |ws| == |ds| && Dims(ds, k) && |p| == k && Separates(ds, p)
    ensures Dot(Combination(ds, ws, k), p) >= 0.0
  {
    if ds == [] {
      DotZeros(k, p);
    } else {
      SeparatesTail(ds, p);
      CombinationNonNegative(ds[1..], ws[1..], k, p);
      CombinationHead(ds, ws, k, p);
      if ws[0] > 0 {
        MulPos(ws[0] as real, Dot(ds[0], p));
      }
    }
  }

  /** At a separating point the weighted sum is positive once the weight at
      `i` is. */
  lemma {:induction false} CombinationPositive(ds: seq<seq<int>>, ws: seq<nat>, k: nat, p: seq<real>, i: nat)
    requires |ws| == |ds| && Dims(ds, k) && |p| == k && Separates(ds, p)
    requires i < |ws| && ws[i] > 0
    ensures Dot(Combination(ds, ws, k), p) > 0.0
  {
    SeparatesTail(ds, p);
    CombinationHead(ds, ws, k, p);
    if i == 0 {
      MulPos(ws[0] as real, Dot(ds[0], p));
      CombinationNonNegative(ds[1..], ws[1..], k, p);
    } else {
      CombinationPositive(ds[1..], ws[1..], k, p, i - 1);
      if ws[0] > 0 {
        MulPos(ws[0] as real, Dot(ds[0], p));
      }
    }
  }

  /** Gordan's certificate: non-negative weights, not all zero, under which
      the directions sum to zero rule out every separating point. */
  lemma {:induction false} Refuted(ds: seq<seq<int>>, ws: seq<nat>, k: nat)
    requires |ws| == |ds| && Dims(ds, k)
    requires exists i :: 0 <= i < |ws| && ws[i] > 0
    requires Combination(ds, ws, k) == Zeros(k)
    ensures !Feasible(ds, k)
  {
    if Feasible(ds, k) {
      var p :| |p| == k && Separates(ds, p);
      var i :| 0 <= i < |ws| && ws[i] > 0;
      CombinationPositive(ds, ws, k, p, i);
      DotZeros(k, p);
    }
  }
}
