/*
  One node of the adaptive tree and how it is built.  Construction
  evaluates the function over the node's region and pushes an evaluator
  context, tries to fit a single vertex from an interior R^N sample grid,
  subdivides into 2^N children (one per non-empty sub-region) only when the
  fit is refused, and pops the context again.

  The least-squares solve is a parameter `solve`, whether a fit is
  accepted is a parameter `accept` applied to its residual, and whether a
  sub-region is empty is a parameter `isEmpty`.  The original accepts every
  fit; with `accept` always true, `fitted` holds and, by `Slot`, no child is
  built, so every node is a leaf.
*/
module XTrees {
  import opened Grid
  import opened Regions
  import opened Evaluators
  import opened Qef

  /** A least-squares solver: the solution of `A x ~ b`. */
  type Solver = (seq<seq<real>>, seq<real>) -> seq<real>

  /** The solver returns one unknown per column: N coordinates and a level. */
  ghost predicate SolverShape(solve: Solver, N: nat)
  {
    forall A, b :: |solve(A, b)| == N + 1
  }

  /** The position of sample `i` on the region's N axes: on axis `j`, grid
      point number `Digit(i, R, j)` of `R`.  On a region of positive width
      it lies strictly inside the region, off every face. */
  function SamplePosition(r: Region, R: nat, i: nat): (p: seq<real>)
    requires R > 0 && |r.lower| == |r.upper|
    ensures |p| == |r.lower|
    ensures forall j :: 0 <= j < |p| ==>
      p[j] == GridCoord(r.lower[j], r.upper[j], Digit(i, R, j), R)
    ensures Proper(r) ==> forall j :: 0 <= j < |p| ==> r.lower[j] < p[j] < r.upper[j]
  {
    seq(|r.lower|, j requires 0 <= j < |r.lower| =>
      GridCoord(r.lower[j], r.upper[j], Digit(i, R, j), R))
  }

  /** Sample `i` as the 3-space point handed to the evaluator. */
  function SamplePoint(r: Region, R: nat, i: nat): (p: seq<real>)
    requires R > 0 && |r.lower| == |r.upper|
    ensures |p| == |r.lower| + |r.perp|
  {
    SamplePosition(r, R, i) + r.perp
  }

  /** The region has positive width on every axis. */
  predicate Proper(r: Region)
  {
    |r.lower| == |r.upper| && forall j :: 0 <= j < |r.lower| ==> r.lower[j] < r.upper[j]
  }

  /** Every sample lies strictly inside the region on its N axes, and carries
      the region's fixed coordinates on the others. */
  lemma SampleInside(r: Region, R: nat, i: nat)
    requires R > 0 && Proper(r)
    ensures forall j :: 0 <= j < |r.lower| ==>
      r.lower[j] < SamplePoint(r, R, i)[j] < r.upper[j]
    ensures SamplePoint(r, R, i)[|r.lower|..] == r.perp
  {
    assert SamplePoint(r, R, i)[..|r.lower|] == SamplePosition(r, R, i);
  }

  /** Distinct sample indices below R^N give distinct sample positions. */
  lemma SamplesDistinct(r: Region, R: nat, i: nat, k: nat)
    requires R > 0 && Proper(r)
    requires i < Pow(R, |r.lower|) && k < Pow(R, |r.lower|)
    ensures SamplePosition(r, R, i) == SamplePosition(r, R, k) <==> i == k
  {
    var n := |r.lower|;
    if SamplePosition(r, R, i) == SamplePosition(r, R, k) {
      forall j | 0 <= j < n
        ensures Digits(i, R, n)[j] == Digits(k, R, n)[j]
      {
        GridCoordInjective(r.lower[j], r.upper[j], Digit(i, R, j), Digit(k, R, j), R);
      }
      DigitsInjective(i, k, R, n);
    }
  }

  /** Every point of the grid, given by one per-axis index below R for each
      axis, is sampled: by the sample whose digits those indices are. */
  lemma SamplesCoverGrid(r: Region, R: nat, ds: seq<nat>)
    requires R > 0 && |r.lower| == |r.upper| && |ds| == |r.lower|
    requires forall j :: 0 <= j < |ds| ==> ds[j] < R
    ensures Value(ds, R) < Pow(R, |r.lower|)
    ensures forall j :: 0 <= j < |ds| ==>
      SamplePosition(r, R, Value(ds, R))[j] == GridCoord(r.lower[j], r.upper[j], ds[j], R)
  {
    DigitsOfValue(ds, R);
    assert forall j :: 0 <= j < |ds| ==> Digit(Value(ds, R), R, j) == Digits(Value(ds, R), R, |ds|)[j];
  }

  /** The gradient the evaluator reports at a point. */
  function Gradient(e: Evaluator, p: seq<real>): (g: seq<real>)
    ensures |g| == 3
  {
    [e.ddx(p), e.ddy(p), e.ddz(p)]
  }

  /** Row `i` of the QEF matrix: sample `i`'s gradient on the N axes and -1. */
  function SampleRow(e: Evaluator, r: Region, N: nat, R: nat, i: nat): (row: seq<real>)
    requires Shaped(r, N) && R > 0
    ensures |row| == N + 1
  {
    Row(Gradient(e, SamplePoint(r, R, i)), N)
  }

  /** Entry `i` of the QEF targets, as stated by `Qef.TargetMeaning`. */
  function SampleTarget(e: Evaluator, r: Region, N: nat, R: nat, i: nat): real
    requires Shaped(r, N) && R > 0
  {
    var p := SamplePoint(r, R, i);
    Target(Gradient(e, p), N, SamplePosition(r, R, i), Center(r), e.value(p))
  }

  /** The QEF matrix, one row per sample. */
  function QefMatrix(e: Evaluator, r: Region, N: nat, R: nat): (A: seq<seq<real>>)
    requires Shaped(r, N) && R > 0
    ensures |A| == Pow(R, N)
    ensures forall i :: 0 <= i < |A| ==> A[i] == SampleRow(e, r, N, R, i)
  {
    seq(Pow(R, N), i requires 0 <= i < Pow(R, N) => SampleRow(e, r, N, R, i))
  }

  /** The QEF targets, one per sample. */
  function QefVector(e: Evaluator, r: Region, N: nat, R: nat): (b: seq<real>)
    requires Shaped(r, N) && R > 0
    ensures |b| == Pow(R, N)
    ensures forall i :: 0 <= i < |b| ==> b[i] == SampleTarget(e, r, N, R, i)
  {
    seq(Pow(R, N), i requires 0 <= i < Pow(R, N) => SampleTarget(e, r, N, R, i))
  }

  /** The stored vertex: the first N unknowns of the solution, shifted back
      from the centre of the cell. */
  ghost function FittedVertex(e: Evaluator, r: Region, N: nat, R: nat, solve: Solver): (v: seq<real>)
    requires Shaped(r, N) && R > 0 && SolverShape(solve, N)
    ensures |v| == N
  {
    var s := solve(QefMatrix(e, r, N, R), QefVector(e, r, N, R));
    Plus(s[..N], Center(r))
  }

  /** The residual of that solution. */
  ghost function FitResidual(e: Evaluator, r: Region, N: nat, R: nat, solve: Solver): real
    requires Shaped(r, N) && R > 0 && SolverShape(solve, N)
  {
    var A := QefMatrix(e, r, N, R);
    var b := QefVector(e, r, N, R);
    Residual(A, b, solve(A, b))
  }

  /** The error of each QEF row at the solution is the offset of the
      stored vertex from that sample's tangent plane, against the level
      found by the solve. */
  lemma FitRowError(e: Evaluator, r: Region, N: nat, R: nat, solve: Solver, i: nat)
    requires Shaped(r, N) && R > 0 && SolverShape(solve, N) && i < Pow(R, N)
    ensures var A := QefMatrix(e, r, N, R);
            var s := solve(A, QefVector(e, r, N, R));
            var p := SamplePoint(r, R, i);
            Inner(A[i], s) - QefVector(e, r, N, R)[i]
              == Inner(Gradient(e, p)[..N], Minus(FittedVertex(e, r, N, R, solve),
                                                  SamplePosition(r, R, i)))
                 + e.value(p) - s[N]
  {
    var A := QefMatrix(e, r, N, R);
    var s := solve(A, QefVector(e, r, N, R));
    var p := SamplePoint(r, R, i);
    RowError(Gradient(e, p), N, SamplePosition(r, R, i), Center(r), e.value(p), s);
  }

  /** The per-axis grid of one region: `pts[i, j]` is coordinate `i` of
      `R` on axis `j`. */
  method GridPoints(r: Region, R: nat) returns (pts: array2<real>)
    requires R > 0 && |r.lower| == |r.upper|
    ensures fresh(pts) && pts.Length0 == R && pts.Length1 == |r.lower|
    ensures forall i, j :: 0 <= i < R && 0 <= j < |r.lower| ==>
      pts[i, j] == GridCoord(r.lower[j], r.upper[j], i, R)
  {
    var n := |r.lower|;
    pts := new real[R, n];
    for i := 0 to R
      modifies pts
      invariant forall i', j :: 0 <= i' < i && 0 <= j < n ==>
        pts[i', j] == GridCoord(r.lower[j], r.upper[j], i', R)
    {
      var frac := (i as real + 0.5) / (R as real);
      for j := 0 to n
        modifies pts
        invariant forall i', j' :: 0 <= i' < i && 0 <= j' < n ==>
          pts[i', j'] == GridCoord(r.lower[j'], r.upper[j'], i', R)
        invariant forall j' :: 0 <= j' < j ==> pts[i, j'] == GridCoord(r.lower[j'], r.upper[j'], i, R)
      {
        pts[i, j] := r.lower[j] * (1.0 - frac) + r.upper[j] * frac;
      }
    }
  }

  /** Every sample position, read off the per-axis grid by the digits of its
      index, and staged in the evaluator as a 3-space point. */
  method StagePositions(eval: Evaluator, r: Region, R: nat, pts: array2<real>)
    returns (positions: array2<real>)
    requires R > 0 && |r.lower| == |r.upper|
    requires pts.Length0 == R && pts.Length1 == |r.lower|
    requires forall i, j :: 0 <= i < R && 0 <= j < |r.lower| ==>
      pts[i, j] == GridCoord(r.lower[j], r.upper[j], i, R)
    requires Pow(R, |r.lower|) <= eval.slots.Length
    modifies eval.slots
    ensures fresh(positions)
    ensures positions.Length0 == Pow(R, |r.lower|) && positions.Length1 == |r.lower|
    ensures forall i, j :: 0 <= i < Pow(R, |r.lower|) && 0 <= j < |r.lower| ==>
      positions[i, j] == SamplePosition(r, R, i)[j]
    ensures forall i :: 0 <= i < Pow(R, |r.lower|) ==> eval.slots[i] == SamplePoint(r, R, i)
    ensures forall k :: Pow(R, |r.lower|) <= k < eval.slots.Length ==>
      eval.slots[k] == old(eval.slots[k])
  {
    var n := |r.lower|;
    var num := Pow(R, n);
    positions := new real[num, n];
    for i := 0 to num
      modifies positions, eval.slots
      invariant forall i', j :: 0 <= i' < i && 0 <= j < n ==>
        positions[i', j] == SamplePosition(r, R, i')[j]
      invariant forall i' :: 0 <= i' < i ==> eval.slots[i'] == SamplePoint(r, R, i')
      invariant forall k :: i <= k < eval.slots.Length ==> eval.slots[k] == old(eval.slots[k])
    {
      for j := 0 to n
        modifies positions
        invariant forall i', j' :: 0 <= i' < i && 0 <= j' < n ==>
          positions[i', j'] == SamplePosition(r, R, i')[j']
        invariant forall j' :: 0 <= j' < j ==> positions[i, j'] == SamplePosition(r, R, i)[j']
      {
        var d := (i % Pow(R, j + 1)) / Pow(R, j);
        assert d == Digit(i, R, j);
        positions[i, j] := pts[d, j];
      }
      var pos := seq(n, j requires 0 <= j < n reads positions => positions[i, j]) + r.perp;
      assert pos == SamplePoint(r, R, i);
      eval.Set(pos, i);
    }
  }

  /** The rows of a matrix, as sequences. */
  function RowsOf(A: array2<real>): (rows: seq<seq<real>>)
    reads A
    ensures |rows| == A.Length0
    ensures forall i :: 0 <= i < A.Length0 ==>
      |rows[i]| == A.Length1 && forall j :: 0 <= j < A.Length1 ==> rows[i][j] == A[i, j]
  {
    seq(A.Length0, i requires 0 <= i < A.Length0 reads A =>
      seq(A.Length1, j requires 0 <= j < A.Length1 reads A => A[i, j]))
  }

  /** Writes one row of the QEF matrix: the first N components of the
      gradient `g`, then -1; the other rows are left as they are. */
  method SetRow(A: array2<real>, i: nat, g: seq<real>, N: nat)
    requires i < A.Length0 && A.Length1 == N + 1 && N <= |g|
    modifies A
    ensures forall j :: 0 <= j <= N ==> A[i, j] == Row(g, N)[j]
    ensures forall i', j :: 0 <= i' < A.Length0 && i' != i && 0 <= j < A.Length1 ==>
      A[i', j] == old(A[i', j])
  {
    for j := 0 to N
      invariant forall j' :: 0 <= j' < j ==> A[i, j'] == g[j']
      invariant forall i', j' :: 0 <= i' < A.Length0 && i' != i && 0 <= j' < A.Length1 ==>
        A[i', j'] == old(A[i', j'])
    {
      A[i, j] := g[j];
    }
    A[i, N] := -1.0;
  }

  /** Loads row `i` of the QEF: the sample's gradient, read from the
      evaluator's derivatives, into `A`, and the row's product with the
      sample's centred position extended by its value into `b`. */
  method LoadRow(eval: Evaluator, r: Region, N: nat, R: nat, positions: array2<real>,
                 ds: Derivatives, A: array2<real>, b: array<real>, i: nat)
    requires Shaped(r, N) && R > 0 && i < Pow(R, N) && positions != A
    requires positions.Length0 == Pow(R, N) && positions.Length1 == N
    requires forall j :: 0 <= j < N ==> positions[i, j] == SamplePosition(r, R, i)[j]
    requires |ds.dx| == |ds.dy| == |ds.dz| == |ds.v| == Pow(R, N)
    requires var p := SamplePoint(r, R, i);
      ds.dx[i] == eval.ddx(p) && ds.dy[i] == eval.ddy(p) &&
      ds.dz[i] == eval.ddz(p) && ds.v[i] == eval.value(p)
    requires A.Length0 == Pow(R, N) && A.Length1 == N + 1 && b.Length == Pow(R, N)
    modifies A, b
    ensures forall j :: 0 <= j <= N ==> A[i, j] == SampleRow(eval, r, N, R, i)[j]
    ensures b[i] == SampleTarget(eval, r, N, R, i)
    ensures forall i', j :: 0 <= i' < A.Length0 && i' != i && 0 <= j < A.Length1 ==>
      A[i', j] == old(A[i', j])
    ensures forall i' :: 0 <= i' < b.Length && i' != i ==> b[i'] == old(b[i'])
  {
    ghost var p := SamplePoint(r, R, i);
    var center := Center(r);
    var deriv := [ds.dx[i], ds.dy[i], ds.dz[i]];
    assert deriv == Gradient(eval, p);
    SetRow(A, i, deriv, N);
    var row := seq(N + 1, j requires 0 <= j <= N reads A => A[i, j]);
    assert row == SampleRow(eval, r, N, R, i);
    var n := seq(N, j requires 0 <= j < N reads positions => positions[i, j] - center[j]) + [ds.v[i]];
    assert n == Minus(SamplePosition(r, R, i), center) + [eval.value(p)];
    b[i] := Inner(row, n);
  }

  /** Loads the QEF: row `i` of `A` is sample `i`'s row, and `b[i]` is that
      row's product with the sample's offset from the centre, extended by
      the sample's value. */
  method LoadQef(eval: Evaluator, r: Region, N: nat, R: nat, positions: array2<real>, ds: Derivatives)
    returns (A: array2<real>, b: array<real>)
    requires Shaped(r, N) && R > 0
    requires positions.Length0 == Pow(R, N) && positions.Length1 == N
    requires forall i, j :: 0 <= i < Pow(R, N) && 0 <= j < N ==>
      positions[i, j] == SamplePosition(r, R, i)[j]
    requires |ds.dx| == |ds.dy| == |ds.dz| == |ds.v| == Pow(R, N)
    requires forall i :: 0 <= i < Pow(R, N) ==>
      var p := SamplePoint(r, R, i);
      ds.dx[i] == eval.ddx(p) && ds.dy[i] == eval.ddy(p) &&
      ds.dz[i] == eval.ddz(p) && ds.v[i] == eval.value(p)
    ensures fresh(A) && fresh(b)
    ensures A.Length0 == Pow(R, N) && A.Length1 == N + 1 && b.Length == Pow(R, N)
    ensures RowsOf(A) == QefMatrix(eval, r, N, R)
    ensures b[..] == QefVector(eval, r, N, R)
  {
    var num := Pow(R, N);
    A := new real[num, N + 1];
    b := new real[num];
    for i := 0 to num
      modifies A, b
      invariant forall i', j :: 0 <= i' < i && 0 <= j <= N ==>
        A[i', j] == SampleRow(eval, r, N, R, i')[j]
      invariant forall i' :: 0 <= i' < i ==> b[i'] == SampleTarget(eval, r, N, R, i')
    {
      LoadRow(eval, r, N, R, positions, ds, A, b, i);
    }
    assert forall i :: 0 <= i < num ==> RowsOf(A)[i] == QefMatrix(eval, r, N, R)[i];
  }

  /** A child slot holds a node for `sub`, of the same dimension, exactly
      when `built`. */
  ghost predicate Slot(c: XTree?, sub: Region, N: nat, built: bool)
  {
    (c != null <==> built) && (c != null ==> c.region == sub && c.N == N)
  }

  class XTree {
    /** The dimension of the tree: 2 for a quadtree, 3 for an octree. */
    const N: nat
    const region: Region
    /** One slot per sub-region; null where no child was built. */
    var children: array<XTree?>
    /** The fitted vertex. */
    var vert: seq<real>
    /** Whether the fit was accepted. */
    ghost var fitted: bool

    /** Samples the region on an interior R^N grid, stages the samples in
        the evaluator, loads and solves the QEF, stores the vertex and
        reports whether the fit is accepted.  The number of samples must
        be below the capacity of the evaluator's buffer. */
    method FindVertex(eval: Evaluator, R: nat, solve: Solver, accept: real -> bool) returns (ok: bool)
      requires (N == 2 || N == 3) && Shaped(region, N) && R > 0
      requires Pow(R, N) < eval.slots.Length
      requires SolverShape(solve, N)
      modifies this`vert, eval.slots
      ensures forall i :: 0 <= i < Pow(R, N) ==> eval.slots[i] == SamplePoint(region, R, i)
      ensures forall i :: Pow(R, N) <= i < eval.slots.Length ==> eval.slots[i] == old(eval.slots[i])
      ensures vert == FittedVertex(eval, region, N, R, solve)
      ensures ok == accept(FitResidual(eval, region, N, R, solve))
    {
      var num := Pow(R, N);
      var center := Center(region);
      var pts := GridPoints(region, R);
      var positions := StagePositions(eval, region, R, pts);
      var ds := eval.Derivs(num);
      var A, b := LoadQef(eval, region, N, R, positions, ds);

      // Solve, store the vertex, and judge the residual.
      var rows := RowsOf(A);
      var sol := solve(rows, b[..]);
      vert := Plus(sol[..N], center);
      ok := accept(Residual(rows, b[..], sol));
    }

    /** Opens an evaluator context on the region and fits its vertex. */
    method Fit(eval: Evaluator, R: nat, solve: Solver, accept: real -> bool) returns (ok: bool)
      requires (N == 2 || N == 3) && Shaped(region, N) && R > 0
      requires Pow(R, N) < eval.slots.Length
      requires SolverShape(solve, N)
      modifies this`vert, eval, eval.slots
      ensures eval.contexts == old(eval.contexts) + [Box(Lower3(region), Upper3(region))]
      ensures vert == FittedVertex(eval, region, N, R, solve)
      ensures ok == accept(FitResidual(eval, region, N, R, solve))
    {
      eval.Eval(Lower3(region), Upper3(region));
      eval.Push();
      ok := FindVertex(eval, R, solve, accept);
    }

    /** Builds the node for `region` and, where the fit is refused and the
        depth budget allows, its children: one for each non-empty
        sub-region.  The evaluator's context stack is left as it was. */
    constructor(eval: Evaluator, region: Region, N: nat, R: nat, solve: Solver,
                accept: real -> bool, isEmpty: Region -> bool, depth: nat)
      requires (N == 2 || N == 3) && Shaped(region, N) && R > 0
      requires Pow(R, N) < eval.slots.Length
      requires SolverShape(solve, N)
      modifies eval, eval.slots
      ensures this.region == region && this.N == N
      ensures eval.contexts == old(eval.contexts)
      ensures vert == FittedVertex(eval, region, N, R, solve)
      ensures fitted == accept(FitResidual(eval, region, N, R, solve))
      ensures fresh(children) && children.Length == Pow(2, N)
      ensures forall i :: 0 <= i < children.Length ==>
        Slot(children[i], Subdivide(region)[i], N, !fitted && depth > 0 && !isEmpty(Subdivide(region)[i]))
      decreases depth, 1
    {
      this.N := N;
      this.region := region;
      children := new XTree?[Pow(2, N)](_ => null);
      vert := [];
      fitted := false;
      new;
      ghost var outer := eval.contexts;
      var ok := Fit(eval, R, solve, accept);
      ghost var pushed := eval.contexts;
      assert pushed[..|outer|] == outer;
      fitted := ok;
      if !ok && depth > 0 {
        children := BuildChildren(eval, region, N, R, solve, accept, isEmpty, depth - 1);
      }
      assert eval.contexts == pushed;
      eval.Pop();
    }
  }

  /** A node built under the original's policy, which accepts every fit: it
      keeps the evaluator's context stack balanced and has no children. */
  method BuildAccepting(eval: Evaluator, region: Region, N: nat, R: nat, solve: Solver,
                        isEmpty: Region -> bool, depth: nat)
    returns (t: XTree)
    requires (N == 2 || N == 3) && Shaped(region, N) && R > 0
    requires Pow(R, N) < eval.slots.Length
    requires SolverShape(solve, N)
    modifies eval, eval.slots
    ensures t.region == region && t.N == N && t.fitted
    ensures eval.contexts == old(eval.contexts)
    ensures t.children.Length == Pow(2, N)
    ensures forall i :: 0 <= i < t.children.Length ==> t.children[i] == null
  {
    t := new XTree(eval, region, N, R, solve, _ => true, isEmpty, depth);
  }

  /** The children of a node whose fit was refused: for each of the 2^N
      sub-regions, in child-index order, a node built one level further
      down, or null when the sub-region is empty. */
  method BuildChildren(eval: Evaluator, region: Region, N: nat, R: nat, solve: Solver,
                       accept: real -> bool, isEmpty: Region -> bool, depth: nat)
    returns (children: array<XTree?>)
    requires (N == 2 || N == 3) && Shaped(region, N) && R > 0
    requires Pow(R, N) < eval.slots.Length
    requires SolverShape(solve, N)
    modifies eval, eval.slots
    ensures fresh(children) && children.Length == Pow(2, N)
    ensures forall i :: 0 <= i < children.Length ==>
      Slot(children[i], Subdivide(region)[i], N, !isEmpty(Subdivide(region)[i]))
    ensures eval.contexts == old(eval.contexts)
    decreases depth, 2
  {
    var rs := Subdivide(region);
    children := new XTree?[Pow(2, N)](_ => null);
    for i := 0 to Pow(2, N)
      modifies children, eval, eval.slots
      invariant eval.contexts == old(eval.contexts)
      invariant forall k :: 0 <= k < children.Length ==>
        Slot(children[k], rs[k], N, k < i && !isEmpty(rs[k]))
    {
      if !isEmpty(rs[i]) {
        var child := new XTree(eval, rs[i], N, R, solve, accept, isEmpty, depth);
        children[i] := child;
      }
    }
  }
}
