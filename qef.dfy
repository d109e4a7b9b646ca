/*
  The rows of the quadratic error function, one per sample: the sample's
  gradient on the N explicit axes followed by -1, with target value the
  gradient's product with the sample's offset from the cell centre, minus
  the function's value there.  The least-squares solve itself is not
  modelled; these definitions say what system it is given.
*/
module Qef {

  /** Inner product of two real vectors. */
  function Inner(u: seq<real>, v: seq<real>): real
    requires |u| == |v|
    decreases |u|
  {
    if u == [] then 0.0 else u[0] * v[0] + Inner(u[1..], v[1..])
  }

  /** Appending one coordinate to both vectors adds its product. */
  lemma {:induction false} InnerAppend(a: seq<real>, b: seq<real>, x: real, y: real)
    requires |a| == |b|
    ensures Inner(a + [x], b + [y]) == Inner(a, b) + x * y
    decreases |a|
  {
    if a != [] {
      assert (a + [x])[1..] == a[1..] + [x];
      assert (b + [y])[1..] == b[1..] + [y];
      InnerAppend(a[1..], b[1..], x, y);
    }
  }

  /** A sum of squares is never negative. */
  lemma {:induction false} InnerSquare(u: seq<real>)
    ensures Inner(u, u) >= 0.0
    decreases |u|
  {
    if u != [] {
      InnerSquare(u[1..]);
    }
  }

  /** Componentwise difference. */
  function Minus(u: seq<real>, v: seq<real>): (w: seq<real>)
    requires |u| == |v|
    ensures |w| == |u| && forall j :: 0 <= j < |u| ==> w[j] == u[j] - v[j]
  {
    seq(|u|, j requires 0 <= j < |u| => u[j] - v[j])
  }

  /** Componentwise sum. */
  function Plus(u: seq<real>, v: seq<real>): (w: seq<real>)
    requires |u| == |v|
    ensures |w| == |u| && forall j :: 0 <= j < |u| ==> w[j] == u[j] + v[j]
  {
    seq(|u|, j requires 0 <= j < |u| => u[j] + v[j])
  }

  /** The row of A for a sample with gradient `g`: its first N components
      and a final -1. */
  function Row(g: seq<real>, N: nat): (r: seq<real>)
    requires N <= |g|
  {
    g[..N] + [-1.0]
  }

  /** The entry of b for that sample: the row's product with the offset of
      the sample `pos` from the centre `c`, extended by the value `v`. */
  function Target(g: seq<real>, N: nat, pos: seq<real>, c: seq<real>, v: real): real
    requires N <= |g| && |pos| == N && |c| == N
  {
    Inner(Row(g, N), Minus(pos, c) + [v])
  }

  /** So the target is the gradient's product with the offset, minus the
      value: the linearised surface through the sample, in coordinates
      centred on the cell. */
  lemma TargetMeaning(g: seq<real>, N: nat, pos: seq<real>, c: seq<real>, v: real)
    requires N <= |g| && |pos| == N && |c| == N
    ensures Target(g, N, pos, c, v) == Inner(g[..N], Minus(pos, c)) - v
  {
    InnerAppend(g[..N], Minus(pos, c), -1.0, v);
  }

  /** Inner product is linear in its second argument under differences. */
  lemma {:induction false} InnerMinus(g: seq<real>, u: seq<real>, v: seq<real>)
    requires |g| == |u| == |v|
    ensures Inner(g, Minus(u, v)) == Inner(g, u) - Inner(g, v)
    decreases |g|
  {
    if g != [] {
      assert Minus(u, v)[1..] == Minus(u[1..], v[1..]);
      InnerMinus(g[1..], u[1..], v[1..]);
    }
  }

  /** The error of one row at a solution `s` of N + 1 unknowns: with the
      vertex `s[..N] + c`, it is how far the vertex is from the sample's
      tangent plane, measured against the level `s[N]`. */
  lemma RowError(g: seq<real>, N: nat, pos: seq<real>, c: seq<real>, v: real, s: seq<real>)
    requires N <= |g| && |pos| == N && |c| == N && |s| == N + 1
    ensures Inner(Row(g, N), s) - Target(g, N, pos, c, v)
         == Inner(g[..N], Minus(Plus(s[..N], c), pos)) + v - s[N]
  {
    assert s == s[..N] + [s[N]];
    InnerAppend(g[..N], s[..N], -1.0, s[N]);
    TargetMeaning(g, N, pos, c, v);
    var vert := Plus(s[..N], c);
    InnerMinus(g[..N], vert, pos);
    InnerMinus(g[..N], pos, c);
    assert Minus(vert, c) == s[..N];
    InnerMinus(g[..N], vert, c);
  }

  /** The matrix product `A s`, one inner product per row. */
  function Apply(A: seq<seq<real>>, s: seq<real>): (r: seq<real>)
    requires forall i :: 0 <= i < |A| ==> |A[i]| == |s|
    ensures |r| == |A|
  {
    seq(|A|, i requires 0 <= i < |A| => Inner(A[i], s))
  }

  /** The squared norm of `A s - b`, the residual of a least-squares fit:
      never negative. */
  function Residual(A: seq<seq<real>>, b: seq<real>, s: seq<real>): (e: real)
    requires |b| == |A| && forall i :: 0 <= i < |A| ==> |A[i]| == |s|
    ensures e >= 0.0
  {
    var err := Minus(Apply(A, s), b);
    InnerSquare(err);
    Inner(err, err)
  }
}
