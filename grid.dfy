/*
  The arithmetic of the interior sample grid of one cell: the integer power
  that sizes the grid, the fractional offset of each sample along an axis,
  and the mixed-radix unpacking of a flat sample index into one digit per
  axis.  Integers are unbounded here; see the README for the 32-bit
  arithmetic of the original.
*/
module Grid {

  /** `x` to the power `y`, by the same recursion on `y` as the original;
      a positive base has a positive power. */
  function Pow(x: nat, y: nat): (r: nat)
    ensures x > 0 ==> r > 0
    decreases y
  {
    if y == 0 then 1 else x * Pow(x, y - 1)
  }

  /** Adding exponents multiplies powers. */
  lemma {:induction false} PowAdd(x: nat, y: nat, z: nat)
    ensures Pow(x, y + z) == Pow(x, y) * Pow(x, z)
    decreases z
  {
    if z > 0 {
      PowAdd(x, y, z - 1);
      assert Pow(x, y + z) == x * Pow(x, y + z - 1);
      MulCommutesInside(x, Pow(x, y), Pow(x, z - 1));
    }
  }

  // Small facts of integer arithmetic, each proved on its own so that no
  // larger proof has to search for them.

  lemma MulCommutesInside(a: int, b: int, c: int)
    ensures a * (b * c) == b * (a * c)
  {
  }

  lemma MulMonotone(a: nat, x: nat)
    requires x > 0
    ensures a <= a * x
  {
  }

  lemma MulLe(d: int, e: int, a: int)
    requires d <= e && a >= 0
    ensures d * a <= e * a
  {
  }

  /** Quotient and remainder by `a` are fixed by any decomposition
      `x == q * a + t` with `0 <= t < a`. */
  lemma DivModUnique(x: int, a: int, q: int, t: int)
    requires a > 0 && x == q * a + t && 0 <= t < a
    ensures x / a == q && x % a == t
  {
    var k := q - x / a;
    assert k * a == x % a - t;
    if k > 0 {
      MulMonotone(a, k);
    }
  }

  lemma DivBelow(x: nat, a: nat, b: nat)
    requires a > 0 && x < a * b
    ensures x / a < b
  {
  }

  lemma ModMod(x: nat, a: nat, b: nat)
    requires a > 0 && b > 0
    ensures (x % (a * b)) % a == x % a
  {
    var q := x / (a * b);
    var r := x % (a * b);
    assert x == (q * b) * a + r;
    DivModUnique(r, a, r / a, r % a);
    DivModUnique(x, a, q * b + r / a, r % a);
  }

  lemma ModShift(w: nat, k: nat, b: nat)
    requires b > 0
    ensures (w + k * b) % b == w % b
  {
    DivModUnique(w + k * b, b, w / b + k, w % b);
  }

  /** The offset of sample `i` of `R` along an axis, as a fraction of the
      cell's width: the midpoint of the `i`-th of `R` equal slices. */
  function Fraction(i: nat, R: nat): (r: real)
    requires i < R
    ensures 0.0 < r < 1.0
  {
    FractionOfUnit(i as real + 0.5, R as real);
    (i as real + 0.5) / (R as real)
  }

  lemma FractionOfUnit(x: real, y: real)
    requires 0.0 < x < y
    ensures 0.0 < x / y < 1.0
  {
    var f := x / y;
    assert f * y == x;
    PositiveFactor(f, y);
    assert (1.0 - f) * y == y - x;
    PositiveFactor(1.0 - f, y);
  }

  lemma PositiveFactor(f: real, y: real)
    requires y > 0.0 && f * y > 0.0
    ensures f > 0.0
  {
  }

  lemma PositiveProduct(x: real, y: real)
    requires x > 0.0 && y > 0.0
    ensures x * y > 0.0
  {
  }

  /** A positive width times a positive step is positive. */
  lemma WidthTimes(l: real, u: real, s: real, t: real)
    requires l < u && s < t
    ensures (u - l) * (t - s) > 0.0
  {
    var x := u - l;
    var y := t - s;
    PositiveProduct(x, y);
    assert x * y == (u - l) * (t - s);
  }

  /** Samples further along the axis have larger offsets. */
  lemma FractionIncreasing(i: nat, k: nat, R: nat)
    requires i < k < R
    ensures Fraction(i, R) < Fraction(k, R)
  {
    var r := R as real;
    var a := Fraction(i, R);
    var b := Fraction(k, R);
    assert a * r == i as real + 0.5;
    assert b * r == k as real + 0.5;
    var d := b - a;
    assert d * r == k as real - i as real;
    PositiveFactor(d, r);
  }

  /** The point a fraction `t` of the way from `lower` to `upper`. */
  function Between(lower: real, upper: real, t: real): real
  {
    lower * (1.0 - t) + upper * t
  }

  /** Strictly inside the interval when `t` is strictly inside (0, 1). */
  lemma BetweenInterior(lower: real, upper: real, t: real)
    requires lower < upper && 0.0 < t < 1.0
    ensures lower < Between(lower, upper, t) < upper
  {
    WidthTimes(lower, upper, 0.0, t);
    WidthTimes(lower, upper, t, 1.0);
    assert Between(lower, upper, t) - lower == (upper - lower) * (t - 0.0);
    assert upper - Between(lower, upper, t) == (upper - lower) * (1.0 - t);
  }

  /** On an interval of positive width, further along means larger. */
  lemma BetweenIncreasing(lower: real, upper: real, s: real, t: real)
    requires lower < upper && s < t
    ensures Between(lower, upper, s) < Between(lower, upper, t)
  {
    WidthTimes(lower, upper, s, t);
    assert Between(lower, upper, t) - Between(lower, upper, s) == (upper - lower) * (t - s);
  }

  /** The coordinate of sample `i` of `R` on an axis spanning [`lower`,
      `upper`]: strictly between the two ends, never on a face. */
  function GridCoord(lower: real, upper: real, i: nat, R: nat): (r: real)
    requires i < R
    ensures lower < upper ==> lower < r < upper
  {
    var t := Fraction(i, R);
    if lower < upper then
      BetweenInterior(lower, upper, t);
      Between(lower, upper, t)
    else
      Between(lower, upper, t)
  }

  /** On an axis of positive width, distinct samples have distinct
      coordinates. */
  lemma GridCoordInjective(lower: real, upper: real, i: nat, k: nat, R: nat)
    requires lower < upper && i < R && k < R
    ensures GridCoord(lower, upper, i, R) == GridCoord(lower, upper, k, R) <==> i == k
  {
    if i < k {
      FractionIncreasing(i, k, R);
      BetweenIncreasing(lower, upper, Fraction(i, R), Fraction(k, R));
    } else if k < i {
      FractionIncreasing(k, i, R);
      BetweenIncreasing(lower, upper, Fraction(k, R), Fraction(i, R));
    }
  }

  /** Digit `j` of the flat sample index `i` in base `R`, least significant
      first; it is always a valid per-axis sample index. */
  function Digit(i: nat, R: nat, j: nat): (r: nat)
    requires R > 0
    ensures r < R
  {
    assert Pow(R, j + 1) == Pow(R, j) * R;
    DivBelow(i % Pow(R, j + 1), Pow(R, j), R);
    (i % Pow(R, j + 1)) / Pow(R, j)
  }

  /** The first `n` digits of `i`, one per axis. */
  function Digits(i: nat, R: nat, n: nat): (r: seq<nat>)
    requires R > 0
    ensures |r| == n
    ensures forall j :: 0 <= j < n ==> r[j] == Digit(i, R, j)
  {
    seq(n, j requires 0 <= j < n => Digit(i, R, j))
  }

  /** The number whose base-`R` digits, least significant first, are `ds`. */
  function Value(ds: seq<nat>, R: nat): nat
    decreases |ds|
  {
    if ds == [] then 0
    else Value(ds[..|ds| - 1], R) + ds[|ds| - 1] * Pow(R, |ds| - 1)
  }

  /** Reducing modulo one more power of `R` adds one more digit. */
  lemma DigitSplit(i: nat, R: nat, m: nat)
    requires R > 0
    ensures i % Pow(R, m + 1) == i % Pow(R, m) + Digit(i, R, m) * Pow(R, m)
  {
    var a := Pow(R, m);
    assert Pow(R, m + 1) == a * R;
    ModMod(i, a, R);
  }

  /** The first `n` digits of `i` spell out `i` modulo `R^n`. */
  lemma {:induction false} ValueDigits(i: nat, R: nat, n: nat)
    requires R > 0
    ensures Value(Digits(i, R, n), R) == i % Pow(R, n)
    decreases n
  {
    if n > 0 {
      assert Digits(i, R, n)[..n - 1] == Digits(i, R, n - 1);
      ValueDigits(i, R, n - 1);
      DigitSplit(i, R, n - 1);
    }
  }

  /** Unpacking a sample index below `R^n` into digits loses nothing. */
  lemma DigitsRoundTrip(i: nat, R: nat, n: nat)
    requires R > 0 && i < Pow(R, n)
    ensures Value(Digits(i, R, n), R) == i
  {
    ValueDigits(i, R, n);
    DivModUnique(i, Pow(R, n), 0, i);
  }

  /** Distinct sample indices below `R^n` unpack to distinct digit tuples. */
  lemma DigitsInjective(i: nat, k: nat, R: nat, n: nat)
    requires R > 0 && i < Pow(R, n) && k < Pow(R, n)
    ensures Digits(i, R, n) == Digits(k, R, n) <==> i == k
  {
    DigitsRoundTrip(i, R, n);
    DigitsRoundTrip(k, R, n);
  }

  /** Digits that are each below `R` spell out a number below `R^n`. */
  lemma {:induction false} ValueBelow(ds: seq<nat>, R: nat)
    requires R > 0 && forall j :: 0 <= j < |ds| ==> ds[j] < R
    ensures Value(ds, R) < Pow(R, |ds|)
    decreases |ds|
  {
    if ds != [] {
      var m := |ds| - 1;
      ValueBelow(ds[..m], R);
      var a := Pow(R, m);
      assert Pow(R, |ds|) == (R - 1) * a + a;
      MulLe(ds[m], R - 1, a);
    }
  }

  /** Adding a multiple of `R^m` leaves the digits below `m` alone. */
  lemma DigitOfExtension(w: nat, d: nat, R: nat, m: nat, j: nat)
    requires R > 0 && j < m
    ensures Digit(w + d * Pow(R, m), R, j) == Digit(w, R, j)
  {
    var b := Pow(R, j + 1);
    PowAdd(R, j + 1, m - (j + 1));
    var c := Pow(R, m - (j + 1));
    var k := d * c;
    assert d * Pow(R, m) == k * b by {
      MulCommutesInside(d, b, c);
    }
    ModShift(w, k, b);
  }

  /** Below `R^m`, adding `d * R^m` with `d < R` makes `d` digit `m`. */
  lemma TopDigit(w: nat, d: nat, R: nat, m: nat)
    requires R > 0 && w < Pow(R, m) && d < R
    ensures Digit(w + d * Pow(R, m), R, m) == d
  {
    var a := Pow(R, m);
    var v := w + d * a;
    var p := Pow(R, m + 1);
    assert v < p by {
      MulLe(d, R - 1, a);
      assert p == (R - 1) * a + a;
    }
    DivModUnique(v, p, 0, v);
    DivModUnique(v, a, d, w);
  }

  /** Every digit tuple with digits below `R` is the unpacking of the number
      it spells out, so every grid point has a sample index below `R^n`. */
  lemma {:induction false} DigitsOfValue(ds: seq<nat>, R: nat)
    requires R > 0 && forall j :: 0 <= j < |ds| ==> ds[j] < R
    ensures Value(ds, R) < Pow(R, |ds|)
    ensures Digits(Value(ds, R), R, |ds|) == ds
    decreases |ds|
  {
    ValueBelow(ds, R);
    if ds != [] {
      var m := |ds| - 1;
      var w := Value(ds[..m], R);
      ValueBelow(ds[..m], R);
      DigitsOfValue(ds[..m], R);
      forall j | 0 <= j < m
        ensures Digit(Value(ds, R), R, j) == ds[j]
      {
        DigitOfExtension(w, ds[m], R, m, j);
      }
      TopDigit(w, ds[m], R, m);
    }
  }
}
