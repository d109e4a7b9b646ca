/*
  The evaluator as the tree builder sees it: a stack of evaluation contexts
  opened over intervals, and a fixed-size buffer of 3-space sample points
  whose values and partial derivatives it reports.  The implicit function is
  given by four total functions of a point; how the evaluator computes them,
  and the simplifications a pushed context enables, are not part of this
  model.
*/
module Evaluators {

  /** The box of 3-space over which an interval evaluation was made. */
  datatype Box = Box(lower: seq<real>, upper: seq<real>)

  /** The values and partial derivatives at the first points of the buffer. */
  datatype Derivatives = Derivatives(dx: seq<real>, dy: seq<real>, dz: seq<real>, v: seq<real>)

  class Evaluator {
    /** The implicit function and its partial derivatives. */
    const value: seq<real> -> real
    const ddx: seq<real> -> real
    const ddy: seq<real> -> real
    const ddz: seq<real> -> real

    /** The staged sample points, one per slot; the number of slots is the
        fixed capacity of the result buffer. */
    const slots: array<seq<real>>

    /** The box of the latest interval evaluation. */
    var interval: Box
    /** The contexts pushed and not yet popped, innermost last. */
    var contexts: seq<Box>

    constructor(capacity: nat, value: seq<real> -> real,
                ddx: seq<real> -> real, ddy: seq<real> -> real, ddz: seq<real> -> real)
      ensures this.value == value && this.ddx == ddx && this.ddy == ddy && this.ddz == ddz
      ensures fresh(slots) && slots.Length == capacity
      ensures contexts == []
    {
      this.value := value;
      this.ddx := ddx;
      this.ddy := ddy;
      this.ddz := ddz;
      slots := new seq<real>[capacity](_ => []);
      interval := Box([], []);
      contexts := [];
    }

    /** Evaluates the function over a box, to be captured by the next push. */
    method Eval(lower: seq<real>, upper: seq<real>)
      modifies this
      ensures interval == Box(lower, upper) && contexts == old(contexts)
    {
      interval := Box(lower, upper);
    }

    /** Opens a context on the latest interval evaluation. */
    method Push()
      modifies this
      ensures contexts == old(contexts) + [interval] && interval == old(interval)
    {
      contexts := contexts + [interval];
    }

    /** Closes the innermost context. */
    method Pop()
      requires contexts != []
      modifies this
      ensures contexts == old(contexts)[..|old(contexts)| - 1] && interval == old(interval)
    {
      contexts := contexts[..|contexts| - 1];
    }

    /** Stages point `pos` in slot `i`. */
    method Set(pos: seq<real>, i: nat)
      requires i < slots.Length
      modifies slots
      ensures slots[i] == pos
      ensures forall k :: 0 <= k < slots.Length && k != i ==> slots[k] == old(slots[k])
    {
      slots[i] := pos;
    }

    /** The values and partial derivatives at the first `count` staged
        points; the buffer is left as it is. */
    method Derivs(count: nat) returns (d: Derivatives)
      requires count <= slots.Length
      ensures |d.dx| == |d.dy| == |d.dz| == |d.v| == count
      ensures forall i :: 0 <= i < count ==>
        d.dx[i] == ddx(slots[i]) && d.dy[i] == ddy(slots[i]) &&
        d.dz[i] == ddz(slots[i]) && d.v[i] == value(slots[i])
    {
      var points := slots[..count];
      d := Derivatives(
        seq(count, i requires 0 <= i < count => ddx(points[i])),
        seq(count, i requires 0 <= i < count => ddy(points[i])),
        seq(count, i requires 0 <= i < count => ddz(points[i])),
        seq(count, i requires 0 <= i < count => value(points[i])));
    }
  }
}
