# Adaptive tree construction and Feature separability, in Dafny

This project models two parts of the ao / libfive CAD kernel's
dual-contouring surface extractor.

**The adaptive tree** (`ao/src/render/brep/xtree.cpp`). An `XTree<N>` is a
quadtree (N = 2) or octree (N = 3) node over a `Region<N>`. Building a
node takes these steps:

- evaluate the function over the region's 3-space box and push an
  evaluator context;
- call `findVertex`, which lays an interior `R^N` grid of samples over
  the cell;
- unpack each flat sample index `i` into one base-`R` digit per axis with
  `_pow`;
- stage each sample in the evaluator as a 3-space point, padded with the
  region's fixed `perp` coordinates, and read back the values and
  gradients;
- load the quadratic error function (QEF): one row `[grad_N, -1]` of `A`
  per sample, with entry `b(i)` the row's product with the sample's
  offset from the cell centre extended by the sample value;
- solve the QEF by least squares and store the vertex, which is the
  solution's first N components shifted back by the centre;
- only when the fit fails, build one child for each non-empty
  sub-region;
- pop the context.

The modules follow that structure:

- `Grid` (grid.dfy) holds `_pow`, the grid fractions and coordinates, and
  the mixed-radix digits.
- `Regions` (regions.dfy) holds the cell, its 3-space corners, its centre
  and its subdivision.
- `Evaluators` (evaluators.dfy) holds the evaluator: a context stack and
  a fixed-capacity buffer of sample slots.
- `Qef` (qef.dfy) holds the QEF rows, targets and residual.
- `XTrees` (xtree.dfy) holds the node class, its constructor and
  `FindVertex`, written as imperative Dafny over arrays, split into its
  loops: `GridPoints`, `StagePositions`, `LoadQef`/`LoadRow`/`SetRow`.

**The Feature** (behaviour fixed by `libfive/test/feature.cpp`). A Feature
gathers gradient directions that are believed to come from one point of
the surface.

- `push(d)` accepts `d` only while some direction `p` still lies strictly
  on the positive side of every stored direction and of `d`.
- `check(d)` runs the same test without storing anything.
- `check(other)` runs the test on the union of both Features' directions.

Directions are integer 3-vectors, so the test is exact:

- `Cones` (cones.dfy) defines the feasibility predicate and decides it by
  Fourier–Motzkin elimination. Its contract proves the two agree on every
  input. It also proves that a Gordan certificate rules feasibility out.
  A Gordan certificate is a set of non-negative, not-all-zero weights
  under which the directions sum to zero.
- `Features` (features.dfy) holds the Feature class.
- `FeatureTests` (feature_tests.dfy) replays every scenario of the test
  file on a fresh Feature and proves the expected answers.

Two behaviours of the code shape the model:

- **The fit never fails.** `findVertex` as written computes the residual
  but returns `true` unconditionally (xtree.cpp:101-105). The decision is
  therefore the parameter `accept` of the residual, so the subdivision
  branch (xtree.cpp:13-23) stays reachable in the model. The original is
  the case `accept ≡ true`. `XTrees.BuildAccepting` builds a node under
  that policy, and its contract proves every child slot null: every node
  is a leaf.
- **The Feature test is strict.** The test file expects `-d` to be refused
  after `d` (feature.cpp:35-36) and the zero vector to be refused
  (feature.cpp:30). Only a strict test (`d · p > 0`) does both, so the
  model's `Feasible` is strict.

## Model

| member | source | states |
|---|---|---|
| Grid.Pow | ao/src/render/brep/xtree.cpp:28-31 | `_pow`'s recursion, `Pow(x, 0) = 1` and `Pow(x, y) = x * Pow(x, y - 1)`; a positive base has a positive power, so `num = R^N` is at least one sample |
| Grid.PowAdd | ao/src/render/brep/xtree.cpp:28-31 | `Pow(x, y + z) = Pow(x, y) * Pow(x, z)`, the law that makes `_pow(R, j + 1) = _pow(R, j) * R` in the digit unpacking |
| Grid.Fraction | ao/src/render/brep/xtree.cpp:50 | for `i < R` the grid fraction `(i + 0.5) / R` lies strictly inside (0, 1) |
| Grid.FractionIncreasing | ao/src/render/brep/xtree.cpp:48-50 | later grid indices have strictly larger fractions |
| Grid.BetweenInterior | ao/src/render/brep/xtree.cpp:51 | `lower * (1 - t) + upper * t` is strictly between `lower` and `upper` when `lower < upper` and `0 < t < 1` |
| Grid.BetweenIncreasing | ao/src/render/brep/xtree.cpp:51 | on an interval of positive width the interpolation is strictly increasing in `t` |
| Grid.GridCoord | ao/src/render/brep/xtree.cpp:48-52 | every per-axis grid coordinate lies strictly between the cell's faces, never on one |
| Grid.GridCoordInjective | ao/src/render/brep/xtree.cpp:48-52 | on an axis of positive width, two grid coordinates are equal exactly when their indices are |
| Grid.Digit | ao/src/render/brep/xtree.cpp:61 | the unpacked digit `(i % R^(j+1)) / R^j` is below `R`, so `pts` is indexed in bounds |
| Grid.ValueDigits | ao/src/render/brep/xtree.cpp:56-62 | the first `n` digits of `i`, read back in base `R`, give `i mod R^n` |
| Grid.DigitsRoundTrip | ao/src/render/brep/xtree.cpp:56-62 | for `i < R^n`, packing the digits of `i` gives `i` again |
| Grid.DigitsInjective | ao/src/render/brep/xtree.cpp:56-62 | on `[0, R^n)` two indices have the same digit tuple exactly when they are equal |
| Grid.ValueBelow | ao/src/render/brep/xtree.cpp:56-62 | digits each below `R` pack to a number below `R^n`, a valid sample index |
| Grid.DigitsOfValue | ao/src/render/brep/xtree.cpp:56-62 | every tuple of per-axis indices below `R` is the digit tuple of an index below `R^n`, so unpacking is onto the grid |
| Regions.Lower3 | ao/src/render/brep/xtree.cpp:10 | the lower corner in 3-space: the N coordinates followed by `perp` |
| Regions.Upper3 | ao/src/render/brep/xtree.cpp:10 | the upper corner in 3-space: the N coordinates followed by `perp` |
| Regions.Center | ao/src/render/brep/xtree.cpp:44 | the centre has one coordinate per axis, each equally far from both faces |
| Regions.Child | ao/src/render/brep/xtree.cpp:15 | a child has the parent's dimension and `perp` |
| Regions.Subdivide | ao/src/render/brep/xtree.cpp:15-16 | exactly `2^N` sub-regions, sub-region `i` being child `i` |
| Regions.ChildInside | ao/src/render/brep/xtree.cpp:15 | every point of a child lies in its parent |
| Regions.ChildrenMeetOnFaces | ao/src/render/brep/xtree.cpp:15-16 | two distinct children below `2^N` share only face points: a point in both lies on the midplane of some axis |
| Regions.SubdivideCovers | ao/src/render/brep/xtree.cpp:15-16 | every point of the region lies in some child with index below `2^N` |
| Evaluators.Evaluator.Eval | ao/src/render/brep/xtree.cpp:10 | records the box of the interval evaluation; the context stack is unchanged |
| Evaluators.Evaluator.Push | ao/src/render/brep/xtree.cpp:11 | pushes one context holding the latest box |
| Evaluators.Evaluator.Pop | ao/src/render/brep/xtree.cpp:24 | removes exactly the innermost context |
| Evaluators.Evaluator.Set | ao/src/render/brep/xtree.cpp:67 | stages a point in slot `i` and changes no other slot |
| Evaluators.Evaluator.Derivs | ao/src/render/brep/xtree.cpp:71 | for each of the first `count` slots, the value and the three partial derivatives at the staged point |
| Qef.TargetMeaning | ao/src/render/brep/xtree.cpp:85-89 | `b(i) = Σ_j grad_j (pos_j − center_j) − value`: the product of `[grad_N, -1]` with `[pos − center, value]` |
| Qef.InnerMinus | ao/src/render/brep/xtree.cpp:86-89 | the product with a difference of offsets is the difference of the products |
| Qef.RowError | ao/src/render/brep/xtree.cpp:89-101 | at a solution `s`, row error `A(i) s − b(i)` is the gradient's product with (vertex − sample) plus the value, minus the level `s[N]`, where vertex is `s[..N] + center` |
| Qef.Residual | ao/src/render/brep/xtree.cpp:101-102 | the squared norm of `A sol − b` is never negative |
| XTrees.SamplePosition | ao/src/render/brep/xtree.cpp:48-62 | on a region of positive width every sample position lies strictly inside the region on each of its N axes, never on a face |
| XTrees.SamplePoint | ao/src/render/brep/xtree.cpp:64-66 | the staged 3-space point has the region's three coordinates |
| XTrees.SampleInside | ao/src/render/brep/xtree.cpp:48-66 | each staged point is strictly inside the region on its N axes and carries `perp` on the remaining `3 − N` |
| XTrees.SamplesDistinct | ao/src/render/brep/xtree.cpp:56-67 | on a proper region, samples `i, k < R^N` have the same position exactly when `i = k` |
| XTrees.SamplesCoverGrid | ao/src/render/brep/xtree.cpp:56-67 | every grid point is the position of some sample with index below `R^N` (with the previous row: each exactly once) |
| XTrees.FitRowError | ao/src/render/brep/xtree.cpp:76-101 | for the fitted solution, the error of sample `i`'s row is the stored vertex's offset from that sample's tangent plane, against the solved level |
| XTrees.GridPoints | ao/src/render/brep/xtree.cpp:45-52 | a fresh `R × N` array with `pts[i, j]` the grid coordinate `i` on axis `j` |
| XTrees.StagePositions | ao/src/render/brep/xtree.cpp:55-68 | `positions[i, j]` is sample `i`'s coordinate on axis `j`; slot `i < R^N` holds sample `i`'s 3-space point; slots from `R^N` up are unchanged |
| XTrees.SetRow | ao/src/render/brep/xtree.cpp:81-82 | row `i` of `A` becomes the gradient's first N components followed by `-1`; no other row changes |
| XTrees.LoadRow | ao/src/render/brep/xtree.cpp:78-89 | row `i` of `A` and entry `b(i)` become sample `i`'s QEF row and target; nothing else in `A` or `b` changes |
| XTrees.LoadQef | ao/src/render/brep/xtree.cpp:74-90 | fresh `A` (`R^N × (N+1)`) and `b` (`R^N`) whose rows and entries are the QEF rows and targets of every sample, in sample order |
| XTrees.XTree.FindVertex | ao/src/render/brep/xtree.cpp:33-106 | requires `R^N` below the buffer capacity (the static_assert); stages every sample; stores `vert` = the solution's first N components plus the centre; reports the acceptance of the residual of `A sol − b` |
| XTrees.XTree.Fit | ao/src/render/brep/xtree.cpp:10-13 | exactly one context is pushed, holding the region's 3-space box; then the vertex is fitted as `FindVertex` states |
| XTrees.XTree.constructor | ao/src/render/brep/xtree.cpp:5-25 | the evaluator's context stack is left as it was; the node's region, dimension and vertex are set; there are `2^N` child slots, and slot `i` holds a node for sub-region `i` exactly when the fit was refused, the depth budget allows it and sub-region `i` is non-empty; otherwise it is null |
| XTrees.BuildAccepting | ao/src/render/brep/xtree.cpp:5-25 | under the original's accept-every-fit policy (`findVertex` returns `true`, line 105) the node is fitted, the context stack is balanced, and all `2^N` child slots are null: every node is a leaf |
| XTrees.BuildChildren | ao/src/render/brep/xtree.cpp:15-22 | `2^N` fresh slots in sub-region order, slot `i` being a node for sub-region `i` exactly when it is non-empty; the context stack is balanced across the recursive builds |
| Cones.Decide | libfive/test/feature.cpp:25-95 | the Fourier–Motzkin procedure returns exactly `Feasible(ds, k)`: some point lies strictly on the positive side of every direction |
| Cones.EliminateExact | libfive/test/feature.cpp:25-95 | eliminating one coordinate preserves feasibility in both directions |
| Cones.Refuted | libfive/test/feature.cpp:84-95 | a Gordan certificate (non-negative, not-all-zero weights summing the directions to zero) proves the directions infeasible |
| Features.ZeroInfeasible | libfive/test/feature.cpp:27-31 | no set holding the zero direction is feasible |
| Features.AntipodalInfeasible | libfive/test/feature.cpp:32-37 | no set holding a direction and its exact opposite is feasible |
| Features.FeasibleSubset | libfive/test/feature.cpp:84-95 | a set whose directions all occur in a feasible one is feasible |
| Features.RepeatFeasible | libfive/test/feature.cpp:50-52 | appending an already-held direction changes nothing about feasibility |
| Features.Feature.constructor | libfive/test/feature.cpp:29 | a fresh Feature holds no direction and is valid |
| Features.Feature.Check | libfive/test/feature.cpp:74-78 | `check(d)` is `Feasible(dirs + [d])`; as a function of the state it stores nothing |
| Features.Feature.CheckFeature | libfive/test/feature.cpp:94 | `check(other)` is the feasibility of the union of both Features' directions |
| Features.Feature.Push | libfive/test/feature.cpp:30-54 | `push(d)` returns `Feasible(dirs + [d])`, appends `d` exactly when it returns true, and keeps the held set feasible |
| FeatureTests.PushZero | libfive/test/feature.cpp:27-31 | pushing the zero vector into a fresh Feature returns false |
| FeatureTests.Antipodal | libfive/test/feature.cpp:32-37 | `(1,0,0)` is accepted, then `(-1,0,0)` is refused |
| FeatureTests.SeparableOctant | libfive/test/feature.cpp:40-45 | the three axes and `(1,1,1)` are accepted, then `(-1,-1,-1)` is refused |
| FeatureTests.SeparableRepeated | libfive/test/feature.cpp:47-54 | the answers `true ×5, false, true`: repeats are accepted, and after `(-1,1,1)` is refused, `(1,-1,-1)` is still accepted |
| FeatureTests.NearParallel | libfive/test/feature.cpp:57-64 | `(1,0,-1)`, `(1,0,1)`, `(1,0,-1)` are all accepted |
| FeatureTests.FlatPlane | libfive/test/feature.cpp:67-79 | both `(0,-1,0)` and `(0,1,0)` check true; `(0,1,0)` is then pushed, after which `(0,-1,0)` checks false |
| FeatureTests.Tetrahedron | libfive/test/feature.cpp:84-95 | two Features of two directions each are built with every push accepted, and `a.check(b)` is false |

## Left out

- `_pow` and `1 << N` are 32-bit unsigned in the original. The model's integers are unbounded, so wrap-around is not modelled.
- Coordinates, gradients and QEF entries are `float` in the original and exact `real` here; rounding is not modelled.
- The Jacobi SVD least-squares solve (xtree.cpp:93-94) is the parameter `solve`. The only assumption about it is that it returns `N + 1` unknowns (`SolverShape`). That the result minimises the residual is not modelled.
- The `std::cout` prints of the vertex and residual (xtree.cpp:99, 102) are output only and are left out.
- XTrees.XTree.FindVertex: returns `accept` of the residual rather than the original's unconditional `true` (xtree.cpp:105). The original is the case `accept ≡ true`, for which `XTrees.BuildAccepting` proves every node a leaf.
- XTrees.XTree.constructor: takes a `depth` budget that bounds the recursion, so termination can be proved. The original recurses without one, which is harmless only because its fit never fails.
- The sample resolution `R` is a parameter of the constructor. Its default comes from the class header, and xtree.hpp is not part of this model. `R = 0` is excluded (`R > 0`).
- `Region<N>` (xtree.hpp and the region header are not part of this model) follows its documented behaviour:
  - `lower3`/`upper3` append `perp`;
  - `subdivide` returns the `2^N` halvings, with bit `j` of the child index choosing the upper half of axis `j`;
  - `empty` is the parameter `isEmpty`.
- The evaluator's internals (interval arithmetic, the simplification a pushed context enables, derivative computation) are not part of this model. The evaluator is reduced to a context stack, a slot buffer, and four given functions for the value and partial derivatives.
- The Feature class's own source (libfive/eval/feature.hpp and its implementation) is not part of this model.
  - Its behaviour is taken from the tests.
  - The separability test is an exact decision procedure over integer directions, not the original's floating-point one.
  - The Feature's vertex argument (always the origin in the tests) is stored but plays no part.
- The √2 "numerical instability" case (feature.cpp:57-64) depends on float rounding. It is modelled by its exact integer form `(1,0,-1)`, `(1,0,1)`, `(1,0,-1)`.
- ao/test/bounds.cpp, ao/test/marching.cpp and gui/include/gui/shader.hpp are not part of this model. They cover interval bounds over expression trees, the marching-cubes table and GUI shader code.
- Parallel construction of sibling subtrees is not modelled; the construction here is sequential, as in the original.
