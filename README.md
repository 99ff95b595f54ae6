# Scene sampling and vector algebra of a Go path tracer, in Dafny

This project models two files of a Monte Carlo path tracer written in Go.

- `pt/vector.go` defines the immutable three-component `Vector`.
- `pt/scene.go` defines the `Scene`, which covers:
  - append-only registration of shapes and lights;
  - a `Compile` step that builds each acceleration tree only once;
  - intersection dispatch with the rule that a shape in front of a light hides it;
  - the shadow test;
  - the direct-light estimate averaged over all lights;
  - the depth-bounded recursive path sampler;
  - the stratified `n × n` per-pixel sampler.

Go's `Color` type and its methods are defined outside these two files. As a modelling choice, a color is a `Vector` with red, green and blue as x, y and z. So `Color`'s `Min`, `Add`, `Mul`, `MulScalar` and `DivScalar` are assumed to be componentwise, like `Vector`'s. Its `Mix` is a collaborator (see below).

Go's `float64` is modelled as Dafny's `real`. The modules are:

- `Vectors` (`vectors.dfy`): the vector algebra, as functions on the `Vector` datatype.
- `Rand` (`rand.dfy`): the random source. It is an infinite stream of draws in [0,1) plus the position of the next draw. The order in which the sampler consumes draws is therefore explicit, and results can be replayed deterministically.
- `Grid` (`grid.dfy`): integer arithmetic used by the pixel sampler:
  - `int(math.Sqrt(float64(samples)))`, modelled as the exact integer square root;
  - the jitter of a draw into its grid cell;
  - row-major cell numbering.
- `Scenes` (`scene.dfy`):
  - `Scene` is a class. Its `shapes` and `lights` fields are sequences, and its trees are optional.
  - The tree queries, `DirectLight`, `RecursiveSample` and `Sample` read those fields.
  - `DirectLight` and `Sample` keep their loops. Each is proved against a specification function: `DirectEstimate` for `DirectLight`, and `Stratum`, `Strata` and `Total` for `Sample`.

Code that `pt/scene.go` calls but does not define is supplied as uninterpreted total functions held in the `Env` datatype. This covers:

- `Tree.Intersect`, `Hit.Info`, `Shape.RandomPoint` and `Shape.Color`;
- `Ray.Bounce`, `Material.Tint` and `Color.Mix`;
- `math.Sqrt`.

`Scene.LightProbability` is defined in `pt/scene.go:58-65`, but it is kept opaque. It is also a field of `Env`, because its trigonometry cannot be expressed over Dafny's reals.

A tree is known by the shapes it was built from: `NewTree(shapes)` is `Tree(shapes)`. Go's `NoHit` sentinel is the `NoHit` variant. Its `T` is defined outside these files. The model assumes it lies beyond every distance it is compared with, so `Hit.Before(d)`, Go's `hit.T < d`, never holds for the sentinel. Each `Shape.Compile` call is recorded in the ghost field `compileLog`.

The nonnegativity lemmas assume `NonNegativeCollaborators(env)`:

- shading colors, light colors and light weights are never negative;
- tints lie in [0,1];
- mixing keeps nonnegative colors nonnegative.

## Model

| member | source | states |
|---|---|---|
| Vectors.Vector.Cross | pt/vector.go:19-24 | the cross product is orthogonal to both of its factors |
| Vectors.Vector.Sub | pt/vector.go:35-37 | adding `b` back to `a.Sub(b)` gives `a` |
| Vectors.Vector.Div | pt/vector.go:43-45 | for nonzero divisor components, multiplying the quotient back by the divisor gives the dividend |
| Vectors.Vector.DivScalar | pt/vector.go:51-53 | for a nonzero scalar, scaling the quotient back by it gives the vector |
| Vectors.Vector.Min | pt/vector.go:55-57 | the result is componentwise at most both arguments and equals one of them on every axis |
| Vectors.Vector.Max | pt/vector.go:59-61 | the result is componentwise at least both arguments and equals one of them on every axis |
| Vectors.Vector.Reflect | pt/vector.go:63-65 | for a unit normal, the reflected vector's component along the normal is the negated original component |
| Vectors.Vector.MinAxis | pt/vector.go:67-76 | returns a standard basis vector on an axis of smallest absolute component; Y only when \|y\| < \|x\|, Z only when \|z\| is strictly below both |
| Vectors.Vector.Normalize | pt/vector.go:26-29 | for a nonzero length, the result scaled by the length is the original vector |
| Vectors.Vector.Dot | pt/vector.go:15-17 | no contract of its own; `DotSymmetric` and `DotSelfNonNegative` characterise it |
| Vectors.Vector.Add | pt/vector.go:31-33 | no contract of its own; `AddCommutative` and `AddSubCancel` characterise it, and `Sub`'s contract undoes it |
| Vectors.Vector.Mul | pt/vector.go:39-41 | no contract of its own; `MulCommutative` characterises it, and `Div`'s contract undoes it |
| Vectors.Vector.MulScalar | pt/vector.go:47-49 | no contract of its own; `MulScalarDivScalar` characterises it, and `DivScalar`'s contract undoes it |
| Vectors.Vector.Length | pt/vector.go:11-13 | no contract of its own, since the square root is supplied; `NormalizeUnit` characterises it |
| Vectors.DotSelfNonNegative | pt/vector.go:11-17 | a vector's dot product with itself, the squared length under the root, is never negative |
| Vectors.AddCommutative | pt/vector.go:31-33 | `a.Add(b) == b.Add(a)` |
| Vectors.AddSubCancel | pt/vector.go:31-37 | `a.Add(b).Sub(b) == a` |
| Vectors.DotSymmetric | pt/vector.go:15-17 | `a.Dot(b) == b.Dot(a)` |
| Vectors.MulCommutative | pt/vector.go:39-41 | `a.Mul(b) == b.Mul(a)` |
| Vectors.CrossAntiCommutative | pt/vector.go:19-24 | `a.Cross(b)` is `b.Cross(a)` negated |
| Vectors.MinIdempotent | pt/vector.go:55-61 | `a.Min(a) == a` and `a.Max(a) == a` |
| Vectors.MulScalarDivScalar | pt/vector.go:47-53 | for nonzero `b`, `a.MulScalar(b).DivScalar(b) == a` |
| Vectors.ReflectInvolution | pt/vector.go:63-65 | reflecting twice about the same unit normal gives back the original vector |
| Vectors.NormalizeUnit | pt/vector.go:26-29 | a nonzero vector, normalized (dividing by `Length`, pt/vector.go:11-13) with a square root that is exact at its squared length, has unit length |
| Vectors.NonNegativeClosed | pt/vector.go:31-53 | sums, products, nonnegative multiples and positive quotients of nonnegative vectors are nonnegative |
| Grid.ISqrt | pt/scene.go:122 | `n` is the integer square root of `samples`: `n*n <= samples < (n+1)*(n+1)` |
| Grid.Jitter | pt/scene.go:126-127 | for a draw in [0,1), the jittered coordinate of cell `u` lies in `[u/n, (u+1)/n)` |
| Grid.JitterOrdered | pt/scene.go:126-127 | jittered coordinates of a lower cell lie strictly below those of a higher cell, so the cells do not overlap |
| Grid.RowMajor | pt/scene.go:123-124 | the `(u, v)` loop visits index `u*n + v`, which is below `n*n` and recovers `u` and `v` by division and remainder |
| Grid.CellsDistinct | pt/scene.go:123-124 | two different indices below `n*n` name two different cells |
| Scenes.Clamp | pt/scene.go:102 | the clamped indirect color is at most 1 per channel and at most the raw color, and each channel is either 1 or the raw value |
| Scenes.Cosine | pt/scene.go:76 | the cosine factor is never negative, and it is either 0 or the dot product |
| Scenes.TotalNonNegative | pt/scene.go:121-137 | a running sum of nonnegative colors is nonnegative |
| Scenes.Scene.constructor | pt/scene.go:8-13 | a new scene has no shapes, no lights and no trees |
| Scenes.Scene.Compile | pt/scene.go:15-28 | compiles every shape, then every light, in registration order; builds each tree from the current list only if it is absent and keeps an existing one; both trees exist afterwards, so a second `Compile` leaves the trees unchanged |
| Scenes.Scene.AddShape | pt/scene.go:30-32 | appends exactly one shape at the end; the lights and both trees are unchanged |
| Scenes.Scene.AddLight | pt/scene.go:34-36 | appends exactly one light at the end; the shapes and both trees are unchanged |
| Scenes.Scene.IntersectShapes | pt/scene.go:38-40 | no contract of its own: the shape tree's answer; `Shadow`, `IntersectLights`, `RecursiveSample` and `Sample` state their results in its terms |
| Scenes.Scene.IntersectLights | pt/scene.go:42-51 | returns either `NoHit` or the light tree's hit; returns `NoHit` exactly when the light tree reports a hit and a shape is hit strictly closer |
| Scenes.Scene.Shadow | pt/scene.go:53-56 | true exactly when the shape tree reports a hit whose distance is strictly below `max` |
| Scenes.Scene.LightSample | pt/scene.go:70-78 | one light's term: consumes exactly the light's point sample; black when the sample is shadowed; otherwise the light's color at the point, weighted by the cosine factor and the light probability |
| Scenes.Scene.DirectSum | pt/scene.go:68-79 | no contract of its own: the running sum of the loop over the lights; `DirectSumStep`, `ShadowedLightAddsNothing`, `AllOccludedSumIsBlack` and `DirectSumNonNegative` characterise it |
| Scenes.Scene.DirectEstimate | pt/scene.go:67-81 | the estimate multiplied by the number of lights is the in-order sum of the lights' terms; the random source ends where the last light stopped |
| Scenes.Scene.DirectLight | pt/scene.go:67-81 | the loop over the lights computes exactly `DirectEstimate` |
| Scenes.Scene.DirectSumStep | pt/scene.go:69-79 | one more loop iteration adds the next light's term, drawn where the previous lights stopped |
| Scenes.Scene.LightSampleNonNegative | pt/scene.go:70-78 | one light's term is never negative |
| Scenes.Scene.DirectSumNonNegative | pt/scene.go:67-79 | the running direct-light sum is never negative |
| Scenes.Scene.DirectEstimateNonNegative | pt/scene.go:67-81 | the direct-light estimate is never negative |
| Scenes.Scene.ShadowedLightAddsNothing | pt/scene.go:73-75 | a light whose sample fails the shadow test leaves the sum's color unchanged |
| Scenes.Scene.AllOccludedSumIsBlack | pt/scene.go:67-79 | if every light's sample is shadowed, the sum is black |
| Scenes.Scene.DirectEstimateInShadow | pt/scene.go:67-81 | if every light's sample is shadowed, the point receives no direct light |
| Scenes.Scene.RecursiveSample | pt/scene.go:83-110 | black with no draws at negative depth; after a specular bounce that reaches an unoccluded light, that light's shading color with no draws; black with no draws when no shape is hit; otherwise one bounce (`Scatter`) at the shape hit, with the scalar, `u` and `v` taken from the next three draws in that order, and the source three draws further on |
| Scenes.Scene.RecursiveSampleNonNegative | pt/scene.go:83-110 | at every depth the path sampler returns nonnegative light |
| Scenes.Scene.Scatter | pt/scene.go:99-109 | no contract of its own: one bounce, shared by `RecursiveSample` and `Sample` (pt/scene.go:128-137); `ScatterNonNegative` characterises it, and the contracts of `RecursiveSample` and `Stratum` fix its draws |
| Scenes.Scene.ShadeNonNegative | pt/scene.go:102-108 | with nonnegative inputs, both the tinted result and the diffuse result (surface color times direct plus clamped indirect) are nonnegative |
| Scenes.Scene.ScatterNonNegative | pt/scene.go:99-109 | one bounce at a hit (tinted, or direct plus clamped indirect filtered by the surface color) returns nonnegative light |
| Scenes.Scene.Stratum | pt/scene.go:125-137 | cell `(u, v)` starts from the given random source; `p` is the next draw, and `fu` and `fv` are the jitters of the two draws after it, in that order; both lie inside the cell; the cell's color and final source are those of one bounce (`Scatter`) from the source three draws further on |
| Scenes.Scene.Sample | pt/scene.go:112-141 | black with no draws for a negative depth or a miss; otherwise exactly `n*n` strata in row-major order, each drawing where the previous one stopped, averaged over `n*n`, with `n` the integer square root of `samples` |
| Scenes.Scene.AppendStratum | pt/scene.go:123-138 | one more inner-loop iteration extends the walk by one stratum, adds its color to the sum and moves the random source to its end |
| Scenes.Scene.StrataInCells | pt/scene.go:123-128 | cell `k` of the walk is at row `k/n` and column `k%n`, both below `n`, and its jittered point lies inside that cell |
| Scenes.Scene.StrataCoverGrid | pt/scene.go:123-128 | a complete walk visits every cell of the `n*n` grid exactly once |
| Scenes.Scene.StrataPrefix | pt/scene.go:123-138 | every prefix of a walk is a walk |
| Scenes.Scene.StrataDeterministic | pt/scene.go:112-141 | two walks of the same length from the same scene, hit and random source are equal, so `Sample` replays deterministically |
| Scenes.Scene.StrataNonNegative | pt/scene.go:121-140 | the pixel average of a walk is never negative |

## Left out

- Floating point: rounding, NaN and infinities are not modelled, because `real` is exact.
- Scenes.Hit.Before: the `NoHit` sentinel is a datatype variant taken to lie beyond every distance. If Go's sentinel `T` is a finite constant, a miss compared with a distance at or beyond that constant is not modelled: in Go, `Shadow` would then hold on a miss.
- Vectors.Vector.Normalize: Go divides a zero-length vector by zero, which gives NaN components. The model returns the vector unchanged, so nothing is claimed about that case.
- `Length` and `Normalize` take the square root as a parameter, because Dafny's reals have no `math.Sqrt`. `NormalizeUnit` assumes that square root is exact at the one value it needs.
- `Scene.LightProbability` (pt/scene.go:58-65) is the collaborator `env.lightProbability`:
  - its `Box`, `Center`, `Atan2` and `Cos` computation is not modelled, because Dafny's reals have no trigonometry;
  - its [0,1) range is not claimed;
  - the nonnegativity lemmas assume only that it is nonnegative.
- Tree internals, `Shape`, `Material`, `Hit.Info`, `Ray.Bounce` and `Color.Mix` are not part of this model. They are uninterpreted functions in `Env`, and the nearest-hit contract of the trees is not assumed.
- `Shape.Compile` is recorded only as the ghost log `compileLog`. What it precomputes is not part of this model.
- Scenes.Scene.DirectLight requires at least one light. `pt/scene.go:80` divides by `len(s.lights)` without a guard, which gives NaN for an empty list. The model follows the code and excludes the empty list rather than inventing a result.
- Scenes.Scene.RecursiveSample and Scenes.Scene.Sample require at least one light whenever `depth >= 0`. This holds even on a miss or an all-specular path, where Go never divides by the light count and returns a defined color (pt/scene.go:94-96, 116-118). The requirement follows from excluding the empty light list in `DirectLight`. It keeps one precondition, `Ready()`, for every path that may reach a diffuse bounce.
- Queries made before `Compile` are not modelled. `IntersectShapes`, `IntersectLights`, `Shadow` and everything built on them require `Compiled()`. In Go, such a query calls `Intersect` on a nil tree (pt/scene.go:39, 43, 54), and what happens then depends on tree code that is not part of this model.
- Scenes.Scene.Sample requires `samples >= 1` whenever `depth >= 0`, including on a miss, where Go returns black before it computes `n`. On a hit, `samples == 0` gives `n == 0` and a final division 0/0 (NaN). A negative `samples` converts the NaN of `math.Sqrt` to an integer, and Go leaves that result implementation-dependent. The model excludes both rather than inventing a result.
- `int(math.Sqrt(float64(samples)))` is modelled as the exact integer square root. Float rounding for very large `samples` is not captured.
- Go's `int` is modelled as an unbounded integer. The depth and the sample counts do not wrap around.
- Scenes.Scene.RecursiveSample: in the bounce case, its contract names the three draws and the bounce (`Scatter`) but says nothing further about the color. `RecursiveSampleNonNegative` bounds that color.
- Scenes.Scene.IntersectShapes, Scenes.Scene.DirectSum and Scenes.Scene.Scatter carry no contract of their own. The first only forwards to the tree. The other two are described by the lemmas about them (see their rows).
- `rand.Rand` is a stream of draws. Its uniformity, and the statistical properties of the estimate (convergence, variance), are not modelled.
- Concurrent rendering, the camera and image output are not part of this model.
