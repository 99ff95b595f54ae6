/**
 * The scene of the path tracer (pt/scene.go): registration of shapes and
 * lights, the build-once acceleration trees, intersection dispatch, direct
 * light estimation, the depth-bounded recursive path sampler and the
 * stratified per-pixel sampler.
 *
 * Everything the scene calls but does not define (the trees' nearest-hit
 * query, shape sampling and color, hit shading, material bounce, color mixing,
 * the light weighting and the square root) is a field of `Env`: an
 * uninterpreted total function, fixed for one rendering.
 */
module Scenes {
  import opened Vectors
  import opened Rand
  import Grid

  /** Colors share the representation of vectors: red, green and blue are x, y and z. */
  type Color = Vector

  /** `Color{}`: no light. */
  const Black: Color := Zero

  /** `Color{1, 1, 1}`: the clamping bound of indirect light. */
  const White: Color := Vector(1.0, 1.0, 1.0)

  /** A shape of the scene; its geometry lives behind `Env`. */
  type Shape(!new)

  /** A surface material; only its tint is read here, through `Env`. */
  type Material(!new)

  datatype Option<T> = None | Some(value: T)

  datatype Ray = Ray(origin: Vector, direction: Vector)

  /**
   * The result of a nearest-hit query. `NoHit` is the miss sentinel; its distance
   * is defined elsewhere and taken to lie beyond every distance it is compared with.
   */
  datatype Hit = NoHit | Hit(shape: Shape, t: real) {

    predicate Ok() { Hit? }

    /** Go's `hit.T < d`, with the sentinel taken to lie beyond every `d`. */
    predicate Before(d: real) { Hit? && t < d }
  }

  /** What `Hit.Info` derives at a hit: the outgoing basis ray, the surface color and the material. */
  datatype HitInfo = HitInfo(ray: Ray, color: Color, material: Material)

  /** An acceleration tree, known by the shapes it was built from: `NewTree(shapes)` is `Tree(shapes)`. */
  datatype Tree = Tree(shapes: seq<Shape>)

  /** The collaborators of the scene. */
  datatype Env = Env(
    intersect: (Tree, Ray) -> Hit,                                // Tree.Intersect
    info: (Hit, Ray) -> HitInfo,                                  // Hit.Info
    randomPoint: (Shape, Rng) -> (Vector, Rng),                   // Shape.RandomPoint
    shapeColor: (Shape, Vector) -> Color,                         // Shape.Color
    lightProbability: (Shape, Vector) -> real,                    // Scene.LightProbability
    bounce: (Ray, Ray, Material, real, real, real) -> (Ray, bool), // Ray.Bounce
    tint: Material -> real,                                       // Material.Tint
    mix: (Color, Color, real) -> Color,                           // Color.Mix
    sqrt: real -> real)                                           // math.Sqrt

  /** A color together with the random source after the draws that produced it. */
  datatype Sampled = Sampled(color: Color, rng: Rng)

  /**
   * One stratum of the pixel sampler: grid cell `(u, v)`, the bounce's scalar
   * draw `p`, the jittered coordinates `(fu, fv)`, the random source before and
   * after, and the color the cell contributes.
   */
  datatype Cell = Cell(u: nat, v: nat, p: real, fu: real, fv: real, before: Rng, after: Rng, color: Color)

  /** The termination measure of the sampler: what remains of the depth budget. */
  function Budget(depth: int): nat {
    if depth < 0 then 0 else depth + 1
  }

  /** `indirect.Min(Color{1, 1, 1})`: firefly suppression, at most 1 per channel and never brighter than its input. */
  function Clamp(c: Color): (r: Color)
    ensures r.AtMost(White) && r.AtMost(c)
    ensures (r.x == 1.0 || r.x == c.x) && (r.y == 1.0 || r.y == c.y) && (r.z == 1.0 || r.z == c.z)
  {
    c.Min(White)
  }

  /** `math.Max(0, l.Dot(n))`: the cosine factor of direct light, never negative. */
  function Cosine(l: Vector, n: Vector): (c: real)
    ensures c >= 0.0 && c >= l.Dot(n)
    ensures c == 0.0 || c == l.Dot(n)
  {
    MaxReal(0.0, l.Dot(n))
  }

  /** The running sum of the pixel sampler: cell colors added in order from black. */
  function Total(cells: seq<Cell>): Color {
    if cells == [] then Black
    else Total(cells[..|cells| - 1]).Add(cells[|cells| - 1].color)
  }

  /** The random source after the given cells, starting from `rnd`. */
  function After(rnd: Rng, cells: seq<Cell>): Rng {
    if cells == [] then rnd else cells[|cells| - 1].after
  }

  /**
   * Collaborators that never produce negative light: nonnegative shading and
   * light colors, nonnegative light weights, tints in [0,1], and a mix that
   * keeps nonnegative colors nonnegative for such tints.
   */
  ghost predicate NonNegativeCollaborators(env: Env) {
    && (forall h: Hit, r: Ray :: env.info(h, r).color.NonNegative())
    && (forall s: Shape, p: Vector :: env.shapeColor(s, p).NonNegative())
    && (forall s: Shape, p: Vector :: env.lightProbability(s, p) >= 0.0)
    && (forall m: Material :: 0.0 <= env.tint(m) <= 1.0)
    && (forall a: Color, b: Color, t: real ::
          a.NonNegative() && b.NonNegative() && 0.0 <= t <= 1.0 ==> env.mix(a, b, t).NonNegative())
  }

  lemma {:induction false} TotalNonNegative(cells: seq<Cell>)
    requires forall k :: 0 <= k < |cells| ==> cells[k].color.NonNegative()
    ensures Total(cells).NonNegative()
  {
    if cells != [] {
      TotalNonNegative(cells[..|cells| - 1]);
    }
  }

  class Scene {
    var shapes: seq<Shape>
    var lights: seq<Shape>
    var shapeTree: Option<Tree>
    var lightTree: Option<Tree>
    /** The per-shape `Compile` calls made so far, in the order they were made. */
    ghost var compileLog: seq<Shape>

    /** The zero `Scene{}`: nothing registered, no trees. */
    constructor ()
      ensures shapes == [] && lights == [] && shapeTree == None && lightTree == None
      ensures compileLog == []
    {
      shapes, lights := [], [];
      shapeTree, lightTree := None, None;
      compileLog := [];
    }

    /** Both trees exist: the scene can be queried. */
    predicate Compiled()
      reads this
    {
      shapeTree.Some? && lightTree.Some?
    }

    /** Compiled, with at least one light to average over. */
    predicate Ready()
      reads this
    {
      Compiled() && |lights| > 0
    }

    /**
     * Compiles every shape and then every light, in registration order, and
     * builds each tree only if it does not exist yet.
     */
    method Compile()
      modifies this
      ensures shapes == old(shapes) && lights == old(lights)
      ensures compileLog == old(compileLog) + shapes + lights
      ensures shapeTree == if old(shapeTree).Some? then old(shapeTree) else Some(Tree(shapes))
      ensures lightTree == if old(lightTree).Some? then old(lightTree) else Some(Tree(lights))
      ensures Compiled()
    {
      for i := 0 to |shapes|
        invariant shapes == old(shapes) && lights == old(lights)
        invariant shapeTree == old(shapeTree) && lightTree == old(lightTree)
        invariant compileLog == old(compileLog) + shapes[..i]
      {
        compileLog := compileLog + [shapes[i]];
      }
      assert shapes[..|shapes|] == shapes;
      for i := 0 to |lights|
        invariant shapes == old(shapes) && lights == old(lights)
        invariant shapeTree == old(shapeTree) && lightTree == old(lightTree)
        invariant compileLog == old(compileLog) + shapes + lights[..i]
      {
        compileLog := compileLog + [lights[i]];
      }
      assert lights[..|lights|] == lights;
      if shapeTree.None? {
        shapeTree := Some(Tree(shapes));
      }
      if lightTree.None? {
        lightTree := Some(Tree(lights));
      }
    }

    /** Appends one shape; nothing else changes. */
    method AddShape(shape: Shape)
      modifies this
      ensures shapes == old(shapes) + [shape]
      ensures lights == old(lights) && shapeTree == old(shapeTree) && lightTree == old(lightTree)
      ensures compileLog == old(compileLog)
    {
      shapes := shapes + [shape];
    }

    /** Appends one light; nothing else changes. */
    method AddLight(shape: Shape)
      modifies this
      ensures lights == old(lights) + [shape]
      ensures shapes == old(shapes) && shapeTree == old(shapeTree) && lightTree == old(lightTree)
      ensures compileLog == old(compileLog)
    {
      lights := lights + [shape];
    }

    /** The nearest hit among all shapes, as the shape tree reports it. */
    function IntersectShapes(env: Env, r: Ray): Hit
      reads this
      requires Compiled()
    {
      env.intersect(shapeTree.value, r)
    }

    /**
     * The nearest light along `r`, unless a shape is hit strictly closer:
     * geometry in front of a light hides it.
     */
    function IntersectLights(env: Env, r: Ray): (h: Hit)
      reads this
      requires Compiled()
      ensures h == NoHit || h == env.intersect(lightTree.value, r)
      ensures h.Ok() ==> !IntersectShapes(env, r).Before(h.t)
      ensures var light := env.intersect(lightTree.value, r);
              light.Ok() && !IntersectShapes(env, r).Before(light.t) ==> h == light
    {
      var hit := env.intersect(lightTree.value, r);
      if hit.Ok() && IntersectShapes(env, r).Before(hit.t) then NoHit else hit
    }

    /** Occlusion test: some shape is hit at a distance strictly below `max`. */
    function Shadow(env: Env, r: Ray, max: real): (b: bool)
      reads this
      requires Compiled()
      ensures b <==> (IntersectShapes(env, r).Ok() && IntersectShapes(env, r).t < max)
    {
      IntersectShapes(env, r).Before(max)
    }

    /** The shadow test of one light sample: the point drawn on `light` is hidden from `n.origin`. */
    predicate Occluded(env: Env, n: Ray, light: Shape, rnd: Rng)
      reads this
      requires Compiled()
    {
      var p := env.randomPoint(light, rnd).0;
      var d := p.Sub(n.origin);
      Shadow(env, Ray(n.origin, d.Normalize(env.sqrt)), d.Length(env.sqrt))
    }

    /**
     * What one light adds to the direct-light sum: nothing when its sample is
     * occluded, otherwise its color at the sample weighted by the cosine factor
     * and the light's probability.
     */
    function LightSample(env: Env, n: Ray, light: Shape, rnd: Rng): (s: Sampled)
      reads this
      requires Compiled()
      ensures s.rng == env.randomPoint(light, rnd).1
      ensures Occluded(env, n, light, rnd) ==> s.color == Black
      ensures !Occluded(env, n, light, rnd) ==>
                var p := env.randomPoint(light, rnd).0;
                var l := p.Sub(n.origin).Normalize(env.sqrt);
                s.color == env.shapeColor(light, p).MulScalar(Cosine(l, n.direction) * env.lightProbability(light, n.origin))
    {
      var (p, rest) := env.randomPoint(light, rnd);
      if Occluded(env, n, light, rnd) then Sampled(Black, rest)
      else
        var diffuse := Cosine(p.Sub(n.origin).Normalize(env.sqrt), n.direction);
        var probability := env.lightProbability(light, n.origin);
        Sampled(env.shapeColor(light, p).MulScalar(diffuse * probability), rest)
    }

    /** The direct-light sum over `ls`, visited in order, each light drawing from where the previous one stopped. */
    function DirectSum(env: Env, n: Ray, ls: seq<Shape>, rnd: Rng): Sampled
      reads this
      requires Compiled()
      decreases |ls|
    {
      if ls == [] then Sampled(Black, rnd)
      else
        var prior := DirectSum(env, n, ls[..|ls| - 1], rnd);
        var term := LightSample(env, n, ls[|ls| - 1], prior.rng);
        Sampled(prior.color.Add(term.color), term.rng)
    }

    /** Every light of `ls` is occluded at the sample drawn for it. */
    ghost predicate AllOccluded(env: Env, n: Ray, ls: seq<Shape>, rnd: Rng)
      reads this
      requires Compiled()
      decreases |ls|
    {
      ls == [] ||
      (AllOccluded(env, n, ls[..|ls| - 1], rnd) &&
       Occluded(env, n, ls[|ls| - 1], DirectSum(env, n, ls[..|ls| - 1], rnd).rng))
    }

    /** The direct-light estimate: the mean over all lights of what each one adds. */
    function DirectEstimate(env: Env, n: Ray, rnd: Rng): (s: Sampled)
      reads this
      requires Ready()
      ensures s.color.MulScalar(|lights| as real) == DirectSum(env, n, lights, rnd).color
      ensures s.rng == DirectSum(env, n, lights, rnd).rng
    {
      var sum := DirectSum(env, n, lights, rnd);
      Sampled(sum.color.DivScalar(|lights| as real), sum.rng)
    }

    /**
     * The loop over the lights: each one, in registration order, adds what
     * `LightSample` says (nothing when occluded), and the sum is averaged.
     */
    method DirectLight(env: Env, n: Ray, rnd: Rng) returns (s: Sampled)
      requires Ready()
      ensures s == DirectEstimate(env, n, rnd)
    {
      var color := Black;
      var cur := rnd;
      for i := 0 to |lights|
        invariant color == DirectSum(env, n, lights[..i], rnd).color
        invariant cur == DirectSum(env, n, lights[..i], rnd).rng
      {
        DirectSumStep(env, n, lights, i, rnd);
        var term := LightSample(env, n, lights[i], cur);
        color := color.Add(term.color);
        cur := term.rng;
      }
      assert lights[..|lights|] == lights;
      s := Sampled(color.DivScalar(|lights| as real), cur);
    }

    /** Visiting one more light adds what it contributes, drawn where the previous lights stopped. */
    lemma DirectSumStep(env: Env, n: Ray, ls: seq<Shape>, i: nat, rnd: Rng)
      requires Compiled() && i < |ls|
      ensures var prior := DirectSum(env, n, ls[..i], rnd);
              var term := LightSample(env, n, ls[i], prior.rng);
              DirectSum(env, n, ls[..i + 1], rnd) == Sampled(prior.color.Add(term.color), term.rng)
    {
      assert ls[..i + 1][..i] == ls[..i] && ls[..i + 1][i] == ls[i];
    }

    /**
     * The radiance along `r` with `depth` bounces left; `reflected` says the
     * previous bounce was specular.
     */
    function RecursiveSample(env: Env, r: Ray, reflected: bool, depth: int, rnd: Rng): (s: Sampled)
      reads this
      requires depth >= 0 ==> Ready()
      ensures depth < 0 ==> s == Sampled(Black, rnd)
      ensures depth >= 0 && reflected && IntersectLights(env, r).Ok() ==>
                s == Sampled(env.info(IntersectLights(env, r), r).color, rnd)
      ensures depth >= 0 && !(reflected && IntersectLights(env, r).Ok()) && !IntersectShapes(env, r).Ok() ==>
                s == Sampled(Black, rnd)
      ensures depth >= 0 && !(reflected && IntersectLights(env, r).Ok()) && IntersectShapes(env, r).Ok() ==>
                s == Scatter(env, r, env.info(IntersectShapes(env, r), r),
                             rnd.stream(rnd.next), rnd.stream(rnd.next + 1), rnd.stream(rnd.next + 2),
                             depth, Rng(rnd.stream, rnd.next + 3))
      decreases Budget(depth), 1
    {
      if depth < 0 then Sampled(Black, rnd)
      else if reflected && IntersectLights(env, r).Ok() then
        Sampled(env.info(IntersectLights(env, r), r).color, rnd)
      else
        var hit := IntersectShapes(env, r);
        if !hit.Ok() then Sampled(Black, rnd)
        else
          var info := env.info(hit, r);
          var p := rnd.Float64();
          var u := p.rest.Float64();
          var v := u.rest.Float64();
          Scatter(env, r, info, p.value, u.value, v.value, depth, v.rest)
    }

    /**
     * One bounce at a hit, shared by `RecursiveSample` and `Sample`: bounce,
     * recurse with one bounce less, clamp the indirect light, then either tint
     * it (specular) or add the direct light and filter by the surface color
     * (diffuse).
     */
    function Scatter(env: Env, r: Ray, info: HitInfo, p: real, u: real, v: real, depth: int, rnd: Rng): Sampled
      reads this
      requires depth >= 0 && Ready()
      decreases Budget(depth), 0
    {
      var (newRay, reflected) := env.bounce(info.ray, r, info.material, p, u, v);
      var indirect := RecursiveSample(env, newRay, reflected, depth - 1, rnd);
      var clamped := Clamp(indirect.color);
      if reflected then
        Sampled(env.mix(clamped, info.color.Mul(clamped), env.tint(info.material)), indirect.rng)
      else
        var direct := DirectEstimate(env, info.ray, indirect.rng);
        Sampled(info.color.Mul(direct.color.Add(clamped)), direct.rng)
    }

    /**
     * Cell `(u, v)` of the `n * n` grid: three draws (the scalar, then the two
     * jitters), a jittered point inside the cell, and one bounce from it.
     */
    function Stratum(env: Env, r: Ray, info: HitInfo, depth: int, n: nat, u: nat, v: nat, rnd: Rng): (c: Cell)
      reads this
      requires depth >= 0 && Ready() && n > 0
      ensures c.u == u && c.v == v && c.before == rnd
      ensures c.p == rnd.stream(rnd.next)
      ensures c.fu == Grid.Jitter(u, n, rnd.stream(rnd.next + 1)) && c.fv == Grid.Jitter(v, n, rnd.stream(rnd.next + 2))
      ensures var s := Scatter(env, r, info, c.p, c.fu, c.fv, depth, Rng(rnd.stream, rnd.next + 3));
              c.color == s.color && c.after == s.rng
      ensures u as real / n as real <= c.fu < (u + 1) as real / n as real
      ensures v as real / n as real <= c.fv < (v + 1) as real / n as real
    {
      var p := rnd.Float64();
      var du := p.rest.Float64();
      var dv := du.rest.Float64();
      var fu := Grid.Jitter(u, n, du.value);
      var fv := Grid.Jitter(v, n, dv.value);
      var s := Scatter(env, r, info, p.value, fu, fv, depth, dv.rest);
      Cell(u, v, p.value, fu, fv, rnd, s.rng, s.color)
    }

    /** Cell `k` of the walk is the stratum of grid cell `(k / n, k % n)`, drawn where cell `k - 1` stopped. */
    ghost predicate StratumAt(env: Env, r: Ray, info: HitInfo, depth: int, n: nat, rnd: Rng, cells: seq<Cell>, k: nat)
      reads this
      requires depth >= 0 && Ready() && n > 0 && k < |cells|
    {
      cells[k] == Stratum(env, r, info, depth, n, k / n, k % n, After(rnd, cells[..k]))
    }

    /** `cells` are the first cells of the row-major walk over the `n * n` grid, each drawing where the previous stopped. */
    ghost predicate Strata(env: Env, r: Ray, info: HitInfo, depth: int, n: nat, rnd: Rng, cells: seq<Cell>)
      reads this
      requires depth >= 0 && Ready()
    {
      n > 0 && forall k: nat :: k < |cells| ==> StratumAt(env, r, info, depth, n, rnd, cells, k)
    }

    /**
     * The per-pixel sampler: zero for a negative depth or a miss; otherwise
     * `n * n` stratified bounces from the primary hit, `n` the integer square
     * root of `samples`, averaged.
     */
    method Sample(env: Env, r: Ray, samples: int, depth: int, rnd: Rng) returns (c: Color, rest: Rng, ghost cells: seq<Cell>)
      requires depth >= 0 ==> Ready() && samples >= 1
      ensures depth < 0 ==> c == Black && rest == rnd
      ensures depth >= 0 && !IntersectShapes(env, r).Ok() ==> c == Black && rest == rnd
      ensures depth < 0 || !IntersectShapes(env, r).Ok() ==> cells == []
      ensures depth >= 0 && IntersectShapes(env, r).Ok() ==>
                var n := Grid.ISqrt(samples);
                && |cells| == n * n
                && Strata(env, r, env.info(IntersectShapes(env, r), r), depth, n, rnd, cells)
                && rest == After(rnd, cells)
                && c == Total(cells).DivScalar((n * n) as real)
    {
      cells := [];
      if depth < 0 {
        return Black, rnd, cells;
      }
      var hit := IntersectShapes(env, r);
      if !hit.Ok() {
        return Black, rnd, cells;
      }
      var info := env.info(hit, r);
      var result := Black;
      var cur := rnd;
      var n := Grid.ISqrt(samples);
      assert n > 0;
      var u := 0;
      while u < n
        invariant 0 <= u <= n
        invariant |cells| == u * n
        invariant Strata(env, r, info, depth, n, rnd, cells)
        invariant result == Total(cells) && cur == After(rnd, cells)
      {
        var v := 0;
        while v < n
          invariant 0 <= v <= n
          invariant |cells| == u * n + v
          invariant Strata(env, r, info, depth, n, rnd, cells)
          invariant result == Total(cells) && cur == After(rnd, cells)
        {
          Grid.RowMajor(n, u, v);
          var cell := Stratum(env, r, info, depth, n, u, v, cur);
          AppendStratum(env, r, info, depth, n, rnd, cells, cell);
          result := result.Add(cell.color);
          cur := cell.after;
          cells := cells + [cell];
          v := v + 1;
        }
        assert u * n + n == (u + 1) * n;
        u := u + 1;
      }
      assert |cells| == n * n;
      c := result.DivScalar((n * n) as real);
      rest := cur;
    }

    /** Extending the walk by the stratum of the next index keeps it a walk; sums and random sources follow. */
    lemma AppendStratum(env: Env, r: Ray, info: HitInfo, depth: int, n: nat, rnd: Rng, cells: seq<Cell>, cell: Cell)
      requires depth >= 0 && Ready()
      requires Strata(env, r, info, depth, n, rnd, cells)
      requires cell == Stratum(env, r, info, depth, n, |cells| / n, |cells| % n, After(rnd, cells))
      ensures Strata(env, r, info, depth, n, rnd, cells + [cell])
      ensures Total(cells + [cell]) == Total(cells).Add(cell.color)
      ensures After(rnd, cells + [cell]) == cell.after
    {
      var cells' := cells + [cell];
      assert cells'[..|cells|] == cells;
      forall k: nat | k < |cells'|
        ensures StratumAt(env, r, info, depth, n, rnd, cells', k)
      {
        if k < |cells| {
          assert StratumAt(env, r, info, depth, n, rnd, cells, k);
          assert cells'[k] == cells[k] && cells'[..k] == cells[..k];
        }
      }
    }

    lemma LightSampleNonNegative(env: Env, n: Ray, light: Shape, rnd: Rng)
      requires Compiled() && NonNegativeCollaborators(env)
      ensures LightSample(env, n, light, rnd).color.NonNegative()
    {
      var p := env.randomPoint(light, rnd).0;
      var l := p.Sub(n.origin).Normalize(env.sqrt);
      var w := Cosine(l, n.direction) * env.lightProbability(light, n.origin);
      assert w >= 0.0;
      assert env.shapeColor(light, p).NonNegative();
    }

    /** With collaborators that never produce negative light, the direct-light sum is never negative. */
    lemma {:induction false} DirectSumNonNegative(env: Env, n: Ray, ls: seq<Shape>, rnd: Rng)
      requires Compiled() && NonNegativeCollaborators(env)
      ensures DirectSum(env, n, ls, rnd).color.NonNegative()
      decreases |ls|
    {
      if ls != [] {
        var prefix := ls[..|ls| - 1];
        DirectSumNonNegative(env, n, prefix, rnd);
        LightSampleNonNegative(env, n, ls[|ls| - 1], DirectSum(env, n, prefix, rnd).rng);
      }
    }

    lemma DirectEstimateNonNegative(env: Env, n: Ray, rnd: Rng)
      requires Ready() && NonNegativeCollaborators(env)
      ensures DirectEstimate(env, n, rnd).color.NonNegative()
    {
      DirectSumNonNegative(env, n, lights, rnd);
    }

    /** A light whose sample is occluded leaves the direct-light sum as it was. */
    lemma ShadowedLightAddsNothing(env: Env, n: Ray, ls: seq<Shape>, light: Shape, rnd: Rng)
      requires Compiled()
      requires Occluded(env, n, light, DirectSum(env, n, ls, rnd).rng)
      ensures DirectSum(env, n, ls + [light], rnd).color == DirectSum(env, n, ls, rnd).color
    {
      var all := ls + [light];
      assert all[..|all| - 1] == ls && all[|all| - 1] == light;
      var prior := DirectSum(env, n, ls, rnd);
      var term := LightSample(env, n, light, prior.rng);
      assert term.color == Black;
      assert DirectSum(env, n, all, rnd).color == prior.color.Add(term.color);
    }

    lemma {:induction false} AllOccludedSumIsBlack(env: Env, n: Ray, ls: seq<Shape>, rnd: Rng)
      requires Compiled() && AllOccluded(env, n, ls, rnd)
      ensures DirectSum(env, n, ls, rnd).color == Black
      decreases |ls|
    {
      if ls != [] {
        AllOccludedSumIsBlack(env, n, ls[..|ls| - 1], rnd);
      }
    }

    /** When every light's sample is occluded, the point receives no direct light. */
    lemma DirectEstimateInShadow(env: Env, n: Ray, rnd: Rng)
      requires Ready() && AllOccluded(env, n, lights, rnd)
      ensures DirectEstimate(env, n, rnd).color == Black
    {
      AllOccludedSumIsBlack(env, n, lights, rnd);
      var count := |lights| as real;
      assert DirectEstimate(env, n, rnd).color == Black.DivScalar(count);
      assert 0.0 / count == 0.0;
    }

    /**
     * With collaborators that never produce negative light, the path sampler
     * never returns negative light, however deep it recurses.
     */
    lemma {:induction false} RecursiveSampleNonNegative(env: Env, r: Ray, reflected: bool, depth: int, rnd: Rng)
      requires depth >= 0 ==> Ready()
      requires NonNegativeCollaborators(env)
      ensures RecursiveSample(env, r, reflected, depth, rnd).color.NonNegative()
      decreases Budget(depth), 1
    {
      if depth >= 0 && !(reflected && IntersectLights(env, r).Ok()) {
        var hit := IntersectShapes(env, r);
        if hit.Ok() {
          var info := env.info(hit, r);
          var p := rnd.Float64();
          var u := p.rest.Float64();
          var v := u.rest.Float64();
          ScatterNonNegative(env, r, info, p.value, u.value, v.value, depth, v.rest);
        }
      }
    }

    lemma {:induction false} ScatterNonNegative(env: Env, r: Ray, info: HitInfo, p: real, u: real, v: real, depth: int, rnd: Rng)
      requires depth >= 0 && Ready()
      requires NonNegativeCollaborators(env) && info.color.NonNegative()
      ensures Scatter(env, r, info, p, u, v, depth, rnd).color.NonNegative()
      decreases Budget(depth), 0
    {
      var (newRay, reflected) := env.bounce(info.ray, r, info.material, p, u, v);
      RecursiveSampleNonNegative(env, newRay, reflected, depth - 1, rnd);
      var indirect := RecursiveSample(env, newRay, reflected, depth - 1, rnd);
      if reflected {
        ShadeNonNegative(env, info, Black, indirect.color, true);
      } else {
        DirectEstimateNonNegative(env, info.ray, indirect.rng);
        ShadeNonNegative(env, info, DirectEstimate(env, info.ray, indirect.rng).color, indirect.color, false);
      }
    }

    /** The last step of a bounce, tinting or diffuse shading, keeps nonnegative light nonnegative. */
    lemma ShadeNonNegative(env: Env, info: HitInfo, direct: Color, indirect: Color, reflected: bool)
      requires NonNegativeCollaborators(env) && info.color.NonNegative()
      requires direct.NonNegative() && indirect.NonNegative()
      ensures var clamped := Clamp(indirect);
              if reflected then env.mix(clamped, info.color.Mul(clamped), env.tint(info.material)).NonNegative()
              else info.color.Mul(direct.Add(clamped)).NonNegative()
    {
      var clamped := Clamp(indirect);
      assert clamped.NonNegative();
      NonNegativeClosed(info.color, clamped, 0.0);
      NonNegativeClosed(direct, clamped, 0.0);
      NonNegativeClosed(info.color, direct.Add(clamped), 0.0);
      assert 0.0 <= env.tint(info.material) <= 1.0;
    }

    /** Cell `k` of a walk lies at row `k / n`, column `k % n` of the grid, and its sample is jittered inside that cell. */
    lemma StrataInCells(env: Env, r: Ray, info: HitInfo, depth: int, n: nat, rnd: Rng, cells: seq<Cell>)
      requires depth >= 0 && Ready()
      requires Strata(env, r, info, depth, n, rnd, cells) && |cells| <= n * n
      ensures forall k :: 0 <= k < |cells| ==> cells[k].u == k / n < n && cells[k].v == k % n < n
      ensures forall k :: 0 <= k < |cells| ==>
                cells[k].u as real / n as real <= cells[k].fu < (cells[k].u + 1) as real / n as real &&
                cells[k].v as real / n as real <= cells[k].fv < (cells[k].v + 1) as real / n as real
    {
      forall k | 0 <= k < |cells|
        ensures cells[k].u == k / n < n && cells[k].v == k % n < n
        ensures cells[k].u as real / n as real <= cells[k].fu < (cells[k].u + 1) as real / n as real
        ensures cells[k].v as real / n as real <= cells[k].fv < (cells[k].v + 1) as real / n as real
      {
        assert StratumAt(env, r, info, depth, n, rnd, cells, k);
        Grid.InGrid(n, k);
      }
    }

    /** A complete walk visits every cell of the `n * n` grid, each exactly once. */
    lemma StrataCoverGrid(env: Env, r: Ray, info: HitInfo, depth: int, n: nat, rnd: Rng, cells: seq<Cell>)
      requires depth >= 0 && Ready()
      requires Strata(env, r, info, depth, n, rnd, cells) && |cells| == n * n
      ensures forall j, k :: 0 <= j < k < |cells| ==> cells[j].u != cells[k].u || cells[j].v != cells[k].v
      ensures forall u: nat, v: nat :: u < n && v < n ==>
                Grid.Index(n, u, v) < |cells| && cells[Grid.Index(n, u, v)].u == u && cells[Grid.Index(n, u, v)].v == v
    {
      StrataInCells(env, r, info, depth, n, rnd, cells);
      forall j, k | 0 <= j < k < |cells|
        ensures cells[j].u != cells[k].u || cells[j].v != cells[k].v
      {
        Grid.CellsDistinct(n, j, k);
      }
      forall u: nat, v: nat | u < n && v < n
        ensures Grid.Index(n, u, v) < |cells| && cells[Grid.Index(n, u, v)].u == u && cells[Grid.Index(n, u, v)].v == v
      {
        Grid.RowMajor(n, u, v);
      }
    }

    /** A prefix of a walk is a walk. */
    lemma StrataPrefix(env: Env, r: Ray, info: HitInfo, depth: int, n: nat, rnd: Rng, cells: seq<Cell>, m: nat)
      requires depth >= 0 && Ready()
      requires Strata(env, r, info, depth, n, rnd, cells) && m <= |cells|
      ensures Strata(env, r, info, depth, n, rnd, cells[..m])
    {
      forall k: nat | k < m
        ensures StratumAt(env, r, info, depth, n, rnd, cells[..m], k)
      {
        assert StratumAt(env, r, info, depth, n, rnd, cells, k);
        assert cells[..m][k] == cells[k] && cells[..m][..k] == cells[..k];
      }
    }

    /**
     * Deterministic replay: the walk is a function of the scene, the hit and
     * the random source, so two walks of the same length are the same walk
     * (and `Sample` returns the same color and random source).
     */
    lemma {:induction false} StrataDeterministic(env: Env, r: Ray, info: HitInfo, depth: int, n: nat, rnd: Rng, a: seq<Cell>, b: seq<Cell>)
      requires depth >= 0 && Ready()
      requires Strata(env, r, info, depth, n, rnd, a) && Strata(env, r, info, depth, n, rnd, b)
      requires |a| == |b|
      ensures a == b
      decreases |a|
    {
      if a != [] {
        var m := |a| - 1;
        StrataPrefix(env, r, info, depth, n, rnd, a, m);
        StrataPrefix(env, r, info, depth, n, rnd, b, m);
        StrataDeterministic(env, r, info, depth, n, rnd, a[..m], b[..m]);
        assert StratumAt(env, r, info, depth, n, rnd, a, m);
        assert StratumAt(env, r, info, depth, n, rnd, b, m);
        assert a == a[..m] + [a[m]] && b == b[..m] + [b[m]];
      }
    }

    /** With collaborators that never produce negative light, the pixel average is never negative. */
    lemma StrataNonNegative(env: Env, r: Ray, info: HitInfo, depth: int, n: nat, rnd: Rng, cells: seq<Cell>)
      requires depth >= 0 && Ready()
      requires Strata(env, r, info, depth, n, rnd, cells)
      requires NonNegativeCollaborators(env) && info.color.NonNegative()
      ensures Total(cells).DivScalar((n * n) as real).NonNegative()
    {
      forall k | 0 <= k < |cells|
        ensures cells[k].color.NonNegative()
      {
        assert StratumAt(env, r, info, depth, n, rnd, cells, k);
        var before := After(rnd, cells[..k]);
        var p := before.Float64();
        var du := p.rest.Float64();
        var dv := du.rest.Float64();
        ScatterNonNegative(env, r, info, p.value, Grid.Jitter(k / n, n, du.value), Grid.Jitter(k % n, n, dv.value), depth, dv.rest);
      }
      TotalNonNegative(cells);
      assert (n * n) as real > 0.0;
    }
  }
}
