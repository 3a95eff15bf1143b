/** The fragment shader of src/ts/shader/fragment.ts: the unit-sphere distance
    function, the sphere-tracing loop `shortestDistanceToSurface` and the
    hit/miss decision of `main`. Arithmetic is exact; `mediump` rounding is
    not modelled. GLSL's `length` (a square root) has no closed form over the
    reals, so it is supplied as a function and the lemmas that need its value
    require it to be the Euclidean length (`IsLength`). */
module Shader {
  import opened Vectors

  datatype Option<T> = None | Some(value: T)

  // ---------------------------------------------------------------- distance

  /** `length` is the Euclidean norm at `p`: non-negative, squaring to
      `dot(p, p)`. */
  predicate IsLengthAt(length: Vec3 -> real, p: Vec3) {
    0.0 <= length(p) && length(p) * length(p) == Dot(p, p)
  }

  /** `length` is the Euclidean norm everywhere. */
  ghost predicate IsLength(length: Vec3 -> real) {
    forall p :: IsLengthAt(length, p)
  }

  /** `sphereSDF(p) = length(p) - 1.0`: the unit sphere at the origin. Where
      `length` is the Euclidean norm the distance is zero exactly on the
      sphere, negative exactly inside it, positive exactly outside it, and
      never below -1. */
  function SphereSDF(length: Vec3 -> real, p: Vec3): (r: real)
    ensures IsLengthAt(length, p) ==> (r == 0.0 <==> Dot(p, p) == 1.0)
    ensures IsLengthAt(length, p) ==> (r < 0.0 <==> Dot(p, p) < 1.0)
    ensures IsLengthAt(length, p) ==> (r > 0.0 <==> Dot(p, p) > 1.0)
    ensures IsLengthAt(length, p) ==> -1.0 <= r
  {
    RootComparesWithOne(length(p), Dot(p, p));
    length(p) - 1.0
  }

  /** A non-negative root of `d` compares with 1 as `d` does. */
  lemma RootComparesWithOne(n: real, d: real)
    ensures 0.0 <= n && n * n == d ==> (n == 1.0 <==> d == 1.0) && (n < 1.0 <==> d < 1.0)
  {
    if 0.0 <= n && n * n == d {
      if n < 1.0 {
        assert n * n <= n * 1.0;
      } else if n > 1.0 {
        assert n * n > n * 1.0;
      }
    }
  }

  /** `sceneSDF`: the scene is the unit sphere alone, so its solid part (where
      the distance is not positive) is the closed unit ball. */
  function SceneSDF(length: Vec3 -> real, p: Vec3): (r: real)
    ensures IsLengthAt(length, p) ==> (r <= 0.0 <==> Dot(p, p) <= 1.0)
  {
    SphereSDF(length, p)
  }

  /** `sceneSDF` as the distance function handed to the marcher. */
  function Scene(length: Vec3 -> real): Vec3 -> real {
    p => SceneSDF(length, p)
  }

  /** A Euclidean length is pinned down by its square: if `n` is
      non-negative and squares to `dot(p, p)`, it is `length(p)`. */
  lemma LengthIsRoot(length: Vec3 -> real, p: Vec3, n: real)
    requires IsLength(length)
    requires 0.0 <= n && n * n == Dot(p, p)
    ensures length(p) == n
  {
    assert IsLengthAt(length, p);
    var l := length(p);
    if l < n {
      SquareGrows(l, n);
    } else if n < l {
      SquareGrows(n, l);
    }
  }

  /** Squaring is strictly increasing on the non-negative reals. */
  lemma SquareGrows(a: real, b: real)
    requires 0.0 <= a < b
    ensures a * a < b * b
  {
    var d := b - a;
    assert 0.0 < d && 0.0 < b + a;
    assert b * b - a * a == d * (b + a);
    PositiveProduct(d, b + a);
  }

  lemma PositiveProduct(x: real, y: real)
    requires 0.0 < x && 0.0 < y
    ensures 0.0 < x * y
  {
  }

  // ---------------------------------------------------------------- marching

  /** The constant bound of the `for` loop (GLSL ES needs a constant bound). */
  const LoopCap: nat := 10000

  /** A run of the loop: the depths at which the scene distance was
      evaluated, in order, and the value returned. `None` is the run that
      leaves the loop without reaching a `return`, whose value GLSL leaves
      undefined. */
  datatype Trace = Trace(samples: seq<real>, result: Option<real>)

  /** The scene distance as a function of the depth along the ray
      `eye + depth * dir`. */
  function RayDistance(sdf: Vec3 -> real, eye: Vec3, dir: Vec3): real -> real {
    depth => sdf(Along(eye, dir, depth))
  }

  /** The loop of `shortestDistanceToSurface` from iteration `i` with the
      current `depth`, given the distance along the ray: stop at the loop
      bound, return `end` when the step budget is used up, return the depth
      when the distance is below `epsilon`, otherwise step forward by the
      distance and return `end` once the depth reaches it. */
  function MarchFrom(distAt: real -> real, end: real, maxSteps: int, epsilon: real, i: nat, depth: real): (r: Trace)
    requires i <= LoopCap
    ensures r.result == None ==> |r.samples| == LoopCap - i && (maxSteps < i || LoopCap <= maxSteps)
    decreases LoopCap - i
  {
    if i == LoopCap then Trace([], None)
    else if i == maxSteps then Trace([], Some(end))
    else
      var dist := distAt(depth);
      if dist < epsilon then Trace([depth], Some(depth))
      else if depth + dist >= end then Trace([depth], Some(end))
      else
        var rest := MarchFrom(distAt, end, maxSteps, epsilon, i + 1, depth + dist);
        Trace([depth] + rest.samples, rest.result)
  }

  /** `shortestDistanceToSurface(eye, marchingDirection, start, end)`: a zero
      budget returns `end` before any evaluation, and a budget below the loop
      bound always reaches a `return`. */
  function March(sdf: Vec3 -> real, eye: Vec3, dir: Vec3, start: real, end: real, maxSteps: int, epsilon: real): (t: Trace)
    ensures maxSteps == 0 ==> t == Trace([], Some(end))
    ensures 0 <= maxSteps < LoopCap ==> t.result.Some?
  {
    MarchFrom(RayDistance(sdf, eye, dir), end, maxSteps, epsilon, 0, start)
  }

  /** The loop itself, with the source's three `return`s and its fall-off
      path (`None`). */
  method ShortestDistanceToSurface(sdf: Vec3 -> real, eye: Vec3, dir: Vec3, start: real, end: real,
                                   maxSteps: int, epsilon: real)
    returns (r: Option<real>)
    ensures r == March(sdf, eye, dir, start, end, maxSteps, epsilon).result
    ensures maxSteps == 0 ==> r == Some(end)
    ensures 0 <= maxSteps < LoopCap ==> r.Some?
    ensures r.Some? ==> r.value == end || sdf(Along(eye, dir, r.value)) < epsilon
    ensures start <= end && r.Some? ==> r.value <= end
    ensures 0.0 <= epsilon && start <= end && r.Some? ==> start <= r.value
  {
    ghost var distAt := RayDistance(sdf, eye, dir);
    ghost var whole := MarchFrom(distAt, end, maxSteps, epsilon, 0, start);
    var depth := start;
    for i := 0 to LoopCap
      invariant MarchFrom(distAt, end, maxSteps, epsilon, i, depth).result == whole.result
    {
      if i == maxSteps {
        MarchContract(sdf, eye, dir, start, end, maxSteps, epsilon);
        return Some(end);
      }
      var dist := sdf(Along(eye, dir, depth));
      assert dist == distAt(depth);
      if dist < epsilon {
        MarchContract(sdf, eye, dir, start, end, maxSteps, epsilon);
        return Some(depth);
      }
      depth := depth + dist;
      if depth >= end {
        MarchContract(sdf, eye, dir, start, end, maxSteps, epsilon);
        return Some(end);
      }
    }
    return None;
  }

  /** What a caller of the loop can rely on: the value is `end` or a depth
      where the distance is below `epsilon`; there are never more than 10000
      evaluations, and no more than `maxSteps` when it is non-negative; from
      a start at or before `end` the value is at most `end`, and with a
      non-negative `epsilon` at least `start`. */
  lemma MarchContract(sdf: Vec3 -> real, eye: Vec3, dir: Vec3, start: real, end: real, maxSteps: int, epsilon: real)
    ensures var t := March(sdf, eye, dir, start, end, maxSteps, epsilon);
            && (t.result.Some? ==> t.result.value == end || sdf(Along(eye, dir, t.result.value)) < epsilon)
            && |t.samples| <= LoopCap
            && (0 <= maxSteps ==> |t.samples| <= maxSteps)
            && (start <= end && t.result.Some? ==> t.result.value <= end)
            && (0.0 <= epsilon && start <= end && t.result.Some? ==> start <= t.result.value)
  {
    var distAt := RayDistance(sdf, eye, dir);
    MarchResultIsEndOrHit(distAt, end, maxSteps, epsilon, 0, start);
    MarchEvaluationBound(distAt, end, maxSteps, epsilon, 0, start);
    if start <= end {
      MarchWithinBounds(distAt, end, maxSteps, epsilon, 0, start);
    }
  }

  /** Whatever it returns is `end` or the last depth evaluated, where the
      distance was below `epsilon`. */
  lemma {:induction false} MarchResultIsEndOrHit(distAt: real -> real, end: real, maxSteps: int, epsilon: real,
                                                 i: nat, depth: real)
    requires i <= LoopCap
    ensures var t := MarchFrom(distAt, end, maxSteps, epsilon, i, depth);
            t.result.Some? ==>
              || t.result.value == end
              || (t.samples != [] && t.result.value == t.samples[|t.samples| - 1] && distAt(t.result.value) < epsilon)
    decreases LoopCap - i
  {
    if i < LoopCap && i != maxSteps {
      var dist := distAt(depth);
      if dist >= epsilon && depth + dist < end {
        MarchResultIsEndOrHit(distAt, end, maxSteps, epsilon, i + 1, depth + dist);
      }
    }
  }

  /** At most `maxSteps` evaluations, and never more than the loop bound. */
  lemma {:induction false} MarchEvaluationBound(distAt: real -> real, end: real, maxSteps: int, epsilon: real,
                                                i: nat, depth: real)
    requires i <= LoopCap
    ensures |MarchFrom(distAt, end, maxSteps, epsilon, i, depth).samples| <= LoopCap - i
    ensures i <= maxSteps ==> |MarchFrom(distAt, end, maxSteps, epsilon, i, depth).samples| <= maxSteps - i
    decreases LoopCap - i
  {
    if i < LoopCap && i != maxSteps {
      var dist := distAt(depth);
      if dist >= epsilon && depth + dist < end {
        MarchEvaluationBound(distAt, end, maxSteps, epsilon, i + 1, depth + dist);
      }
    }
  }

  /** Without a usable step budget (at least the loop bound, which includes
      exactly 10000, or negative) a surface that stays one unit away runs
      through all iterations and leaves the loop with no value returned. */
  lemma {:induction false} MarchFallsOffWithoutBudget(distAt: real -> real, end: real, maxSteps: int, epsilon: real,
                                                      i: nat, depth: real)
    requires i <= LoopCap
    requires maxSteps < i || LoopCap <= maxSteps
    requires forall t :: distAt(t) == 1.0
    requires epsilon <= 1.0
    requires depth + (LoopCap - i) as real < end
    ensures MarchFrom(distAt, end, maxSteps, epsilon, i, depth).result == None
    ensures |MarchFrom(distAt, end, maxSteps, epsilon, i, depth).samples| == LoopCap - i
    decreases LoopCap - i
  {
    if i < LoopCap {
      MarchFallsOffWithoutBudget(distAt, end, maxSteps, epsilon, i + 1, depth + 1.0);
    }
  }

  /** So the undefined result is reachable for every budget outside
      0 .. 9999: here 10000 evaluations at unit distance before `end`. */
  lemma MarchCanFallOff(maxSteps: int)
    requires maxSteps < 0 || LoopCap <= maxSteps
    ensures March(p => 1.0, Origin, Vec3(0.0, 0.0, -1.0), 0.0, 20000.0, maxSteps, 0.5).result == None
  {
    MarchFallsOffWithoutBudget(RayDistance(p => 1.0, Origin, Vec3(0.0, 0.0, -1.0)), 20000.0, maxSteps, 0.5, 0, 0.0);
  }

  /** Sphere tracing: the first evaluation is at the current depth, each
      later one is one distance further on, and a step is only taken when
      that distance was at least `epsilon`. */
  lemma {:induction false} MarchStepsByDistance(distAt: real -> real, end: real, maxSteps: int, epsilon: real,
                                                i: nat, depth: real)
    requires i <= LoopCap
    ensures var s := MarchFrom(distAt, end, maxSteps, epsilon, i, depth).samples;
            && (s != [] ==> s[0] == depth)
            && forall k :: 0 <= k < |s| - 1 ==> epsilon <= distAt(s[k]) && s[k + 1] == s[k] + distAt(s[k])
    decreases LoopCap - i
  {
    if i < LoopCap && i != maxSteps {
      var dist := distAt(depth);
      if dist >= epsilon && depth + dist < end {
        MarchStepsByDistance(distAt, end, maxSteps, epsilon, i + 1, depth + dist);
        var rest := MarchFrom(distAt, end, maxSteps, epsilon, i + 1, depth + dist).samples;
        var s := [depth] + rest;
        forall k | 0 <= k < |s| - 1
          ensures epsilon <= distAt(s[k]) && s[k + 1] == s[k] + distAt(s[k])
        {
          if k > 0 {
            assert s[k] == rest[k - 1] && s[k + 1] == rest[k];
          }
        }
      }
    }
  }

  /** `depth += dist` never moves the depth backwards after an evaluation
      that found a non-negative distance; with a non-negative `epsilon` every
      step is such a step. */
  lemma MarchNonDecreasing(distAt: real -> real, end: real, maxSteps: int, epsilon: real, depth: real)
    ensures var s := MarchFrom(distAt, end, maxSteps, epsilon, 0, depth).samples;
            && (forall k :: 0 <= k < |s| - 1 && 0.0 <= distAt(s[k]) ==> s[k] <= s[k + 1])
            && (0.0 <= epsilon ==> forall k :: 0 <= k < |s| - 1 ==> s[k] <= s[k + 1])
  {
    MarchStepsByDistance(distAt, end, maxSteps, epsilon, 0, depth);
  }

  predicate StrictlyIncreasing(s: seq<real>) {
    forall j, k :: 0 <= j < k < |s| ==> s[j] < s[k]
  }

  /** Putting a value below every element in front keeps the order strict. */
  lemma PrependSmaller(x: real, s: seq<real>)
    requires StrictlyIncreasing(s)
    requires forall k :: 0 <= k < |s| ==> x < s[k]
    ensures StrictlyIncreasing([x] + s)
  {
    var t := [x] + s;
    forall j, k | 0 <= j < k < |t|
      ensures t[j] < t[k]
    {
      assert t[k] == s[k - 1];
      if j > 0 {
        assert t[j] == s[j - 1];
      }
    }
  }

  /** With a positive `epsilon` the evaluated depths strictly increase. */
  lemma {:induction false} MarchSamplesIncrease(distAt: real -> real, end: real, maxSteps: int, epsilon: real,
                                                i: nat, depth: real)
    requires i <= LoopCap
    requires 0.0 < epsilon
    ensures StrictlyIncreasing(MarchFrom(distAt, end, maxSteps, epsilon, i, depth).samples)
    decreases LoopCap - i
  {
    if i < LoopCap && i != maxSteps {
      var dist := distAt(depth);
      if dist >= epsilon && depth + dist < end {
        MarchSamplesIncrease(distAt, end, maxSteps, epsilon, i + 1, depth + dist);
        MarchWithinBounds(distAt, end, maxSteps, epsilon, i + 1, depth + dist);
        PrependSmaller(depth, MarchFrom(distAt, end, maxSteps, epsilon, i + 1, depth + dist).samples);
      }
    }
  }

  /** Starting at or before `end`, every evaluated depth and the result are
      at most `end`, and the evaluated depths are below `end` when the start
      is; with a non-negative `epsilon` they are also at least the start. */
  lemma {:induction false} MarchWithinBounds(distAt: real -> real, end: real, maxSteps: int, epsilon: real,
                                             i: nat, depth: real)
    requires i <= LoopCap
    requires depth <= end
    ensures var t := MarchFrom(distAt, end, maxSteps, epsilon, i, depth);
            && (forall k :: 0 <= k < |t.samples| ==> t.samples[k] <= end)
            && (depth < end ==> forall k :: 0 <= k < |t.samples| ==> t.samples[k] < end)
            && (t.result.Some? ==> t.result.value <= end)
            && (0.0 <= epsilon ==> forall k :: 0 <= k < |t.samples| ==> depth <= t.samples[k])
            && (0.0 <= epsilon && t.result.Some? ==> depth <= t.result.value)
    decreases LoopCap - i
  {
    if i < LoopCap && i != maxSteps {
      var dist := distAt(depth);
      if dist >= epsilon && depth + dist < end {
        MarchWithinBounds(distAt, end, maxSteps, epsilon, i + 1, depth + dist);
        var rest := MarchFrom(distAt, end, maxSteps, epsilon, i + 1, depth + dist).samples;
        var s := [depth] + rest;
        forall k | 0 <= k < |s|
          ensures s[k] <= end && (depth < end ==> s[k] < end) && (0.0 <= epsilon ==> depth <= s[k])
        {
          if k > 0 {
            assert s[k] == rest[k - 1];
          }
        }
      }
    }
  }

  // ---------------------------------------------------------------- main

  /** The fixed eye position of `main`. */
  const Eye: Vec3 := Vec3(0.0, 0.0, 5.0)

  /** The two colours `main` writes: black for a miss, red for a hit. */
  datatype Colour = Black | Red

  /** The test in `main`: a pixel is black (a miss) exactly when the
      distance is beyond `maxDist - epsilon`, and red otherwise. An undefined
      distance gives no defined colour. */
  function PixelColour(dist: Option<real>, maxDist: real, epsilon: real): (c: Option<Colour>)
    ensures c == None <==> dist == None
    ensures c == Some(Black) <==> dist.Some? && dist.value > maxDist - epsilon
    ensures c == Some(Red) <==> dist.Some? && dist.value <= maxDist - epsilon
  {
    match dist
    case None => None
    case Some(d) => Some(if d > maxDist - epsilon then Black else Red)
  }

  /** `main` for one pixel, with the ray direction that `rayDirection`
      computed for it: a budget below the loop bound always gives a colour. */
  function ShadeFragment(length: Vec3 -> real, dir: Vec3, minDist: real, maxDist: real, maxSteps: int,
                         epsilon: real): (c: Option<Colour>)
    ensures 0 <= maxSteps < LoopCap ==> c.Some?
  {
    PixelColour(March(Scene(length), Eye, dir, minDist, maxDist, maxSteps, epsilon).result, maxDist, epsilon)
  }

  /** A red pixel is a point on the ray, between `minDist` and
      `maxDist - epsilon`, where the scene distance is below `epsilon`; and a
      ray that runs out to `maxDist` is black. */
  lemma ShadeFragmentClassifies(length: Vec3 -> real, dir: Vec3, minDist: real, maxDist: real, maxSteps: int,
                                epsilon: real)
    requires 0.0 < epsilon && minDist <= maxDist
    ensures var t := March(Scene(length), Eye, dir, minDist, maxDist, maxSteps, epsilon);
            && (ShadeFragment(length, dir, minDist, maxDist, maxSteps, epsilon) == Some(Red) ==>
                  && minDist <= t.result.value <= maxDist - epsilon
                  && SceneSDF(length, Along(Eye, dir, t.result.value)) < epsilon)
            && (t.result == Some(maxDist) ==> ShadeFragment(length, dir, minDist, maxDist, maxSteps, epsilon) == Some(Black))
  {
    MarchContract(Scene(length), Eye, dir, minDist, maxDist, maxSteps, epsilon);
  }

  /** The downward ray of the worked example. */
  const Down: Vec3 := Vec3(0.0, 0.0, -1.0)

  lemma DownFromEye(t: real)
    ensures Along(Eye, Down, t) == Vec3(0.0, 0.0, 5.0 - t)
  {
  }

  /** From (0, 0, 5) down the z axis the unit sphere is 4 away at depth 0
      and touched at depth 4. */
  lemma UnitSphereOnAxis(length: Vec3 -> real)
    requires IsLength(length)
    ensures SphereSDF(length, Vec3(0.0, 0.0, 5.0)) == 4.0
    ensures SphereSDF(length, Vec3(0.0, 0.0, 1.0)) == 0.0
  {
    LengthIsRoot(length, Vec3(0.0, 0.0, 5.0), 5.0);
    LengthIsRoot(length, Vec3(0.0, 0.0, 1.0), 1.0);
  }

  /** Two evaluations, 4 then 0, from depth 0: a hit at depth 4. */
  lemma HitOnSecondStep(sdf: Vec3 -> real, eye: Vec3, dir: Vec3, end: real, maxSteps: int, epsilon: real)
    requires sdf(Along(eye, dir, 0.0)) == 4.0 && sdf(Along(eye, dir, 4.0)) == 0.0
    requires 4.0 < end && 2 <= maxSteps && 0.0 < epsilon <= 4.0
    ensures March(sdf, eye, dir, 0.0, end, maxSteps, epsilon) == Trace([0.0, 4.0], Some(4.0))
  {
    var distAt := RayDistance(sdf, eye, dir);
    assert distAt(0.0) == 4.0 && distAt(4.0) == 0.0;
    var second := MarchFrom(distAt, end, maxSteps, epsilon, 1, 4.0);
    assert second == Trace([4.0], Some(4.0));
    assert MarchFrom(distAt, end, maxSteps, epsilon, 0, 0.0) == Trace([0.0] + second.samples, second.result);
  }

  /** Along the downward ray from the eye the scene distance is 4 at depth
      0 and 0 at depth 4. */
  lemma SceneOnDownRay(length: Vec3 -> real)
    requires IsLength(length)
    ensures Scene(length)(Along(Eye, Down, 0.0)) == 4.0
    ensures Scene(length)(Along(Eye, Down, 4.0)) == 0.0
  {
    DownFromEye(0.0);
    DownFromEye(4.0);
    UnitSphereOnAxis(length);
    assert Scene(length)(Vec3(0.0, 0.0, 5.0)) == SceneSDF(length, Vec3(0.0, 0.0, 5.0));
    assert Scene(length)(Vec3(0.0, 0.0, 1.0)) == SceneSDF(length, Vec3(0.0, 0.0, 1.0));
  }

  /** The scene as shipped: from (0, 0, 5) straight down the z axis the
      unit sphere is hit at depth exactly 4, after two evaluations. */
  lemma UnitSphereScenario(length: Vec3 -> real, end: real, maxSteps: int, epsilon: real)
    requires IsLength(length)
    requires 4.0 < end && 2 <= maxSteps && 0.0 < epsilon <= 4.0
    ensures March(Scene(length), Eye, Down, 0.0, end, maxSteps, epsilon) == Trace([0.0, 4.0], Some(4.0))
  {
    SceneOnDownRay(length);
    HitOnSecondStep(Scene(length), Eye, Down, end, maxSteps, epsilon);
  }
}
