# RayMarching navigation and sphere tracing, in Dafny

This project models the sequential logic of a WebGL ray-marching demo and proves properties of it. The logic has three parts.

- **Navigation controller.** The source carries it twice: once as module-level state in `src/main.ts`, once as the `Camera` class in `src/camera.ts`.
  - It keeps four w/a/s/d flags, which are toggled by non-repeat key events.
  - It keeps a pitch/yaw `rotation`, which accumulates scaled pointer movement. Only the pitch is clamped, to ±`xRotMax` degrees.
  - Each frame, while the pointer is locked, it moves `uniforms.cameraPos` by the scaled forward/right basis for every held key, then zeroes the height.
- **Sphere tracer.** This is the GLSL in `src/ts/shader/fragment.ts`:
  - the unit-sphere distance function;
  - the loop `shortestDistanceToSurface`;
  - the hit/miss test of `main`.

Files:

- `vectors.dfy` (`Vectors`): exact vector arithmetic standing in for gl-matrix and GLSL vectors.
- `controls.dfy` (`Controls`): the navigation logic once, as pure functions. These are the specification of both stateful copies.
  - `AfterKeyEvent` is the key toggle.
  - `Clamp` is `clamp`.
  - `Look` is the pointer-look step, and `LookAll` folds it over a sequence of moves.
  - `Integrate` is one position tick.
- `uniforms.dfy` (`UniformBlock`): the shared `uniforms` object as a class. Its fields are updated in place.
- `main_page.dfy` (`MainPage.Page`): the module-level state and handlers of `src/main.ts`.
- `camera.dfy` (`CameraModel.Camera`): the `Camera` class of `src/camera.ts`.
- `shader.dfy` (`Shader`):
  - the distance functions;
  - `MarchFrom`/`March`, a specification of the loop. It records the depths at which the distance is evaluated and the value returned. `None` is the run that leaves the 10000-iteration loop without a `return`.
  - the imperative loop `ShortestDistanceToSurface`, proved against `March`;
  - the pixel decision;
  - a worked scenario.

What the march proofs establish:

- A defined result is guaranteed for every ray exactly when `0 <= maxSteps < 10000`.
- With `maxSteps == 10000` the budget test `i == maxSteps` can never fire, because `i` stays below 10000 inside the loop. A ray that neither hits nor reaches `end` within 10000 iterations therefore runs off the end of the function with no return value. A ray that hits or reaches `end` in time still returns normally; `UnitSphereScenario` holds with `maxSteps == 10000`.
- The same holds for a negative `maxSteps`.
- `MarchCanFallOff` exhibits such a ray for every budget outside 0..9999. `MarchFrom`'s contract shows that running off the end happens only for these budgets, and only after all 10000 iterations.

## Model

| member | source | states |
|---|---|---|
| Controls.KeyNamesAreTheKeys | src/main.ts:50-59 | `Object.keys(keyStates)` (w, a, s, d) lists exactly the flags of a well-formed key state |
| Controls.AfterKeyEvent | src/main.ts:57-66 | a repeat event, or a key other than exactly w/a/s/d, leaves the flags unchanged; otherwise the named flag is negated and the other three are unchanged; the set of flags never changes |
| Controls.KeyPressReleaseRestores | src/main.ts:61 | a non-repeat keydown and keyup of the same key restore the original flags (the toggle is an involution) |
| Controls.Clamp | src/main.ts:122-124 | the result lies in `[min, max]` when `min <= max`; it is `val` when `val` is in range, `min` below, `max` above, and `max` when the bounds are crossed. `clamp` in src/camera.ts:88-90 is the same function |
| Controls.Look | src/main.ts:126-133 | after one locked pointer move the pitch is within ±`xRotMax·π/180` (for `xRotMax >= 0`); the yaw is the old yaw minus `movementX·mouseSens·FOV·π/180`, unclamped; an in-range pitch is not altered |
| Controls.LookAll | src/main.ts:126-134 | repeated locked `mousemove` events: after at least one move (or from a pitch already in range) the pitch is within ±`xRotMax·π/180`, for `xRotMax >= 0` |
| Controls.LookAllYawIsTotal | src/main.ts:126-133 | the yaw is never clamped: after any sequence of moves it is the old yaw minus the total horizontal movement times the scale |
| Controls.Integrate | src/main.ts:90-103 | a position tick always leaves the height at 0; with no key held it only zeroes the height |
| Controls.IntegrateNetDisplacement | src/main.ts:86-103 | a tick moves x and z by (w − s) scaled forward steps plus (d − a) scaled right steps |
| Controls.NetAlongAxis | src/main.ts:90-101 | in one coordinate, the four conditional additions and subtractions in key order sum to (w − s)·forward + (d − a)·right |
| Controls.ForwardAndBackCancel | src/main.ts:90-98 | with w and s held and a, d released, x and z are unchanged and only the height is zeroed |
| UniformBlock.Uniforms.constructor | src/main.ts:23-34 | the initial uniform values: maxSteps 200, minDist 0, maxDist 50, epsilon 0.0001, FOV 45, xRotMax 90, mouseSens 0.0015, movementSpeed 0.05, camera at the origin, identity rotation matrix |
| MainPage.Page.constructor | src/main.ts:23-55 | default uniforms, all four flags false, rotation (0, 0) |
| MainPage.Page.UpdateKeyStates | src/main.ts:57-66 | the loop over the key names updates the flags exactly as `AfterKeyEvent` says |
| MainPage.Page.Update | src/main.ts:71-105 | the rotation matrix is rebuilt on every frame; under pointer lock the position becomes `Integrate` of the old one, with height 0; without the lock the position is unchanged |
| MainPage.Page.MouseMove | src/main.ts:126-134 | under lock the rotation becomes `Look` of the old one (pitch in range, yaw shifted by the scaled `-movementX`); without the lock it is unchanged |
| CameraModel.Camera.constructor | src/camera.ts:12-25 | all four flags false, rotation (0, 0), and the given uniform block kept by reference |
| CameraModel.Camera.Update | src/camera.ts:27-33 | returns the same uniform block; under lock it rebuilds the rotation matrix and then integrates the position; without the lock the block is not modified at all |
| CameraModel.Camera.UpdateRotation | src/camera.ts:35-43 | the block's rotation matrix becomes the one built from the current pitch and yaw |
| CameraModel.Camera.UpdatePosition | src/camera.ts:45-71 | the position becomes `Integrate` of the old one along the basis of the stored matrix; the height is 0; with no key held only the height changes |
| CameraModel.Camera.UpdateKeyStates | src/camera.ts:73-82 | the loop over the key names updates the flags exactly as `AfterKeyEvent` says |
| CameraModel.Camera.HandleMouseMove | src/camera.ts:92-101 | under lock the rotation becomes `Look` of the old one (pitch in range, yaw shifted by the scaled `-movementX`); without the lock it is unchanged |
| Shader.SphereSDF | src/ts/shader/fragment.ts:10-12 | `sphereSDF`: for the Euclidean length, the distance is zero exactly on the unit sphere, negative exactly inside, positive exactly outside, and never below −1 |
| Shader.SceneSDF | src/ts/shader/fragment.ts:14-16 | `sceneSDF`: for the Euclidean length, the distance is not positive exactly on the closed unit ball |
| Shader.LengthIsRoot | src/ts/shader/fragment.ts:11 | `length(p)` is the unique non-negative root of `dot(p, p)` |
| Shader.MarchFrom | src/ts/shader/fragment.ts:18-31 | the loop from iteration `i` at a given depth, as the evaluated depths and the returned value: no value is returned only after all remaining 10000 − `i` iterations have evaluated, and only when `maxSteps` is below `i` or at least 10000 |
| Shader.March | src/ts/shader/fragment.ts:18-31 | `shortestDistanceToSurface`: a zero budget returns `end` with no evaluation; a budget in 0..9999 always returns a value |
| Shader.ShortestDistanceToSurface | src/ts/shader/fragment.ts:18-31 | the loop returns what `March` specifies; a zero budget returns `end`; a budget below the loop bound returns a value; the value is `end` or a depth where the distance is below `epsilon`; for `start <= end` it is at most `end`, and at least `start` when `epsilon >= 0` |
| Shader.MarchContract | src/ts/shader/fragment.ts:18-31 | the caller's view of a run: the result is `end` or a hit; at most 10000 evaluations, and at most `maxSteps` when it is non-negative; for `start <= end` the result is at most `end`, and at least `start` when `epsilon >= 0` |
| Shader.MarchResultIsEndOrHit | src/ts/shader/fragment.ts:21-29 | a returned value is `end`, or the last evaluated depth, where the distance was below `epsilon` |
| Shader.MarchEvaluationBound | src/ts/shader/fragment.ts:20-22 | the number of distance evaluations is at most the remaining loop iterations and at most the remaining step budget |
| Shader.MarchFallsOffWithoutBudget | src/ts/shader/fragment.ts:20-31 | with a budget the loop counter cannot meet (≥ 10000 or already passed) and a surface one unit away, every iteration runs and no value is returned |
| Shader.MarchCanFallOff | src/ts/shader/fragment.ts:20-31 | for every `maxSteps` outside 0..9999 some ray leaves the loop without a defined result |
| Shader.MarchStepsByDistance | src/ts/shader/fragment.ts:22-26 | the first evaluation is at `start`; each next depth is the previous one plus the distance found there, which was at least `epsilon` |
| Shader.MarchNonDecreasing | src/ts/shader/fragment.ts:22-26 | a step taken after a non-negative distance never moves the depth backwards; with `epsilon >= 0` the evaluated depths never decrease |
| Shader.MarchSamplesIncrease | src/ts/shader/fragment.ts:22-26 | with positive `epsilon` the evaluated depths are strictly increasing |
| Shader.MarchWithinBounds | src/ts/shader/fragment.ts:19-29 | for `start <= end`, every evaluated depth and the result are at most `end`, and the evaluated depths are below `end` when `start < end`; with `epsilon >= 0` they are also at least `start` |
| Shader.PixelColour | src/ts/shader/fragment.ts:43-48 | the miss test: black exactly when the distance exceeds `maxDist − epsilon`, red exactly when it does not, no colour for an undefined distance |
| Shader.ShadeFragment | src/ts/shader/fragment.ts:39-49 | `main` for one pixel: a budget in 0..9999 always yields a colour |
| Shader.ShadeFragmentClassifies | src/ts/shader/fragment.ts:39-49 | a red pixel has a result in `[minDist, maxDist − epsilon]` at which the scene distance is below `epsilon`; a ray that returns `maxDist` is black |
| Shader.UnitSphereOnAxis | src/ts/shader/fragment.ts:10-12 | the sphere distance is 4 at (0, 0, 5) and 0 at (0, 0, 1) |
| Shader.SceneOnDownRay | src/ts/shader/fragment.ts:10-16 | from the eye (0, 0, 5) down −z the scene distance is 4 at depth 0 and 0 at depth 4 |
| Shader.HitOnSecondStep | src/ts/shader/fragment.ts:18-29 | distances 4 then 0 along a ray from depth 0 give evaluations at depths 0 and 4 and the result 4 |
| Shader.UnitSphereScenario | src/ts/shader/fragment.ts:10-42 | from the eye (0, 0, 5) straight down −z, with `start = 0`, `end > 4`, a budget of at least 2 and `0 < epsilon <= 4`, the unit sphere is hit at depth exactly 4 after two evaluations |

## Left out

- Browser and GPU plumbing is not modelled:
  - the canvas and WebGL/twgl calls;
  - `requestAnimationFrame` and `render`;
  - `resizeCanvasToDisplaySize`;
  - `requestPointerLock` and `handleClick`;
  - the registration of event listeners;
  - the dat.GUI bindings and the `resize` handler.
- Whether the canvas holds the pointer lock is a boolean parameter of the handlers and `update`.
- src/ts/main.ts is not part of this model. It only sets up the canvas, the buffers and the GUI.
- Rotation-matrix construction (`mat4.fromXRotation`, `fromYRotation`, `multiply`) is supplied by the caller as a function from rotation to matrix, because it needs trigonometry.
- Deriving the forward/right basis (`transformMat4`, `cross`, `normalize`) is supplied by the caller as a function from matrix to basis, because it needs square roots.
- The `up` vector is computed and scaled by the source but never used, so it is not modelled.
- GLSL `length` is a parameter. The lemmas that need its value require it to be the Euclidean norm.
- `rayDirection` (it uses `tan` and `normalize`) is not modelled. The ray direction is an input of the pixel decision.
- The `resolution` uniform is not modelled.
- Floating-point and `mediump` rounding are not modelled: the arithmetic is exact, over the reals. For example, `ForwardAndBackCancel` holds over the reals only. The same goes for the pitch bound of `Look`, `LookAll`, `MouseMove` and `HandleMouseMove`: `rotation` is a 32-bit `Float32Array`, so a pitch clamped to π/2 is stored as the nearest single-precision value, which lies slightly above π/2.
- `Math.PI` is the decimal literal 3.141592653589793.
- The `Camera`'s `d2r` field is the constant `DegToRad`.
- Uniform fields that the modelled code never reads are not modelled: the light, object and colour settings, and the material factors.
- Colours beyond the hit/miss decision are not modelled. `main` writes only constant black or red.
- ShortestDistanceToSurface: its postconditions say nothing about how many distance evaluations it makes or at which depths. Its result is tied to `March`, and the evaluation facts are proved on `March`'s trace (`MarchContract`, `MarchEvaluationBound`, `MarchStepsByDistance`, `MarchWithinBounds`).
