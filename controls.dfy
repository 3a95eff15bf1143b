/** The navigation logic that src/main.ts and src/camera.ts both carry, written
    once as pure functions: the w/a/s/d toggle, `clamp`, the pointer-look
    accumulator and the per-tick position integrator. The two stateful copies
    (MainPage.Page and CameraModel.Camera) are specified by these functions. */
module Controls {
  import opened Vectors

  // ---------------------------------------------------------------- keys

  /** The keys of the `keyStates` object, in its insertion order. */
  const KeyNames: seq<string> := ["w", "a", "s", "d"]

  /** `keyStates`: one held/released flag per movement key. */
  type KeyStates = map<string, bool>

  predicate WellFormedKeys(keys: KeyStates) {
    keys.Keys == {"w", "a", "s", "d"}
  }

  /** `Object.keys(keyStates)` lists exactly the flags of a well-formed state. */
  lemma KeyNamesAreTheKeys(keys: KeyStates)
    requires WellFormedKeys(keys)
    ensures forall k :: k in keys <==> k in KeyNames
  {
  }

  /** `{ w: false, a: false, s: false, d: false }` */
  const AllReleased: KeyStates := map["w" := false, "a" := false, "s" := false, "d" := false]

  /** The two fields of a `KeyboardEvent` that the handler reads. */
  datatype KeyEvent = KeyEvent(key: string, repeat: bool)

  /** The effect of `updateKeyStates`: a repeat event changes nothing; any
      other event flips the flag named exactly by its key, if there is one. */
  function AfterKeyEvent(keys: KeyStates, e: KeyEvent): (r: KeyStates)
    ensures r.Keys == keys.Keys
    ensures e.repeat || e.key !in keys ==> r == keys
    ensures !e.repeat && e.key in keys ==> r[e.key] == !keys[e.key]
    ensures forall k :: k in keys && k != e.key ==> r[k] == keys[k]
  {
    if e.repeat || e.key !in keys then keys else keys[e.key := !keys[e.key]]
  }

  /** Both key-down and key-up go through the same toggle, so a press followed
      by the release of the same key leaves the flags as they were. */
  lemma KeyPressReleaseRestores(keys: KeyStates, down: KeyEvent, up: KeyEvent)
    requires !down.repeat && !up.repeat && down.key == up.key
    ensures AfterKeyEvent(AfterKeyEvent(keys, down), up) == keys
  {
    if down.key in keys {
      var mid := AfterKeyEvent(keys, down);
      assert mid[down.key] == !keys[down.key];
      assert forall k :: k in keys ==> AfterKeyEvent(mid, up)[k] == keys[k];
    }
  }

  // ---------------------------------------------------------------- clamp

  /** `clamp(val, min, max) = Math.min(Math.max(min, val), max)` */
  function Clamp(val: real, lo: real, hi: real): (r: real)
    ensures lo <= hi ==> lo <= r <= hi
    ensures lo <= val <= hi ==> r == val
    ensures val < lo && lo <= hi ==> r == lo
    ensures hi < val ==> r == hi
    ensures hi < lo ==> r == hi
  {
    var atLeast := if lo >= val then lo else val;
    if atLeast <= hi then atLeast else hi
  }

  // ---------------------------------------------------------------- looking

  /** `Math.PI`, written as the shortest decimal of its double value. */
  const Pi: real := 3.141592653589793

  /** `d2r = Math.PI / 180` */
  const DegToRad: real := Pi / 180.0

  /** The `rotation` vec2: index 0 is the pitch (rotation about x), index 1
      the yaw (rotation about y), both in radians. */
  datatype Rotation = Rotation(pitch: real, yaw: real)

  /** The two fields of a `MouseEvent` that the handler reads. */
  datatype MouseEvent = MouseEvent(movementX: real, movementY: real)

  /** Radians of rotation per unit of pointer movement. */
  function LookScale(mouseSens: real, fov: real): real {
    mouseSens * fov * DegToRad
  }

  /** Half-width of the allowed pitch interval, in radians. */
  function PitchRange(xRotMax: real): real {
    xRotMax * DegToRad
  }

  predicate PitchInRange(pitch: real, xRotMax: real) {
    -PitchRange(xRotMax) <= pitch <= PitchRange(xRotMax)
  }

  /** The `mousemove` handler under pointer lock: add the scaled, negated
      movement to the rotation, then clamp only the pitch. */
  function Look(rot: Rotation, e: MouseEvent, mouseSens: real, fov: real, xRotMax: real): (r: Rotation)
    ensures xRotMax >= 0.0 ==> PitchInRange(r.pitch, xRotMax)
    ensures r.yaw == rot.yaw - e.movementX * LookScale(mouseSens, fov)
    ensures PitchInRange(rot.pitch - e.movementY * LookScale(mouseSens, fov), xRotMax) ==>
              r.pitch == rot.pitch - e.movementY * LookScale(mouseSens, fov)
  {
    var s := LookScale(mouseSens, fov);
    var moved := Rotation(rot.pitch + -e.movementY * s, rot.yaw + -e.movementX * s);
    var range := PitchRange(xRotMax);
    Rotation(Clamp(moved.pitch, -range, range), moved.yaw)
  }

  /** A sequence of pointer moves under lock, with the settings held fixed.
      Whatever the pointer does, after at least one move (or from a pitch
      already in range) the pitch is inside the clamp range. */
  function LookAll(rot: Rotation, es: seq<MouseEvent>, mouseSens: real, fov: real, xRotMax: real): (r: Rotation)
    ensures xRotMax >= 0.0 && (es != [] || PitchInRange(rot.pitch, xRotMax)) ==> PitchInRange(r.pitch, xRotMax)
    decreases |es|
  {
    if es == [] then rot else LookAll(Look(rot, es[0], mouseSens, fov, xRotMax), es[1..], mouseSens, fov, xRotMax)
  }

  function TotalMovementX(es: seq<MouseEvent>): real
    decreases |es|
  {
    if es == [] then 0.0 else es[0].movementX + TotalMovementX(es[1..])
  }

  /** The yaw is never clamped: after any sequence of moves it is the old yaw
      minus the scaled sum of the horizontal movements. */
  lemma {:induction false} LookAllYawIsTotal(rot: Rotation, es: seq<MouseEvent>, mouseSens: real, fov: real, xRotMax: real)
    ensures LookAll(rot, es, mouseSens, fov, xRotMax).yaw == rot.yaw - TotalMovementX(es) * LookScale(mouseSens, fov)
    decreases |es|
  {
    if es != [] {
      var next := Look(rot, es[0], mouseSens, fov, xRotMax);
      LookAllYawIsTotal(next, es[1..], mouseSens, fov, xRotMax);
      var s := LookScale(mouseSens, fov);
      calc {
        LookAll(rot, es, mouseSens, fov, xRotMax).yaw;
        next.yaw - TotalMovementX(es[1..]) * s;
        rot.yaw - es[0].movementX * s - TotalMovementX(es[1..]) * s;
        rot.yaw - (es[0].movementX + TotalMovementX(es[1..])) * s;
        rot.yaw - TotalMovementX(es) * s;
      }
    }
  }

  // ---------------------------------------------------------------- moving

  /** The forward and right vectors of the current orientation, as
      `update` derives them from the rotation matrix (before scaling).
      They are unit vectors except at a pitch of ±90 degrees, where the
      cross product giving `right` is zero and normalising keeps it zero. */
  datatype Basis = Basis(forward: Vec3, right: Vec3)

  function Held(keys: KeyStates, k: string): real
    requires k in keys
  {
    if keys[k] then 1.0 else 0.0
  }

  /** One position tick under pointer lock: scale the basis by the movement
      speed, add or subtract it per held key in the order w, a, s, d, then
      multiply by (1, 0, 1) so the camera stays at height 0. */
  function Integrate(pos: Vec3, keys: KeyStates, basis: Basis, speed: real): (r: Vec3)
    requires WellFormedKeys(keys)
    ensures r.y == 0.0
    ensures !keys["w"] && !keys["a"] && !keys["s"] && !keys["d"] ==> r == Vec3(pos.x, 0.0, pos.z)
  {
    var forward := Scale(basis.forward, speed);
    var right := Scale(basis.right, speed);
    var p1 := if keys["w"] then Add(pos, forward) else pos;
    var p2 := if keys["a"] then Sub(p1, right) else p1;
    var p3 := if keys["s"] then Sub(p2, forward) else p2;
    var p4 := if keys["d"] then Add(p3, right) else p3;
    Mul(p4, Vec3(1.0, 0.0, 1.0))
  }

  /** The tick moves the camera by (w - s) forward steps and (d - a) right
      steps, in the horizontal plane, whatever the order of the key tests. */
  lemma IntegrateNetDisplacement(pos: Vec3, keys: KeyStates, basis: Basis, speed: real)
    requires WellFormedKeys(keys)
    ensures var r := Integrate(pos, keys, basis, speed);
            var forward := Scale(basis.forward, speed);
            var right := Scale(basis.right, speed);
            var ahead := Held(keys, "w") - Held(keys, "s");
            var aside := Held(keys, "d") - Held(keys, "a");
            && r.x == pos.x + ahead * forward.x + aside * right.x
            && r.z == pos.z + ahead * forward.z + aside * right.z
  {
    var forward := Scale(basis.forward, speed);
    var right := Scale(basis.right, speed);
    NetAlongAxis(pos.x, forward.x, right.x, keys["w"], keys["a"], keys["s"], keys["d"]);
    NetAlongAxis(pos.z, forward.z, right.z, keys["w"], keys["a"], keys["s"], keys["d"]);
  }

  /** One coordinate of the tick: the four conditional steps in key order add
      up to (w - s) forward steps and (d - a) right steps. */
  lemma NetAlongAxis(p: real, f: real, r: real, w: bool, a: bool, s: bool, d: bool)
    ensures var p1 := if w then p + f else p;
            var p2 := if a then p1 - r else p1;
            var p3 := if s then p2 - f else p2;
            var p4 := if d then p3 + r else p3;
            var ahead := (if w then 1.0 else 0.0) - (if s then 1.0 else 0.0);
            var aside := (if d then 1.0 else 0.0) - (if a then 1.0 else 0.0);
            p4 == p + ahead * f + aside * r
  {
    var ahead := (if w then 1.0 else 0.0) - (if s then 1.0 else 0.0);
    var aside := (if d then 1.0 else 0.0) - (if a then 1.0 else 0.0);
    assert ahead == 1.0 || ahead == 0.0 || ahead == -1.0;
    assert aside == 1.0 || aside == 0.0 || aside == -1.0;
  }

  /** Holding w and s together cancels out exactly (over the reals): the
      forward vector is added and then subtracted. */
  lemma ForwardAndBackCancel(pos: Vec3, keys: KeyStates, basis: Basis, speed: real)
    requires WellFormedKeys(keys)
    requires keys["w"] && keys["s"] && !keys["a"] && !keys["d"]
    ensures Integrate(pos, keys, basis, speed) == Vec3(pos.x, 0.0, pos.z)
  {
    IntegrateNetDisplacement(pos, keys, basis, speed);
  }
}
