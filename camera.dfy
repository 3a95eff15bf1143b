/** The `Camera` class of src/camera.ts: its own key flags and rotation, and
    a reference to the shared uniform block, whose `cameraPos` and
    `rotationMatrix` it updates. Pointer lock is a parameter; the rotation
    matrix construction and the basis derivation are supplied by the caller
    as functions. */
module CameraModel {
  import opened Vectors
  import opened Controls
  import opened UniformBlock

  class Camera {
    var keyStates: KeyStates
    var rotation: Rotation
    const uniforms: Uniforms

    predicate Valid()
      reads this
    {
      WellFormedKeys(keyStates)
    }

    /** All four keys released, rotation (0, 0), the given uniform block kept
        by reference (listener registration is not modelled). */
    constructor (uniforms: Uniforms)
      ensures Valid() && this.uniforms == uniforms
      ensures keyStates == AllReleased && rotation == Rotation(0.0, 0.0)
    {
      keyStates := AllReleased;
      rotation := Rotation(0.0, 0.0);
      this.uniforms := uniforms;
    }

    /** `update`: under pointer lock rebuild the rotation matrix, then move;
        otherwise touch nothing. Either way the shared block is returned. */
    method Update(locked: bool, rotationFor: Rotation -> Mat4, basisOf: Mat4 -> Basis) returns (u: Uniforms)
      requires Valid()
      modifies uniforms`rotationMatrix, uniforms`cameraPos
      ensures u == uniforms
      ensures locked ==> uniforms.rotationMatrix == rotationFor(rotation)
      ensures locked ==>
                uniforms.cameraPos == Integrate(old(uniforms.cameraPos), keyStates, basisOf(rotationFor(rotation)), uniforms.movementSpeed)
      ensures !locked ==> unchanged(uniforms)
    {
      if locked {
        UpdateRotation(rotationFor);
        UpdatePosition(basisOf);
      }
      u := uniforms;
    }

    /** `updateRotation`: the matrix Ry(yaw) * Rx(pitch), built by the
        supplied function. */
    method UpdateRotation(rotationFor: Rotation -> Mat4)
      modifies uniforms`rotationMatrix
      ensures uniforms.rotationMatrix == rotationFor(rotation)
    {
      uniforms.rotationMatrix := rotationFor(rotation);
    }

    /** `updatePosition`: one integration tick along the basis of the
        current rotation matrix. */
    method UpdatePosition(basisOf: Mat4 -> Basis)
      requires Valid()
      modifies uniforms`cameraPos
      ensures uniforms.cameraPos ==
                Integrate(old(uniforms.cameraPos), keyStates, basisOf(uniforms.rotationMatrix), uniforms.movementSpeed)
      ensures uniforms.cameraPos.y == 0.0
      ensures !keyStates["w"] && !keyStates["a"] && !keyStates["s"] && !keyStates["d"] ==>
                uniforms.cameraPos == old(uniforms.cameraPos).(y := 0.0)
    {
      var basis := basisOf(uniforms.rotationMatrix);
      var forward := Scale(basis.forward, uniforms.movementSpeed);
      var right := Scale(basis.right, uniforms.movementSpeed);
      if keyStates["w"] {
        uniforms.cameraPos := Add(uniforms.cameraPos, forward);
      }
      if keyStates["a"] {
        uniforms.cameraPos := Sub(uniforms.cameraPos, right);
      }
      if keyStates["s"] {
        uniforms.cameraPos := Sub(uniforms.cameraPos, forward);
      }
      if keyStates["d"] {
        uniforms.cameraPos := Add(uniforms.cameraPos, right);
      }
      uniforms.cameraPos := Mul(uniforms.cameraPos, Vec3(1.0, 0.0, 1.0));
    }

    /** `updateKeyStates`: ignore repeats, otherwise toggle the one flag whose
        name equals the event's key. */
    method UpdateKeyStates(e: KeyEvent)
      requires Valid()
      modifies this`keyStates
      ensures Valid()
      ensures keyStates == AfterKeyEvent(old(keyStates), e)
    {
      if !e.repeat {
        KeyNamesAreTheKeys(keyStates);
        for i := 0 to |KeyNames|
          invariant keyStates == old(keyStates)
          invariant e.key !in KeyNames[..i]
        {
          var key := KeyNames[i];
          if e.key == key {
            keyStates := keyStates[key := !keyStates[key]];
            break;
          }
        }
      }
    }

    /** `handleMouseMove`: under pointer lock accumulate the scaled, negated
        movement and clamp the pitch; otherwise nothing happens. */
    method HandleMouseMove(e: MouseEvent, locked: bool)
      modifies this`rotation
      ensures locked ==> rotation == Look(old(rotation), e, uniforms.mouseSens, uniforms.fov, uniforms.xRotMax)
      ensures locked && uniforms.xRotMax >= 0.0 ==> PitchInRange(rotation.pitch, uniforms.xRotMax)
      ensures locked ==> rotation.yaw == old(rotation.yaw) - e.movementX * LookScale(uniforms.mouseSens, uniforms.fov)
      ensures !locked ==> rotation == old(rotation)
    {
      if locked {
        var scaleFactor := uniforms.mouseSens * uniforms.fov * DegToRad;
        var movement := Rotation(-e.movementY * scaleFactor, -e.movementX * scaleFactor);
        rotation := Rotation(rotation.pitch + movement.pitch, rotation.yaw + movement.yaw);
        var range := uniforms.xRotMax * DegToRad;
        rotation := rotation.(pitch := Clamp(rotation.pitch, -range, range));
      }
    }
  }
}
