/** The module-level navigation state of src/main.ts: the `keyStates` object,
    the `rotation` vec2 and the `uniforms` object, with the key handler, the
    per-frame `update` and the `mousemove` handler. Whether the canvas holds
    the pointer lock (`document.pointerLockElement === cnv`) is a parameter;
    the rotation matrix construction and the basis derivation are supplied by
    the caller as functions. */
module MainPage {
  import opened Vectors
  import opened Controls
  import opened UniformBlock

  class Page {
    var keyStates: KeyStates
    var rotation: Rotation
    const uniforms: Uniforms

    predicate Valid()
      reads this
    {
      WellFormedKeys(keyStates)
    }

    /** Module initialisation: default uniforms, no key held, no rotation. */
    constructor ()
      ensures Valid() && fresh(uniforms) && uniforms.HasDefaults()
      ensures keyStates == AllReleased && rotation == Rotation(0.0, 0.0)
    {
      keyStates := AllReleased;
      rotation := Rotation(0.0, 0.0);
      uniforms := new Uniforms();
    }

    /** `updateKeyStates`, registered for both keydown and keyup. */
    method UpdateKeyStates(e: KeyEvent)
      requires Valid()
      modifies this`keyStates
      ensures Valid()
      ensures keyStates == AfterKeyEvent(old(keyStates), e)
    {
      if !e.repeat {
        KeyNamesAreTheKeys(keyStates);
        for i := 0 to |KeyNames|
          invariant keyStates == old(keyStates)
          invariant e.key !in KeyNames[..i]
        {
          var key := KeyNames[i];
          if e.key == key {
            keyStates := keyStates[key := !keyStates[key]];
            break;
          }
        }
      }
    }

    /** `update`, called once per animation frame: the rotation matrix is
        rebuilt from the angles on every frame; the position moves only while
        the pointer is locked. */
    method Update(locked: bool, rotationFor: Rotation -> Mat4, basisOf: Mat4 -> Basis)
      requires Valid()
      modifies uniforms`rotationMatrix, uniforms`cameraPos
      ensures uniforms.rotationMatrix == rotationFor(rotation)
      ensures locked ==>
                uniforms.cameraPos == Integrate(old(uniforms.cameraPos), keyStates, basisOf(uniforms.rotationMatrix), uniforms.movementSpeed)
      ensures locked ==> uniforms.cameraPos.y == 0.0
      ensures !locked ==> uniforms.cameraPos == old(uniforms.cameraPos)
    {
      uniforms.rotationMatrix := rotationFor(rotation);
      if locked {
        var basis := basisOf(uniforms.rotationMatrix);
        var forward := Scale(basis.forward, uniforms.movementSpeed);
        var right := Scale(basis.right, uniforms.movementSpeed);
        if keyStates["w"] {
          uniforms.cameraPos := Add(uniforms.cameraPos, forward);
        }
        if keyStates["a"] {
          uniforms.cameraPos := Sub(uniforms.cameraPos, right);
        }
        if keyStates["s"] {
          uniforms.cameraPos := Sub(uniforms.cameraPos, forward);
        }
        if keyStates["d"] {
          uniforms.cameraPos := Add(uniforms.cameraPos, right);
        }
        uniforms.cameraPos := Mul(uniforms.cameraPos, Vec3(1.0, 0.0, 1.0));
      }
    }

    /** The `mousemove` handler: under pointer lock the negated, scaled
        movement is added to the rotation and the pitch is clamped to
        plus or minus `xRotMax` degrees; otherwise nothing happens. */
    method MouseMove(e: MouseEvent, locked: bool)
      modifies this`rotation
      ensures locked ==> rotation == Look(old(rotation), e, uniforms.mouseSens, uniforms.fov, uniforms.xRotMax)
      ensures locked && uniforms.xRotMax >= 0.0 ==> PitchInRange(rotation.pitch, uniforms.xRotMax)
      ensures locked ==> rotation.yaw == old(rotation.yaw) - e.movementX * LookScale(uniforms.mouseSens, uniforms.fov)
      ensures !locked ==> rotation == old(rotation)
    {
      if locked {
        var scale := uniforms.mouseSens * uniforms.fov * DegToRad;
        var movement := Rotation(-e.movementY * scale, -e.movementX * scale);
        rotation := Rotation(rotation.pitch + movement.pitch, rotation.yaw + movement.yaw);
        var range := uniforms.xRotMax * DegToRad;
        rotation := rotation.(pitch := Clamp(rotation.pitch, -range, range));
      }
    }
  }
}
