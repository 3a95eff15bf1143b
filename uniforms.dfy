/** The shared `uniforms` object: the values the page hands to the shader each
    frame and that the navigation code reads and writes in place. Only the
    fields the modelled code touches are kept (colours, light and object
    placement, resolution and material factors are not). */
module UniformBlock {
  import opened Vectors

  class Uniforms {
    var maxSteps: int
    var minDist: real
    var maxDist: real
    var epsilon: real
    var fov: real
    var xRotMax: real
    var mouseSens: real
    var movementSpeed: real
    var cameraPos: Vec3
    var rotationMatrix: Mat4

    /** The initial values of the uniform block in src/main.ts. */
    predicate HasDefaults()
      reads this
    {
      && maxSteps == 200 && minDist == 0.0 && maxDist == 50.0 && epsilon == 0.0001
      && fov == 45.0 && xRotMax == 90.0 && mouseSens == 0.0015 && movementSpeed == 0.05
      && cameraPos == Origin && rotationMatrix == Identity
    }

    constructor ()
      ensures HasDefaults()
    {
      maxSteps, minDist, maxDist, epsilon := 200, 0.0, 50.0, 0.0001;
      fov, xRotMax, mouseSens, movementSpeed := 45.0, 90.0, 0.0015, 0.05;
      cameraPos := Origin;
      rotationMatrix := Identity;
    }
  }
}
