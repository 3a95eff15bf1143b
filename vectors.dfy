/** Exact (real-valued) stand-ins for the gl-matrix and GLSL vector operations
    the navigation controller and the ray marcher use. Floating-point rounding
    is not modelled. */
module Vectors {

  datatype Vec3 = Vec3(x: real, y: real, z: real)

  const Origin: Vec3 := Vec3(0.0, 0.0, 0.0)

  /** `vec3.add` / GLSL `+` */
  function Add(a: Vec3, b: Vec3): Vec3 {
    Vec3(a.x + b.x, a.y + b.y, a.z + b.z)
  }

  /** `vec3.subtract` (alias `vec3.sub`) */
  function Sub(a: Vec3, b: Vec3): Vec3 {
    Vec3(a.x - b.x, a.y - b.y, a.z - b.z)
  }

  /** `vec3.scale` / GLSL `float * vec3` */
  function Scale(a: Vec3, s: real): Vec3 {
    Vec3(a.x * s, a.y * s, a.z * s)
  }

  /** `vec3.multiply` (alias `vec3.mul`): component-wise product */
  function Mul(a: Vec3, b: Vec3): Vec3 {
    Vec3(a.x * b.x, a.y * b.y, a.z * b.z)
  }

  function Dot(a: Vec3, b: Vec3): real {
    a.x * b.x + a.y * b.y + a.z * b.z
  }

  /** The point `eye + t * dir` on a ray. */
  function Along(eye: Vec3, dir: Vec3, t: real): Vec3 {
    Add(eye, Scale(dir, t))
  }

  /** A 4x4 matrix in gl-matrix's column-major layout. Its entries are never
      inspected by the model: rotation matrices are produced and consumed by
      functions the callers supply. */
  type Mat4 = seq<real>

  /** `mat4.create()` */
  const Identity: Mat4 := [1.0, 0.0, 0.0, 0.0,
                           0.0, 1.0, 0.0, 0.0,
                           0.0, 0.0, 1.0, 0.0,
                           0.0, 0.0, 0.0, 1.0]
}
