/** Real-valued stand-ins for the nalgebra_glm vector and matrix types the
    renderer uses (Vec2, Vec3, Vec4, Mat3, Mat4), the arithmetic on them, and
    the foreign numeric routines the renderer calls but this model does not
    interpret. */
module Glm {

  datatype Option<+T> = None | Some(value: T)

  datatype Vec2 = Vec2(x: real, y: real)
  datatype Vec3 = Vec3(x: real, y: real, z: real)
  datatype Vec4 = Vec4(x: real, y: real, z: real, w: real)

  /** Matrices are stored by rows, in the order nalgebra's `Mat3::new` and
      `Mat4::new` take their arguments. */
  datatype Mat3 = Mat3(r0: Vec3, r1: Vec3, r2: Vec3)
  datatype Mat4 = Mat4(r0: Vec4, r1: Vec4, r2: Vec4, r3: Vec4)

  const Zero3: Vec3 := Vec3(0.0, 0.0, 0.0)
  const Identity3: Mat3 := Mat3(Vec3(1.0, 0.0, 0.0), Vec3(0.0, 1.0, 0.0), Vec3(0.0, 0.0, 1.0))

  function Add3(a: Vec3, b: Vec3): Vec3 {
    Vec3(a.x + b.x, a.y + b.y, a.z + b.z)
  }

  /** `v * s` for a vector and a scalar. */
  function Scale3(v: Vec3, s: real): Vec3 {
    Vec3(v.x * s, v.y * s, v.z * s)
  }

  function Dot3(a: Vec3, b: Vec3): real {
    a.x * b.x + a.y * b.y + a.z * b.z
  }

  function Dot4(a: Vec4, b: Vec4): real {
    a.x * b.x + a.y * b.y + a.z * b.z + a.w * b.w
  }

  function MulVec3(m: Mat3, v: Vec3): Vec3 {
    Vec3(Dot3(m.r0, v), Dot3(m.r1, v), Dot3(m.r2, v))
  }

  function MulVec4(m: Mat4, v: Vec4): Vec4 {
    Vec4(Dot4(m.r0, v), Dot4(m.r1, v), Dot4(m.r2, v), Dot4(m.r3, v))
  }

  /** Column `j` (0 to 3) of a 4x4 matrix. */
  function Col4(m: Mat4, j: nat): Vec4
    requires j < 4
  {
    if j == 0 then Vec4(m.r0.x, m.r1.x, m.r2.x, m.r3.x)
    else if j == 1 then Vec4(m.r0.y, m.r1.y, m.r2.y, m.r3.y)
    else if j == 2 then Vec4(m.r0.z, m.r1.z, m.r2.z, m.r3.z)
    else Vec4(m.r0.w, m.r1.w, m.r2.w, m.r3.w)
  }

  function RowTimes(r: Vec4, b: Mat4): Vec4 {
    Vec4(Dot4(r, Col4(b, 0)), Dot4(r, Col4(b, 1)), Dot4(r, Col4(b, 2)), Dot4(r, Col4(b, 3)))
  }

  /** The matrix product `a * b`. */
  function MatMul4(a: Mat4, b: Mat4): Mat4 {
    Mat4(RowTimes(a.r0, b), RowTimes(a.r1, b), RowTimes(a.r2, b), RowTimes(a.r3, b))
  }

  function Transpose3(m: Mat3): Mat3 {
    Mat3(Vec3(m.r0.x, m.r1.x, m.r2.x), Vec3(m.r0.y, m.r1.y, m.r2.y), Vec3(m.r0.z, m.r1.z, m.r2.z))
  }

  /** `mat4_to_mat3`: the upper-left 3x3 block. */
  function Upper3(m: Mat4): Mat3 {
    Mat3(Vec3(m.r0.x, m.r0.y, m.r0.z), Vec3(m.r1.x, m.r1.y, m.r1.z), Vec3(m.r2.x, m.r2.y, m.r2.z))
  }

  function Max(a: real, b: real): real {
    if a >= b then a else b
  }

  function Min(a: real, b: real): real {
    if a <= b then a else b
  }

  function Abs(a: real): real {
    if a < 0.0 then -a else a
  }

  /** The routines the renderer takes from other code: the coherent-noise
      sampler of fastnoise_lite (with the configuration fixed at start-up),
      f32 `sin`, `cos` and `powf`, and nalgebra's `normalize` and
      `try_inverse`. The model interprets none of them. */
  datatype Library = Library(
    noise: (real, real, real) -> real,
    sin: real -> real,
    cos: real -> real,
    powf: (real, real) -> real,
    normalize: Vec3 -> Vec3,
    tryInverse: Mat3 -> Option<Mat3>)

  /** The one fact assumed of the foreign routines: sine and cosine lie in [-1, 1]. */
  ghost predicate TrigBounded(lib: Library) {
    (forall t :: -1.0 <= lib.sin(t) <= 1.0) && (forall t :: -1.0 <= lib.cos(t) <= 1.0)
  }

  lemma IdentityMulVec3(v: Vec3)
    ensures MulVec3(Identity3, v) == v
  {
  }
}
