/**
 * The part of the matrix library the scene graph relies on.
 *
 * A 4x4 matrix is represented as a formal product of elementary transforms:
 * `Mul` is concatenation and `Identity` is the empty product. This is the free
 * monoid on the elementary transforms, so every equation proved about `Mat`
 * here holds for real matrices as well, whatever the elementary transforms
 * evaluate to; nothing depends on floating point or trigonometry.
 */
module Glm {

  datatype Vec3 = Vec3(x: real, y: real, z: real)

  datatype Vec4 = Vec4(x: real, y: real, z: real, w: real)

  /** `glm::zero()` for a 3-vector. */
  function Zero(): Vec3 { Vec3(0.0, 0.0, 0.0) }

  /** Component-wise negation, `-v`. */
  function Neg(v: Vec3): Vec3 { Vec3(-v.x, -v.y, -v.z) }

  /** An elementary transform, the generator of the matrix monoid. */
  datatype Factor =
    | Translation(offset: Vec3)
    | RotationX(angle: real)
    | RotationY(angle: real)
    | RotationZ(angle: real)
    | Scaling(factors: Vec3)
      /** A matrix supplied from outside and not decomposed (a camera's view-projection, say). */
    | Opaque(id: nat)

  type Mat = seq<Factor>

  /** `glm::identity()`. */
  function Identity(): Mat { [] }

  /** Matrix product `a * b`. */
  function Mul(a: Mat, b: Mat): Mat { a + b }

  /** `glm::translate(m, v)`: post-multiplies `m` by a translation. */
  function Translate(m: Mat, v: Vec3): Mat { Mul(m, [Translation(v)]) }

  /** `glm::rotate_x(m, angle)`. */
  function RotateX(m: Mat, angle: real): Mat { Mul(m, [RotationX(angle)]) }

  /** `glm::rotate_y(m, angle)`. */
  function RotateY(m: Mat, angle: real): Mat { Mul(m, [RotationY(angle)]) }

  /** `glm::rotate_z(m, angle)`. */
  function RotateZ(m: Mat, angle: real): Mat { Mul(m, [RotationZ(angle)]) }

  /** `glm::scale(m, v)`. */
  function Scale(m: Mat, v: Vec3): Mat { Mul(m, [Scaling(v)]) }

  /**
   * A factor that stands for the identity matrix: a translation by zero, a
   * rotation by a zero angle, or a scaling by one on every axis.
   */
  predicate IsIdentityFactor(f: Factor) {
    match f
    case Translation(v) => v == Zero()
    case RotationX(a) => a == 0.0
    case RotationY(a) => a == 0.0
    case RotationZ(a) => a == 0.0
    case Scaling(v) => v == Vec3(1.0, 1.0, 1.0)
    case Opaque(_) => false
  }

  lemma MulAssociative(a: Mat, b: Mat, c: Mat)
    ensures Mul(Mul(a, b), c) == Mul(a, Mul(b, c))
  {
  }
}
