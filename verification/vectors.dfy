/**
 * The vector element types of the channel arrays (System.Numerics Vector2,
 * Vector3, Vector4, reached through the single-field MeshVertex* wrappers,
 * which convert to and from them unchanged).
 */
module Vectors {

  /**
   * One single-precision float, held as its IEEE-754 bit pattern. The model
   * copies components from place to place and never computes with them.
   */
  type F = bv32

  /** The bit pattern of +0.0f, the value of a fresh float. */
  const Zero: F := 0

  datatype Vector =
    | Vector2(x: F, y: F)
    | Vector3(x: F, y: F, z: F)
    | Vector4(x: F, y: F, z: F, w: F)

  /** The element type a channel array is declared with. */
  datatype VectorKind = Vector2Kind | Vector3Kind | Vector4Kind

  function KindOf(v: Vector): VectorKind {
    match v
    case Vector2(_, _) => Vector2Kind
    case Vector3(_, _, _) => Vector3Kind
    case Vector4(_, _, _, _) => Vector4Kind
  }

  /** Number of float components of a vector type. */
  function Dimension(k: VectorKind): nat {
    match k
    case Vector2Kind => 2
    case Vector3Kind => 3
    case Vector4Kind => 4
  }

  /** The components of a vector in memory order X, Y, Z, W. */
  function Components(v: Vector): (r: seq<F>)
    ensures |r| == Dimension(KindOf(v))
    ensures r[0] == v.x && r[1] == v.y
    ensures !v.Vector2? ==> r[2] == v.z
    ensures v.Vector4? ==> r[3] == v.w
  {
    match v
    case Vector2(x, y) => [x, y]
    case Vector3(x, y, z) => [x, y, z]
    case Vector4(x, y, z, w) => [x, y, z, w]
  }

  /** The default (all-zero) vector of a type. */
  function ZeroOf(k: VectorKind): (v: Vector)
    ensures KindOf(v) == k
    ensures forall i :: 0 <= i < |Components(v)| ==> Components(v)[i] == Zero
  {
    match k
    case Vector2Kind => Vector2(Zero, Zero)
    case Vector3Kind => Vector3(Zero, Zero, Zero)
    case Vector4Kind => Vector4(Zero, Zero, Zero, Zero)
  }

  /** Two vectors of one type with the same components are the same vector. */
  lemma ComponentsInjective(u: Vector, v: Vector)
    requires KindOf(u) == KindOf(v)
    ensures Components(u) == Components(v) ==> u == v
  {
    if Components(u) == Components(v) {
      assert Components(u)[0] == Components(v)[0];
      assert Components(u)[1] == Components(v)[1];
    }
  }
}
