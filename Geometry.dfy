/** Three-component vectors over the reals, as the scene graph uses them.
  *
  * Square roots and trigonometry are not computed: callers pass the vector
  * length, cosine and sine in an `Ops` record, and `ValidOps` states the only
  * facts the model relies on.  Normalisation and rotation about the vertical
  * axis are then defined the way three.js defines them.
 */
module Geometry {

  datatype Vec3 = Vec3(x: real, y: real, z: real)

  const Zero := Vec3(0.0, 0.0, 0.0)

  function Add(a: Vec3, b: Vec3): Vec3 { Vec3(a.x + b.x, a.y + b.y, a.z + b.z) }

  function Sub(a: Vec3, b: Vec3): Vec3 { Vec3(a.x - b.x, a.y - b.y, a.z - b.z) }

  function Scale(a: Vec3, k: real): Vec3 { Vec3(a.x * k, a.y * k, a.z * k) }

  function Dot(a: Vec3, b: Vec3): real { a.x * b.x + a.y * b.y + a.z * b.z }

  function LengthSq(a: Vec3): real { Dot(a, a) }

  function DistSq(a: Vec3, b: Vec3): real { LengthSq(Sub(a, b)) }

  /** The vector with its vertical component dropped. */
  function Flatten(a: Vec3): Vec3 { Vec3(a.x, 0.0, a.z) }

  /** `a.distanceTo(b)`. */
  function Distance(a: Vec3, b: Vec3, ops: Ops): real {
    ops.length(Sub(a, b))
  }

  predicate IsUnit(u: Vec3) { LengthSq(u) == 1.0 }

  /** The operations the simulation takes as given. */
  datatype Ops = Ops(length: Vec3 -> real, cos: real -> real, sin: real -> real)

  ghost predicate ValidOps(ops: Ops) {
    && (forall v :: ops.length(v) >= 0.0 && ops.length(v) * ops.length(v) == LengthSq(v))
    && (forall v :: ops.length(v) == 0.0 <==> v == Zero)
    && (forall a :: ops.cos(a) * ops.cos(a) + ops.sin(a) * ops.sin(a) == 1.0)
    && ops.cos(0.0) == 1.0 && ops.sin(0.0) == 0.0
  }

  /** `v.normalize()`: divides by the length, or by 1 when the length is 0. */
  function Normalize(v: Vec3, ops: Ops): Vec3 {
    var len := ops.length(v);
    if len == 0.0 then v else Scale(v, 1.0 / len)
  }

  /** `v.applyAxisAngle((0, 1, 0), angle)`. */
  function RotateY(v: Vec3, angle: real, ops: Ops): Vec3 {
    var c, s := ops.cos(angle), ops.sin(angle);
    Vec3(v.x * c + v.z * s, v.y, -v.x * s + v.z * c)
  }

  lemma LengthSqScale(u: Vec3, k: real)
    ensures LengthSq(Scale(u, k)) == k * k * LengthSq(u)
  {
  }

  /** Normalising gives a unit vector pointing the same way, the zero vector
    * stays zero, and a horizontal vector stays horizontal. */
  lemma NormalizeFacts(v: Vec3, ops: Ops)
    requires ValidOps(ops)
    ensures v == Zero ==> Normalize(v, ops) == Zero
    ensures v != Zero ==> IsUnit(Normalize(v, ops)) && Dot(Normalize(v, ops), v) > 0.0
    ensures v.y == 0.0 ==> Normalize(v, ops).y == 0.0
  {
    var len := ops.length(v);
    if v != Zero {
      var k := 1.0 / len;
      assert len > 0.0;
      assert k * len == 1.0;
      LengthSqScale(v, k);
      assert LengthSq(v) == len * len;
      assert k * k * (len * len) == (k * len) * (k * len);
      assert Dot(Scale(v, k), v) == k * LengthSq(v);
      assert k * (len * len) == len;
    }
  }

  /** Rotation about the vertical axis keeps the height and the length, and
    * the zero angle changes nothing. */
  lemma RotateYFacts(v: Vec3, angle: real, ops: Ops)
    requires ValidOps(ops)
    ensures RotateY(v, angle, ops).y == v.y
    ensures LengthSq(RotateY(v, angle, ops)) == LengthSq(v)
    ensures RotateY(v, 0.0, ops) == v
  {
    var c, s := ops.cos(angle), ops.sin(angle);
    var r := RotateY(v, angle, ops);
    assert r.x * r.x + r.z * r.z == (v.x * v.x + v.z * v.z) * (c * c + s * s);
  }
}
