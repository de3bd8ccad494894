/** What the demo scripts see of a rigid body, and the `euler_from_quaternion`
    helper both scripts define. Positions and orientations are real numbers
    here (their IEEE-754 decoding is not modelled), and `atan2`/`asin` are
    kept as symbolic terms over their arguments. */
module Poses {

  /** A rigid body as the demo callbacks use it: id, `position` and the
      `orientation` quaternion (x, y, z, w). */
  datatype BodyPose = BodyPose(id: nat, position: (real, real, real), orientation: (real, real, real, real))

  /** An angle: a plain number, or the result of `math.atan2`/`math.asin` on the
      given arguments. */
  datatype Angle = Number(value: real) | Atan2(y: real, x: real) | Asin(s: real)

  datatype Euler = Euler(roll: Angle, pitch: Angle, yaw: Angle)

  /** The two conditional assignments that bring `t2` into the domain of `asin`. */
  function Clamp(t: real): (r: real)
    ensures -1.0 <= r <= 1.0
    ensures -1.0 <= t <= 1.0 ==> r == t
    ensures t > 1.0 ==> r == 1.0
    ensures t < -1.0 ==> r == -1.0
  {
    var upper := if t > 1.0 then 1.0 else t;
    if upper < -1.0 then -1.0 else upper
  }

  /** Clamping twice is clamping once, and clamping keeps order. */
  lemma ClampIdempotentMonotone(t: real, u: real)
    ensures Clamp(Clamp(t)) == Clamp(t)
    ensures t <= u ==> Clamp(t) <= Clamp(u)
  {
  }

  /** `euler_from_quaternion(x, y, z, w)`. */
  function EulerFromQuaternion(x: real, y: real, z: real, w: real): (e: Euler)
    ensures e.pitch.Asin? && -1.0 <= e.pitch.s <= 1.0
    ensures -1.0 <= 2.0 * (w * y - z * x) <= 1.0 ==> e.pitch == Asin(2.0 * (w * y - z * x))
    ensures e.roll.Atan2? && e.yaw.Atan2?
  {
    var t0 := 2.0 * (w * x + y * z);
    var t1 := 1.0 - 2.0 * (x * x + y * y);
    var t2 := Clamp(2.0 * (w * y - z * x));
    var t3 := 2.0 * (w * z + x * y);
    var t4 := 1.0 - 2.0 * (y * y + z * z);
    Euler(Atan2(t0, t1), Asin(t2), Atan2(t3, t4))
  }

  /** The angles of a body, from its orientation alone. */
  function BodyEuler(b: BodyPose): Euler
  {
    EulerFromQuaternion(b.orientation.0, b.orientation.1, b.orientation.2, b.orientation.3)
  }
}
