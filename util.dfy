/** Coordinate helpers shared by the renderer and the camera (www/util.mjs).
    JavaScript numbers are modelled as exact reals. */
module Util {

  /** A point `{ x, y }` of the plane. */
  datatype Vec2 = Vec2(x: real, y: real)

  /** `Math.min(Math.max(val, min), max)`. */
  function Clamp(val: real, min: real, max: real): (r: real)
    ensures min <= max ==> min <= r <= max
    ensures min <= val <= max ==> r == val
    ensures r == val || r == min || r == max
  {
    var lifted := if val > min then val else min;
    if lifted < max then lifted else max
  }

  /** Clamping never reverses the order of two values. */
  lemma ClampMonotone(a: real, b: real, min: real, max: real)
    requires a <= b
    ensures Clamp(a, min, max) <= Clamp(b, min, max)
  {
  }

  /** Isometric world coordinates back to orthogonal grid coordinates: the
      grid point whose isometric image is `p`. */
  function To2d(p: Vec2): (r: Vec2)
    ensures r.x - r.y == p.x && (r.x + r.y) / 2.0 == p.y
  {
    Vec2((2.0 * p.y + p.x) / 2.0, (2.0 * p.y - p.x) / 2.0)
  }

  /** Orthogonal grid coordinates to isometric world coordinates: the grid
      is rotated by 45 degrees and squashed to half height. */
  function ToIso(p: Vec2): (r: Vec2)
    ensures (2.0 * r.y + r.x) / 2.0 == p.x && (2.0 * r.y - r.x) / 2.0 == p.y
  {
    Vec2(p.x - p.y, (p.x + p.y) / 2.0)
  }

  /** `to2d` undoes `toIso` exactly. */
  lemma To2dToIso(p: Vec2)
    ensures To2d(ToIso(p)) == p
  {
    var q := ToIso(p);
    assert (2.0 * q.y + q.x) / 2.0 == p.x;
    assert (2.0 * q.y - q.x) / 2.0 == p.y;
  }

  /** `toIso` undoes `to2d` exactly. */
  lemma ToIsoTo2d(p: Vec2)
    ensures ToIso(To2d(p)) == p
  {
    var q := To2d(p);
    assert q.x - q.y == p.x;
    assert (q.x + q.y) / 2.0 == p.y;
  }
}
