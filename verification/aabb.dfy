/**
  Axis-aligned boxes in the hold frame: x across the width and z along the
  length, both centred on the hold; y up from the floor.
 */
module Aabb {
  import opened Domain

  /** A point of the hold frame. */
  datatype Point = Point(x: real, y: real, z: real)

  /** `p` lies strictly inside `b`. */
  predicate InsideOpen(b: Box, p: Point) {
    b.minX < p.x < b.maxX && b.minY < p.y < b.maxY && b.minZ < p.z < b.maxZ
  }

  /** `p` lies in `b` or on its boundary. */
  predicate InsideClosed(b: Box, p: Point) {
    b.minX <= p.x <= b.maxX && b.minY <= p.y <= b.maxY && b.minZ <= p.z <= b.maxZ
  }

  /** The default tolerance of the box tests. */
  const BoxEps := 1e-9

  /** The box of extents `(dx, dy, dz)` centred on `(x, y, z)`. */
  function FromCenter(x: real, y: real, z: real, dx: real, dy: real, dz: real): (b: Box)
    ensures b.maxX - b.minX == dx && b.maxY - b.minY == dy && b.maxZ - b.minZ == dz
    ensures (b.minX + b.maxX) / 2.0 == x && (b.minY + b.maxY) / 2.0 == y && (b.minZ + b.maxZ) / 2.0 == z
  {
    Box(x - dx / 2.0, x + dx / 2.0, y - dy / 2.0, y + dy / 2.0, z - dz / 2.0, z + dz / 2.0)
  }

  /**
    Two boxes intersect when they overlap by more than `eps` on every axis;
    touching faces (within `eps`) do not count.
   */
  predicate Intersects(a: Box, b: Box, eps: real) {
    !(a.maxX <= b.minX + eps || a.minX >= b.maxX - eps)
    && !(a.maxY <= b.minY + eps || a.minY >= b.maxY - eps)
    && !(a.maxZ <= b.minZ + eps || a.minZ >= b.maxZ - eps)
  }

  /** The midpoint of the overlap of two intervals. */
  function OverlapMid(lo1: real, hi1: real, lo2: real, hi2: real): (t: real)
    ensures lo1 < hi2 && lo2 < hi1 && lo1 < hi1 && lo2 < hi2 ==> lo1 < t < hi1 && lo2 < t < hi2
  {
    ((if lo1 >= lo2 then lo1 else lo2) + (if hi1 <= hi2 then hi1 else hi2)) / 2.0
  }

  /**
    With no tolerance, two boxes of positive extent intersect exactly when
    some point lies strictly inside both.
   */
  lemma IntersectsIffCommonPoint(a: Box, b: Box)
    requires a.minX < a.maxX && a.minY < a.maxY && a.minZ < a.maxZ
    requires b.minX < b.maxX && b.minY < b.maxY && b.minZ < b.maxZ
    ensures Intersects(a, b, 0.0) <==> exists p: Point :: InsideOpen(a, p) && InsideOpen(b, p)
  {
    if Intersects(a, b, 0.0) {
      var p := Point(OverlapMid(a.minX, a.maxX, b.minX, b.maxX),
                     OverlapMid(a.minY, a.maxY, b.minY, b.maxY),
                     OverlapMid(a.minZ, a.maxZ, b.minZ, b.maxZ));
      assert InsideOpen(a, p) && InsideOpen(b, p);
    }
    if exists p: Point :: InsideOpen(a, p) && InsideOpen(b, p) {
      var p: Point :| InsideOpen(a, p) && InsideOpen(b, p);
      assert a.minX < p.x < b.maxX && b.minX < p.x < a.maxX;
    }
  }

  /** The intersection test does not depend on argument order. */
  lemma IntersectsSymmetric(a: Box, b: Box, eps: real)
    ensures Intersects(a, b, eps) <==> Intersects(b, a, eps)
  {
  }

  /** Boxes separated or only touching along one axis do not intersect. */
  lemma SeparatedAxisNoIntersection(a: Box, b: Box, eps: real)
    requires eps >= 0.0
    requires a.maxX <= b.minX || b.maxX <= a.minX || a.maxY <= b.minY || b.maxY <= a.minY
      || a.maxZ <= b.minZ || b.maxZ <= a.minZ
    ensures !Intersects(a, b, eps)
  {
  }

  /** A larger tolerance only removes intersections. */
  lemma IntersectsAntitone(a: Box, b: Box, eps1: real, eps2: real)
    requires eps1 <= eps2 && Intersects(a, b, eps2)
    ensures Intersects(a, b, eps1)
  {
  }

  /** The hold as a box: `[-W/2, W/2] x [0, H] x [-L/2, L/2]`, widened by `eps`. */
  function HoldBox(v: Vehicle, eps: real): Box {
    Box(-(v.innerWidth / 2.0) - eps, v.innerWidth / 2.0 + eps,
        0.0 - eps, v.innerHeight + eps,
        -(v.innerLength / 2.0) - eps, v.innerLength / 2.0 + eps)
  }

  /** True when the box leaves the hold by more than `eps` on some side. */
  function OutOfBounds(b: Box, v: Vehicle, eps: real): (r: bool)
    ensures b.minX <= b.maxX && b.minY <= b.maxY && b.minZ <= b.maxZ ==>
      (!r <==> forall p: Point :: InsideClosed(b, p) ==> InsideClosed(HoldBox(v, eps), p))
  {
    var halfW := v.innerWidth / 2.0;
    var halfL := v.innerLength / 2.0;
    var h := v.innerHeight;
    var r :=
      if b.minX < -halfW - eps || b.maxX > halfW + eps then true
      else if b.minZ < -halfL - eps || b.maxZ > halfL + eps then true
      else if b.minY < 0.0 - eps || b.maxY > h + eps then true
      else false;
    if r && b.minX <= b.maxX && b.minY <= b.maxY && b.minZ <= b.maxZ then
      var lo := Point(b.minX, b.minY, b.minZ);
      var hi := Point(b.maxX, b.maxY, b.maxZ);
      assert InsideClosed(b, lo) && InsideClosed(b, hi);
      assert !InsideClosed(HoldBox(v, eps), lo) || !InsideClosed(HoldBox(v, eps), hi);
      r
    else
      r
  }

  /** True when the box intersects the box of some placed unit. */
  function CollidesWithAny(b: Box, placed: seq<PlacedItem>, eps: real): (r: bool)
    ensures r <==> exists i :: 0 <= i < |placed| && Intersects(b, placed[i].aabb, eps)
    decreases |placed|
  {
    if |placed| == 0 then false
    else if Intersects(b, placed[0].aabb, eps) then true
    else
      var rest := CollidesWithAny(b, placed[1..], eps);
      assert forall i :: 1 <= i < |placed| ==> placed[i] == placed[1..][i - 1];
      rest
  }
}
