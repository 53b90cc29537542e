/** Building a placed unit from a pose or from an accepted candidate. */
module PlacedItems {
  import opened Domain
  import opened Aabb
  import opened ItemCatalog

  /**
    Places `it` standing on height `y` with its floor centre at `(x, z)`;
    a quarter turn swaps its floor extents.
   */
  function FromItemAtPose(it: Item, x: real, y: real, z: real, rotationY: int): (p: PlacedItem)
    ensures (p.dims.0, p.dims.2) == DimsXY(it, rotationY) && p.dims.1 == it.height
    ensures p.aabb.minY == y && p.aabb.maxY == y + it.height
    ensures p.aabb.minX == x - p.dims.0 / 2.0 && p.aabb.maxX == x + p.dims.0 / 2.0
    ensures p.aabb.minZ == z - p.dims.2 / 2.0 && p.aabb.maxZ == z + p.dims.2 / 2.0
    ensures p.corner == (p.aabb.minX, p.aabb.minZ)
    ensures p.item == it && p.status == it.status && (p.x, p.y, p.z) == (x, y, z) && p.rotationY == rotationY
  {
    var (dx, dz) := if rotationY % 180 == 90 then (it.length, it.width) else (it.width, it.length);
    var dy := it.height;
    var box := FromCenter(x, y + dy / 2.0, z, dx, dy, dz);
    PlacedItem(it, x, y, z, rotationY, (dx, dy, dz), box, (box.minX, box.minZ), it.status)
  }

  /** Takes pose, extents and box from the candidate unchanged, and the status from the unit. */
  function PlacedFromCandidate(c: Candidate, it: Item): (p: PlacedItem)
    ensures p.aabb == c.aabb && p.dims == (c.dx, c.dy, c.dz)
    ensures (p.x, p.y, p.z) == (c.x, c.y, c.z) && p.rotationY == c.rotationY
    ensures p.corner == (c.aabb.minX, c.aabb.minZ)
    ensures p.item == it && p.status == it.status
  {
    PlacedItem(it, c.x, c.y, c.z, c.rotationY, (c.dx, c.dy, c.dz), c.aabb, (c.aabb.minX, c.aabb.minZ), it.status)
  }
}
