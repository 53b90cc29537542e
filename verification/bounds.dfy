/** The geometric gates a candidate must pass: inside the hold, and clear of placed units. */
module Bounds {
  import opened Domain
  import opened Aabb

  /** A gate's verdict: pass, or fail with reasons. */
  datatype GateResult = GateResult(ok: bool, reasons: seq<string>)

  predicate WellFormed(g: GateResult) {
    g.ok <==> g.reasons == []
  }

  /** Fails with "oob" exactly when the candidate's box leaves the hold. */
  function CheckOob(c: Candidate, v: Vehicle): (g: GateResult)
    ensures WellFormed(g)
    ensures g.ok <==> !OutOfBounds(c.aabb, v, BoxEps)
    ensures !g.ok ==> g.reasons == ["oob"]
  {
    if OutOfBounds(c.aabb, v, BoxEps) then GateResult(false, ["oob"]) else GateResult(true, [])
  }

  /** Fails with "collision" exactly when the candidate's box intersects some placed box. */
  function CheckCollision(c: Candidate, placed: seq<PlacedItem>): (g: GateResult)
    ensures WellFormed(g)
    ensures g.ok <==> forall i :: 0 <= i < |placed| ==> !Intersects(c.aabb, placed[i].aabb, BoxEps)
    ensures !g.ok ==> g.reasons == ["collision"]
    ensures placed == [] ==> g.ok
  {
    if CollidesWithAny(c.aabb, placed, BoxEps) then GateResult(false, ["collision"]) else GateResult(true, [])
  }
}
