/**
  The free floor area of the hold as a list of axis-aligned rectangles, and
  the operations that carve a placed footprint out of it: split, prune of
  contained rectangles, normalisation and the greedy merge fixpoint.

  Every comparison carries a tolerance. The code's constants are gathered in
  `DefaultTolerances`; the geometric guarantees are proved for the exact
  setting (`Exact`), where every tolerance is zero.
 */
module FreeRects {
  import opened Wrappers
  import opened Domain

  /** The tolerances and caps the free-rectangle code uses. */
  datatype Tolerances = Tolerances(
    intersectEps: real,   // overlap test before splitting
    splitEps: real,       // whether a strip is cut at all
    pruneEps: real,       // containment slack when pruning
    mergeEps: real,       // span equality and touch slack when merging
    minArea: real,        // rectangles of area at most this are dropped
    maxIters: nat)        // cap on merge passes

  const DefaultTolerances := Tolerances(1e-9, 1e-9, 1e-9, 1e-6, 1e-9, 50)

  /** All tolerances zero; rectangles of area at most `minArea >= 0` still dropped. */
  predicate Exact(t: Tolerances) {
    t.intersectEps == 0.0 && t.splitEps == 0.0 && t.pruneEps == 0.0 && t.mergeEps == 0.0
    && t.minArea >= 0.0
  }

  predicate Ordered(r: Rect) {
    r.minX <= r.maxX && r.minZ <= r.maxZ
  }

  predicate StrictlyOrdered(r: Rect) {
    r.minX < r.maxX && r.minZ < r.maxZ
  }

  /** Area, with inverted extents counted as zero. */
  function RectArea(r: Rect): (a: real)
    ensures a >= 0.0
    ensures a > 0.0 <==> StrictlyOrdered(r)
    ensures Ordered(r) ==> a == (r.maxX - r.minX) * (r.maxZ - r.minZ)
  {
    var w := MaxR(0.0, r.maxX - r.minX);
    var l := MaxR(0.0, r.maxZ - r.minZ);
    assert w > 0.0 && l > 0.0 ==> w * l > 0.0;
    w * l
  }

  /** `small` lies within `big` widened by `eps` on every side. */
  predicate RectContains(big: Rect, small: Rect, eps: real) {
    small.minX >= big.minX - eps && small.maxX <= big.maxX + eps
    && small.minZ >= big.minZ - eps && small.maxZ <= big.maxZ + eps
  }

  /** The rectangles overlap by more than `eps` on both axes. */
  predicate RectIntersects(a: Rect, b: Rect, eps: real) {
    !(a.maxX <= b.minX + eps || a.minX >= b.maxX - eps)
    && !(a.maxZ <= b.minZ + eps || a.minZ >= b.maxZ - eps)
  }

  /** Closed and open point membership on the floor. */
  predicate InRect(r: Rect, x: real, z: real) {
    r.minX <= x <= r.maxX && r.minZ <= z <= r.maxZ
  }

  predicate InRectOpen(r: Rect, x: real, z: real) {
    r.minX < x < r.maxX && r.minZ < z < r.maxZ
  }

  /** Exact containment is the inclusion of point sets, for a non-empty inner rectangle. */
  lemma ContainsIffSubset(big: Rect, small: Rect)
    requires Ordered(small)
    ensures RectContains(big, small, 0.0)
      <==> forall x: real, z: real :: InRect(small, x, z) ==> InRect(big, x, z)
  {
    if !RectContains(big, small, 0.0) {
      assert InRect(small, small.minX, small.minZ) && InRect(small, small.maxX, small.maxZ);
    }
  }

  lemma RectContainsReflexive(r: Rect, eps: real)
    requires eps >= 0.0
    ensures RectContains(r, r, eps)
  {
  }

  /** The overlap test is symmetric, and rectangles that only share an edge do not overlap. */
  lemma RectIntersectsSymmetric(a: Rect, b: Rect, eps: real)
    ensures RectIntersects(a, b, eps) <==> RectIntersects(b, a, eps)
    ensures eps >= 0.0 && (a.maxX == b.minX || a.maxZ == b.minZ) ==> !RectIntersects(a, b, eps)
  {
  }

  /** Exact containment is antisymmetric. */
  lemma ContainsAntisymmetric(a: Rect, b: Rect)
    requires RectContains(a, b, 0.0) && RectContains(b, a, 0.0)
    ensures a == b
  {
  }

  // ---------------------------------------------------------------------------
  // Split
  // ---------------------------------------------------------------------------

  /** The up-to-four strips of `free` left, right, below and above `used`, before the area filter. */
  function Strips(free: Rect, used: Rect, eps: real): (out: seq<Rect>)
    ensures |out| <= 4
  {
    var left := if used.minX > free.minX + eps
      then [Rect(free.minX, MinR(used.minX, free.maxX), free.minZ, free.maxZ)] else [];
    var right := if used.maxX < free.maxX - eps
      then [Rect(MaxR(used.maxX, free.minX), free.maxX, free.minZ, free.maxZ)] else [];
    var bottom := if used.minZ > free.minZ + eps
      then [Rect(MaxR(free.minX, used.minX), MinR(free.maxX, used.maxX), free.minZ, MinR(used.minZ, free.maxZ))] else [];
    var top := if used.maxZ < free.maxZ - eps
      then [Rect(MaxR(free.minX, used.minX), MinR(free.maxX, used.maxX), MaxR(used.maxZ, free.minZ), free.maxZ)] else [];
    left + right + bottom + top
  }

  /** Each strip lies within `free` and does not overlap `used`. */
  lemma StripsSound(free: Rect, used: Rect, eps: real)
    ensures forall r :: r in Strips(free, used, eps) ==> RectContains(free, r, 0.0) && !RectIntersects(r, used, 0.0)
  {
    var left := Rect(free.minX, MinR(used.minX, free.maxX), free.minZ, free.maxZ);
    var right := Rect(MaxR(used.maxX, free.minX), free.maxX, free.minZ, free.maxZ);
    var bottom := Rect(MaxR(free.minX, used.minX), MinR(free.maxX, used.maxX), free.minZ, MinR(used.minZ, free.maxZ));
    var top := Rect(MaxR(free.minX, used.minX), MinR(free.maxX, used.maxX), MaxR(used.maxZ, free.minZ), free.maxZ);
    assert forall r :: r in Strips(free, used, eps) ==> r in [left, right, bottom, top];
  }

  /** The rectangles of `rs` whose area exceeds `minArea`, in order. */
  function KeepLarge(rs: seq<Rect>, minArea: real): (out: seq<Rect>)
    ensures |out| <= |rs|
    ensures forall k :: 0 <= k < |out| ==> out[k] in rs && RectArea(out[k]) > minArea
    ensures forall r :: r in rs && RectArea(r) > minArea ==> r in out
    decreases |rs|
  {
    if rs == [] then []
    else (if RectArea(rs[0]) > minArea then [rs[0]] else []) + KeepLarge(rs[1..], minArea)
  }

  /** `free` minus `used`, as strips of area above `minArea`. */
  function SplitRect(free: Rect, used: Rect, eps: real, minArea: real): (out: seq<Rect>)
    ensures |out| <= 4
    ensures forall k :: 0 <= k < |out| ==> RectContains(free, out[k], 0.0)
    ensures forall k :: 0 <= k < |out| ==> !RectIntersects(out[k], used, 0.0)
    ensures forall k :: 0 <= k < |out| ==> RectArea(out[k]) > minArea
    ensures minArea >= 0.0 ==> forall k :: 0 <= k < |out| ==> StrictlyOrdered(out[k])
  {
    StripsSound(free, used, eps);
    KeepLarge(Strips(free, used, eps), minArea)
  }

  /**
    Nothing of the free rectangle outside the used one is lost: with no
    tolerance, every point strictly inside `free` and outside the closed `used`
    lies in one of the strips.
   */
  lemma SplitCovers(free: Rect, used: Rect, x: real, z: real)
    requires StrictlyOrdered(used)
    requires InRectOpen(free, x, z) && !InRect(used, x, z)
    ensures exists k :: 0 <= k < |SplitRect(free, used, 0.0, 0.0)| && InRect(SplitRect(free, used, 0.0, 0.0)[k], x, z)
  {
    var s := Strips(free, used, 0.0);
    var p: Rect;
    if x < used.minX {
      p := Rect(free.minX, MinR(used.minX, free.maxX), free.minZ, free.maxZ);
      assert p == s[0];
    } else if x > used.maxX {
      p := Rect(MaxR(used.maxX, free.minX), free.maxX, free.minZ, free.maxZ);
      assert p == s[if used.minX > free.minX then 1 else 0];
    } else if z < used.minZ {
      p := Rect(MaxR(free.minX, used.minX), MinR(free.maxX, used.maxX), free.minZ, MinR(used.minZ, free.maxZ));
      assert p in s;
    } else {
      p := Rect(MaxR(free.minX, used.minX), MinR(free.maxX, used.maxX), MaxR(used.maxZ, free.minZ), free.maxZ);
      assert p in s;
    }
    assert InRect(p, x, z) && StrictlyOrdered(p);
    assert p in SplitRect(free, used, 0.0, 0.0);
  }

  // ---------------------------------------------------------------------------
  // Prune
  // ---------------------------------------------------------------------------

  /** Some other entry of `rects` contains entry `i`. */
  predicate ContainedElsewhere(rects: seq<Rect>, i: nat, eps: real)
    requires i < |rects|
  {
    exists j :: 0 <= j < |rects| && j != i && RectContains(rects[j], rects[i], eps)
  }

  /** The inner scan: does some entry from `j` on, other than `i`, contain entry `i`? */
  function ScanContainer(rects: seq<Rect>, i: nat, j: nat, eps: real): (b: bool)
    requires i < |rects| && j <= |rects|
    ensures b <==> exists k :: j <= k < |rects| && k != i && RectContains(rects[k], rects[i], eps)
    decreases |rects| - j
  {
    if j == |rects| then false
    else if j != i && RectContains(rects[j], rects[i], eps) then true
    else ScanContainer(rects, i, j + 1, eps)
  }

  predicate Distinct<T(==)>(s: seq<T>) {
    forall a, b :: 0 <= a < b < |s| ==> s[a] != s[b]
  }

  /** The entries from `i` on that no other entry contains, in order. */
  function PruneFrom(rects: seq<Rect>, i: nat, eps: real): (out: seq<Rect>)
    requires i <= |rects|
    ensures |out| <= |rects| - i
    ensures forall r :: r in out <==>
      exists k :: i <= k < |rects| && rects[k] == r && !ContainedElsewhere(rects, k, eps)
    ensures eps >= 0.0 ==> Distinct(out)
    decreases |rects| - i
  {
    if i == |rects| then []
    else
      var rest := PruneFrom(rects, i + 1, eps);
      if ScanContainer(rects, i, 0, eps) then rest
      else
        PruneFromOnce(rects, i, eps, rest);
        [rects[i]] + rest
  }

  /** A kept entry does not reappear later: an equal later entry would contain it. */
  lemma PruneFromOnce(rects: seq<Rect>, i: nat, eps: real, rest: seq<Rect>)
    requires i < |rects|
    requires forall r :: r in rest <==>
      exists k :: i + 1 <= k < |rects| && rects[k] == r && !ContainedElsewhere(rects, k, eps)
    ensures eps >= 0.0 && !ContainedElsewhere(rects, i, eps) ==> rects[i] !in rest
  {
  }

  /** Distinct survivors were distinct entries, none of which another contains. */
  lemma PruneNoContainment(rects: seq<Rect>, eps: real)
    requires eps >= 0.0
    ensures forall a, b :: 0 <= a < |PruneFrom(rects, 0, eps)| && 0 <= b < |PruneFrom(rects, 0, eps)| && a != b ==>
      !RectContains(PruneFrom(rects, 0, eps)[a], PruneFrom(rects, 0, eps)[b], eps)
  {
    var out := PruneFrom(rects, 0, eps);
    forall a, b | 0 <= a < |out| && 0 <= b < |out| && a != b
      ensures !RectContains(out[a], out[b], eps)
    {
      assert out[a] in out && out[b] in out;
      var ka :| 0 <= ka < |rects| && rects[ka] == out[a] && !ContainedElsewhere(rects, ka, eps);
      var kb :| 0 <= kb < |rects| && rects[kb] == out[b] && !ContainedElsewhere(rects, kb, eps);
      if a < b { assert out[a] != out[b]; } else { assert out[b] != out[a]; }
    }
  }

  /**
    Drops every rectangle that some other entry contains (within `eps`).
    Survivors keep their order, are pairwise distinct and none contains
    another; two equal entries contain each other, so both are dropped.
   */
  function PruneContained(rects: seq<Rect>, eps: real): (out: seq<Rect>)
    ensures |out| <= |rects|
    ensures forall r :: r in out <==>
      exists k :: 0 <= k < |rects| && rects[k] == r && !ContainedElsewhere(rects, k, eps)
    ensures eps >= 0.0 ==> Distinct(out)
    ensures eps >= 0.0 ==> forall a, b :: 0 <= a < |out| && 0 <= b < |out| && a != b ==>
      !RectContains(out[a], out[b], eps)
  {
    var out := PruneFrom(rects, 0, eps);
    if eps >= 0.0 then
      PruneNoContainment(rects, eps);
      out
    else
      out
  }

  /** As written, an exact duplicate is dropped together with its twin. */
  lemma PruneDropsExactDuplicates(r: Rect, eps: real)
    requires eps >= 0.0
    ensures PruneContained([r, r], eps) == []
  {
    var rs := [r, r];
    assert ContainedElsewhere(rs, 0, eps) by { assert RectContains(rs[1], rs[0], eps); }
    assert ContainedElsewhere(rs, 1, eps) by { assert RectContains(rs[0], rs[1], eps); }
    assert ScanContainer(rs, 1, 0, eps);
    assert ScanContainer(rs, 0, 0, eps);
    assert PruneFrom(rs, 1, eps) == PruneFrom(rs, 2, eps) == [];
  }

  /** The entries that strictly contain entry `k`. */
  function Containers(rects: seq<Rect>, k: nat): set<nat>
    requires k < |rects|
  {
    set j: nat | j < |rects| && j != k && RectContains(rects[j], rects[k], 0.0)
  }

  /**
    With distinct entries and no tolerance, pruning loses no area: every
    entry lies inside some survivor.
   */
  lemma {:induction false} PruneCovers(rects: seq<Rect>, k: nat)
    requires Distinct(rects) && k < |rects|
    ensures exists m :: 0 <= m < |PruneContained(rects, 0.0)| && RectContains(PruneContained(rects, 0.0)[m], rects[k], 0.0)
    decreases Containers(rects, k)
  {
    var out := PruneContained(rects, 0.0);
    if !ContainedElsewhere(rects, k, 0.0) {
      assert rects[k] in out;
      var m :| 0 <= m < |out| && out[m] == rects[k];
      assert RectContains(out[m], rects[k], 0.0);
    } else {
      var j :| 0 <= j < |rects| && j != k && RectContains(rects[j], rects[k], 0.0);
      assert j in Containers(rects, k);
      forall i | i in Containers(rects, j) ensures i in Containers(rects, k) {
        assert RectContains(rects[i], rects[j], 0.0);
      }
      assert j !in Containers(rects, j);
      assert Containers(rects, j) < Containers(rects, k);
      PruneCovers(rects, j);
      var m :| 0 <= m < |out| && RectContains(out[m], rects[j], 0.0);
      assert RectContains(out[m], rects[k], 0.0);
    }
  }

  // ---------------------------------------------------------------------------
  // Normalise and merge
  // ---------------------------------------------------------------------------

  function Clamp(v: real, eps: real): real {
    if AbsR(v) < eps then 0.0 else v
  }

  /**
    Orders each extent and snaps coordinates closer than `eps` to zero.
    The result is ordered, moves no bound by `eps` or more, and leaves an
    ordered rectangle alone when there is no tolerance.
   */
  function Normalize(r: Rect, eps: real): (n: Rect)
    ensures eps >= 0.0 ==> Ordered(n)
    ensures AbsR(n.minX - MinR(r.minX, r.maxX)) < eps || n.minX == MinR(r.minX, r.maxX)
    ensures AbsR(n.maxX - MaxR(r.minX, r.maxX)) < eps || n.maxX == MaxR(r.minX, r.maxX)
    ensures AbsR(n.minZ - MinR(r.minZ, r.maxZ)) < eps || n.minZ == MinR(r.minZ, r.maxZ)
    ensures AbsR(n.maxZ - MaxR(r.minZ, r.maxZ)) < eps || n.maxZ == MaxR(r.minZ, r.maxZ)
    ensures Ordered(r) && eps <= 0.0 ==> n == r
  {
    var x0 := if r.maxX < r.minX then r.maxX else r.minX;
    var x1 := if r.maxX < r.minX then r.minX else r.maxX;
    var z0 := if r.maxZ < r.minZ then r.maxZ else r.minZ;
    var z1 := if r.maxZ < r.minZ then r.minZ else r.maxZ;
    Rect(Clamp(x0, eps), Clamp(x1, eps), Clamp(z0, eps), Clamp(z1, eps))
  }

  lemma NormalizeIdempotent(r: Rect, eps: real)
    requires eps >= 0.0
    ensures Normalize(Normalize(r, eps), eps) == Normalize(r, eps)
  {
  }

  function Hull(a: Rect, b: Rect): Rect {
    Rect(MinR(a.minX, b.minX), MaxR(a.maxX, b.maxX), MinR(a.minZ, b.minZ), MaxR(a.maxZ, b.maxZ))
  }

  predicate AlmostEqual(a: real, b: real, eps: real) {
    AbsR(a - b) <= eps
  }

  /** Same z-span and x-extents that touch or overlap, within `eps`. */
  predicate MergeableAlongX(a: Rect, b: Rect, eps: real) {
    AlmostEqual(a.minZ, b.minZ, eps) && AlmostEqual(a.maxZ, b.maxZ, eps)
    && a.maxX >= b.minX - eps && b.maxX >= a.minX - eps
  }

  /** Same x-span and z-extents that touch or overlap, within `eps`. */
  predicate MergeableAlongZ(a: Rect, b: Rect, eps: real) {
    AlmostEqual(a.minX, b.minX, eps) && AlmostEqual(a.maxX, b.maxX, eps)
    && a.maxZ >= b.minZ - eps && b.maxZ >= a.minZ - eps
  }

  /**
    Merges two rectangles that share a full edge (or overlap along it):
    along x first, then along z. The result keeps `a`'s span on the shared
    axis, so it contains `a` exactly and `b` within `eps`; with no tolerance
    it is the bounding hull of the two.
   */
  function TryMerge(a: Rect, b: Rect, eps: real): (r: Option<Rect>)
    ensures r.Some? <==> MergeableAlongX(a, b, eps) || MergeableAlongZ(a, b, eps)
    ensures r.Some? ==> RectContains(r.value, a, 0.0) && RectContains(r.value, b, eps)
    ensures r.Some? && eps == 0.0 ==> r.value == Hull(a, b)
  {
    if MergeableAlongX(a, b, eps) then
      Some(Rect(MinR(a.minX, b.minX), MaxR(a.maxX, b.maxX), a.minZ, a.maxZ))
    else if MergeableAlongZ(a, b, eps) then
      Some(Rect(a.minX, a.maxX, MinR(a.minZ, b.minZ), MaxR(a.maxZ, b.maxZ)))
    else
      None
  }

  /** With no tolerance, merging two rectangles clear of `w` gives one clear of `w`. */
  lemma MergeKeepsClear(a: Rect, b: Rect, w: Rect)
    requires StrictlyOrdered(w)
    requires TryMerge(a, b, 0.0).Some?
    requires !RectIntersects(a, w, 0.0) && !RectIntersects(b, w, 0.0)
    ensures !RectIntersects(TryMerge(a, b, 0.0).value, w, 0.0)
  {
    var m := TryMerge(a, b, 0.0).value;
    if MergeableAlongX(a, b, 0.0) {
      if !(a.maxZ <= w.minZ || a.minZ >= w.maxZ) {
        assert a.maxX <= w.minX || a.minX >= w.maxX;
        assert b.maxX <= w.minX || b.minX >= w.maxX;
      }
    } else {
      if !(a.maxX <= w.minX || a.minX >= w.maxX) {
        assert a.maxZ <= w.minZ || a.minZ >= w.maxZ;
        assert b.maxZ <= w.minZ || b.minZ >= w.maxZ;
      }
    }
  }

  /** The rectangles of `rs` whose area exceeds `minArea`, each normalised. */
  function Cleanup(rs: seq<Rect>, eps: real, minArea: real): (out: seq<Rect>)
    ensures |out| <= |rs|
    ensures eps >= 0.0 ==> forall k :: 0 <= k < |out| ==> Ordered(out[k])
    ensures eps == 0.0 && minArea >= 0.0 ==>
      forall k :: 0 <= k < |out| ==> out[k] in rs && RectArea(out[k]) > minArea && StrictlyOrdered(out[k])
    decreases |rs|
  {
    if rs == [] then []
    else (if RectArea(rs[0]) > minArea then [Normalize(rs[0], eps)] else []) + Cleanup(rs[1..], eps, minArea)
  }

  predicate IndicesBelow(used: set<nat>, n: nat) {
    forall k :: k in used ==> k < n
  }

  /** The state of one greedy growth sweep: the rectangle grown so far and the entries absorbed. */
  datatype Growth = Growth(merged: Rect, used: set<nat>, changed: bool)

  /**
    One sweep of the inner loop over `j`: every unused entry other than `i`
    that merges with the rectangle grown so far is absorbed into it.
   */
  function Sweep(cur: seq<Rect>, i: nat, j: nat, merged: Rect, used: set<nat>, eps: real): (s: Growth)
    requires j <= |cur| && IndicesBelow(used, |cur|)
    ensures used <= s.used && IndicesBelow(s.used, |cur|)
    ensures i !in used ==> i !in s.used
    ensures s.changed <==> s.used != used
    ensures !s.changed ==> s.merged == merged
    decreases |cur| - j
  {
    if j == |cur| then Growth(merged, used, false)
    else if i == j || j in used then Sweep(cur, i, j + 1, merged, used, eps)
    else
      match TryMerge(merged, cur[j], eps)
      case Some(m) =>
        var s := Sweep(cur, i, j + 1, Normalize(m, eps), used + {j}, eps);
        assert j in s.used && j !in used;
        Growth(s.merged, s.used, true)
      case None => Sweep(cur, i, j + 1, merged, used, eps)
  }

  function Unused(n: nat, used: set<nat>): set<nat> {
    set k: nat | k < n && k !in used
  }

  /** Repeats sweeps from entry `i` until one absorbs nothing. */
  function Grow(cur: seq<Rect>, i: nat, merged: Rect, used: set<nat>, eps: real): (g: Growth)
    requires i < |cur| && i !in used && IndicesBelow(used, |cur|)
    ensures used <= g.used && IndicesBelow(g.used, |cur|) && i !in g.used
    ensures g.changed <==> g.used != used
    decreases Unused(|cur|, used)
  {
    var s := Sweep(cur, i, 0, merged, used, eps);
    if s.changed then
      assert Unused(|cur|, s.used) < Unused(|cur|, used) by {
        var k :| k in s.used && k !in used;
        assert k in Unused(|cur|, used) && k !in Unused(|cur|, s.used);
      }
      var g := Grow(cur, i, s.merged, s.used, eps);
      Growth(g.merged, g.used, true)
    else
      s
  }

  /** The state of one merge pass. */
  datatype Pass = Pass(used: set<nat>, out: seq<Rect>, mergedAny: bool)

  /** The outer loop of a pass over `i`: each unused entry seeds one grown rectangle. */
  function PassFrom(cur: seq<Rect>, i: nat, used: set<nat>, out: seq<Rect>, mergedAny: bool, eps: real): (p: Pass)
    requires i <= |cur| && IndicesBelow(used, |cur|)
    ensures |p.out| <= |out| + (|cur| - i)
    ensures mergedAny ==> p.mergedAny
    decreases |cur| - i
  {
    if i == |cur| then Pass(used, out, mergedAny)
    else if i in used then PassFrom(cur, i + 1, used, out, mergedAny, eps)
    else
      var g := Grow(cur, i, cur[i], used, eps);
      PassFrom(cur, i + 1, g.used + {i}, out + [g.merged], mergedAny || g.changed, eps)
  }

  /** One full merge pass: grow, prune contained, clean up. Also reports whether anything merged. */
  function MergePass(cur: seq<Rect>, eps: real, minArea: real): (r: (seq<Rect>, bool))
    ensures |r.0| <= |cur|
  {
    var p := PassFrom(cur, 0, {}, [], false, eps);
    (Cleanup(PruneContained(p.out, eps), eps, minArea), p.mergedAny)
  }

  /** Merge passes until one merges nothing, at most `iters` of them. */
  function MergeLoop(cur: seq<Rect>, iters: nat, eps: real, minArea: real): (r: seq<Rect>)
    ensures |r| <= |cur|
    ensures eps >= 0.0 && (forall k :: 0 <= k < |cur| ==> Ordered(cur[k])) ==>
      forall k :: 0 <= k < |r| ==> Ordered(r[k])
    ensures eps == 0.0 && minArea >= 0.0 && (forall k :: 0 <= k < |cur| ==> RectArea(cur[k]) > minArea) ==>
      forall k :: 0 <= k < |r| ==> RectArea(r[k]) > minArea
    decreases iters
  {
    if iters == 0 then cur
    else
      var (nxt, mergedAny) := MergePass(cur, eps, minArea);
      if !mergedAny then nxt else MergeLoop(nxt, iters - 1, eps, minArea)
  }

  /**
    Merges rectangles that share a full edge until nothing merges or
    `maxIters` passes have run. Never returns more rectangles than it was given,
    with a non-negative tolerance every result is ordered, and with no
    tolerance every result has area above `minArea`.
   */
  function MergeAdjacent(rects: seq<Rect>, eps: real, maxIters: nat, minArea: real): (r: seq<Rect>)
    ensures |r| <= |rects|
    ensures rects == [] ==> r == []
    ensures eps >= 0.0 ==> forall k :: 0 <= k < |r| ==> Ordered(r[k])
    ensures eps == 0.0 && minArea >= 0.0 ==> forall k :: 0 <= k < |r| ==> RectArea(r[k]) > minArea
  {
    if rects == [] then []
    else MergeLoop(Cleanup(rects, eps, minArea), maxIters, eps, minArea)
  }

  // ---------------------------------------------------------------------------
  // Clearance of a rectangle is kept through merging (no tolerance)
  // ---------------------------------------------------------------------------

  predicate AllClear(rs: seq<Rect>, w: Rect) {
    forall k :: 0 <= k < |rs| ==> !RectIntersects(rs[k], w, 0.0)
  }

  predicate AllOrdered(rs: seq<Rect>) {
    forall k :: 0 <= k < |rs| ==> Ordered(rs[k])
  }

  lemma {:induction false} SweepKeepsClear(cur: seq<Rect>, i: nat, j: nat, merged: Rect, used: set<nat>, w: Rect)
    requires j <= |cur| && IndicesBelow(used, |cur|)
    requires StrictlyOrdered(w) && AllClear(cur, w) && AllOrdered(cur)
    requires Ordered(merged) && !RectIntersects(merged, w, 0.0)
    ensures Ordered(Sweep(cur, i, j, merged, used, 0.0).merged)
    ensures !RectIntersects(Sweep(cur, i, j, merged, used, 0.0).merged, w, 0.0)
    decreases |cur| - j
  {
    if j == |cur| {
    } else if i == j || j in used {
      SweepKeepsClear(cur, i, j + 1, merged, used, w);
    } else {
      match TryMerge(merged, cur[j], 0.0)
      case Some(m) =>
        MergeKeepsClear(merged, cur[j], w);
        assert Ordered(m);
        SweepKeepsClear(cur, i, j + 1, Normalize(m, 0.0), used + {j}, w);
      case None =>
        SweepKeepsClear(cur, i, j + 1, merged, used, w);
    }
  }

  lemma {:induction false} GrowKeepsClear(cur: seq<Rect>, i: nat, merged: Rect, used: set<nat>, w: Rect)
    requires i < |cur| && i !in used && IndicesBelow(used, |cur|)
    requires StrictlyOrdered(w) && AllClear(cur, w) && AllOrdered(cur)
    requires Ordered(merged) && !RectIntersects(merged, w, 0.0)
    ensures Ordered(Grow(cur, i, merged, used, 0.0).merged)
    ensures !RectIntersects(Grow(cur, i, merged, used, 0.0).merged, w, 0.0)
    decreases Unused(|cur|, used)
  {
    var s := Sweep(cur, i, 0, merged, used, 0.0);
    SweepKeepsClear(cur, i, 0, merged, used, w);
    if s.changed {
      var k :| k in s.used && k !in used;
      assert k in Unused(|cur|, used) && k !in Unused(|cur|, s.used);
      GrowKeepsClear(cur, i, s.merged, s.used, w);
    }
  }

  lemma {:induction false} PassKeepsClear(cur: seq<Rect>, i: nat, used: set<nat>, out: seq<Rect>, mergedAny: bool, w: Rect)
    requires i <= |cur| && IndicesBelow(used, |cur|)
    requires StrictlyOrdered(w) && AllClear(cur, w) && AllOrdered(cur)
    requires AllClear(out, w) && AllOrdered(out)
    ensures AllClear(PassFrom(cur, i, used, out, mergedAny, 0.0).out, w)
    ensures AllOrdered(PassFrom(cur, i, used, out, mergedAny, 0.0).out)
    decreases |cur| - i
  {
    if i == |cur| {
    } else if i in used {
      PassKeepsClear(cur, i + 1, used, out, mergedAny, w);
    } else {
      var g := Grow(cur, i, cur[i], used, 0.0);
      GrowKeepsClear(cur, i, cur[i], used, w);
      PassKeepsClear(cur, i + 1, g.used + {i}, out + [g.merged], mergedAny || g.changed, w);
    }
  }

  lemma CleanupKeepsClear(rs: seq<Rect>, minArea: real, w: Rect)
    requires minArea >= 0.0 && AllClear(rs, w)
    ensures AllClear(Cleanup(rs, 0.0, minArea), w)
    ensures AllOrdered(Cleanup(rs, 0.0, minArea))
  {
    var out := Cleanup(rs, 0.0, minArea);
    forall k | 0 <= k < |out| ensures !RectIntersects(out[k], w, 0.0) {
      assert out[k] in rs;
    }
  }

  lemma {:induction false} MergeLoopKeepsClear(cur: seq<Rect>, iters: nat, minArea: real, w: Rect)
    requires minArea >= 0.0 && StrictlyOrdered(w) && AllClear(cur, w) && AllOrdered(cur)
    ensures AllClear(MergeLoop(cur, iters, 0.0, minArea), w)
    decreases iters
  {
    if iters > 0 {
      var p := PassFrom(cur, 0, {}, [], false, 0.0);
      PassKeepsClear(cur, 0, {}, [], false, w);
      var pr := PruneContained(p.out, 0.0);
      assert AllClear(pr, w) by {
        forall k | 0 <= k < |pr| ensures !RectIntersects(pr[k], w, 0.0) {
          assert pr[k] in pr;
        }
      }
      CleanupKeepsClear(pr, minArea, w);
      var (nxt, mergedAny) := MergePass(cur, 0.0, minArea);
      if mergedAny {
        MergeLoopKeepsClear(nxt, iters - 1, minArea, w);
      }
    }
  }

  /** With no tolerance, merging never makes a rectangle overlap a region all the inputs kept clear of. */
  lemma MergeAdjacentKeepsClear(rects: seq<Rect>, maxIters: nat, minArea: real, w: Rect)
    requires minArea >= 0.0 && StrictlyOrdered(w) && AllClear(rects, w)
    ensures AllClear(MergeAdjacent(rects, 0.0, maxIters, minArea), w)
  {
    if rects != [] {
      CleanupKeepsClear(rects, minArea, w);
      MergeLoopKeepsClear(Cleanup(rects, 0.0, minArea), maxIters, minArea, w);
    }
  }

  // ---------------------------------------------------------------------------
  // Coverage through one merge pass (no tolerance)
  // ---------------------------------------------------------------------------

  lemma ContainsTrans(a: Rect, b: Rect, c: Rect)
    requires RectContains(a, b, 0.0) && RectContains(b, c, 0.0)
    ensures RectContains(a, c, 0.0)
  {
  }

  lemma {:induction false} SweepCovers(cur: seq<Rect>, i: nat, j: nat, merged: Rect, used: set<nat>)
    requires j <= |cur| && IndicesBelow(used, |cur|)
    requires AllOrdered(cur) && Ordered(merged)
    ensures Ordered(Sweep(cur, i, j, merged, used, 0.0).merged)
    ensures RectContains(Sweep(cur, i, j, merged, used, 0.0).merged, merged, 0.0)
    ensures forall k :: k in Sweep(cur, i, j, merged, used, 0.0).used - used ==>
      RectContains(Sweep(cur, i, j, merged, used, 0.0).merged, cur[k], 0.0)
    decreases |cur| - j
  {
    var s := Sweep(cur, i, j, merged, used, 0.0);
    if j == |cur| {
    } else if i == j || j in used {
      SweepCovers(cur, i, j + 1, merged, used);
    } else {
      match TryMerge(merged, cur[j], 0.0)
      case Some(m) =>
        assert Normalize(m, 0.0) == m;
        SweepCovers(cur, i, j + 1, m, used + {j});
        forall k | k in s.used - used ensures RectContains(s.merged, cur[k], 0.0) {
          if k == j {
            ContainsTrans(s.merged, m, cur[j]);
          }
        }
        ContainsTrans(s.merged, m, merged);
      case None =>
        SweepCovers(cur, i, j + 1, merged, used);
    }
  }

  lemma {:induction false} GrowCovers(cur: seq<Rect>, i: nat, merged: Rect, used: set<nat>)
    requires i < |cur| && i !in used && IndicesBelow(used, |cur|)
    requires AllOrdered(cur) && Ordered(merged)
    ensures Ordered(Grow(cur, i, merged, used, 0.0).merged)
    ensures RectContains(Grow(cur, i, merged, used, 0.0).merged, merged, 0.0)
    ensures forall k :: k in Grow(cur, i, merged, used, 0.0).used - used ==>
      RectContains(Grow(cur, i, merged, used, 0.0).merged, cur[k], 0.0)
    decreases Unused(|cur|, used)
  {
    var s := Sweep(cur, i, 0, merged, used, 0.0);
    SweepCovers(cur, i, 0, merged, used);
    if s.changed {
      var k :| k in s.used && k !in used;
      assert k in Unused(|cur|, used) && k !in Unused(|cur|, s.used);
      var g := Grow(cur, i, s.merged, s.used, 0.0);
      GrowCovers(cur, i, s.merged, s.used);
      forall k | k in g.used - used ensures RectContains(g.merged, cur[k], 0.0) {
        if k in s.used {
          ContainsTrans(g.merged, s.merged, cur[k]);
        }
      }
      ContainsTrans(g.merged, s.merged, merged);
    }
  }

  /** Every entry of `rects` lies inside some entry of `out`. */
  predicate CoveredBy(rects: seq<Rect>, out: seq<Rect>) {
    forall k :: 0 <= k < |rects| ==> CoveredAt(rects, out, k)
  }

  /** Entry `k` of `rects` lies inside some entry of `out`. */
  predicate CoveredAt(rects: seq<Rect>, out: seq<Rect>, k: nat)
    requires k < |rects|
  {
    exists m :: 0 <= m < |out| && RectContains(out[m], rects[k], 0.0)
  }

  lemma {:induction false} PassFromCovers(cur: seq<Rect>, i: nat, used: set<nat>, out: seq<Rect>, mergedAny: bool)
    requires i <= |cur| && IndicesBelow(used, |cur|) && AllOrdered(cur)
    requires forall k :: 0 <= k < |cur| && (k < i || k in used) ==> CoveredAt(cur, out, k)
    ensures CoveredBy(cur, PassFrom(cur, i, used, out, mergedAny, 0.0).out)
    decreases |cur| - i
  {
    if i == |cur| {
      forall k | 0 <= k < |cur| ensures CoveredAt(cur, out, k) {
        assert k < i;
      }
    } else if i in used {
      PassFromCovers(cur, i + 1, used, out, mergedAny);
    } else {
      var g := Grow(cur, i, cur[i], used, 0.0);
      GrowCovers(cur, i, cur[i], used);
      var out' := out + [g.merged];
      forall k | 0 <= k < |cur| && (k < i + 1 || k in g.used + {i})
        ensures CoveredAt(cur, out', k)
      {
        if k < i || k in used {
          assert CoveredAt(cur, out, k);
          var m :| 0 <= m < |out| && RectContains(out[m], cur[k], 0.0);
          assert out'[m] == out[m];
        } else if k == i {
          assert out'[|out|] == g.merged;
        } else {
          assert k in g.used - used;
          assert out'[|out|] == g.merged;
        }
      }
      PassFromCovers(cur, i + 1, g.used + {i}, out', mergedAny || g.changed);
    }
  }

  /**
    With no tolerance, before its prune a merge pass loses no area: every
    ordered input rectangle lies inside one of the grown rectangles.
   */
  lemma PassCovers(cur: seq<Rect>)
    requires AllOrdered(cur)
    ensures CoveredBy(cur, PassFrom(cur, 0, {}, [], false, 0.0).out)
  {
    PassFromCovers(cur, 0, {}, [], false);
  }

  // ---------------------------------------------------------------------------
  // The free-rectangle set
  // ---------------------------------------------------------------------------

  /** The whole floor of the hold, centred on the origin. */
  function InitForVehicle(v: Vehicle): (rs: seq<Rect>)
    ensures |rs| == 1
    ensures (rs[0].minX + rs[0].maxX) / 2.0 == 0.0 && (rs[0].minZ + rs[0].maxZ) / 2.0 == 0.0
    ensures rs[0].maxX - rs[0].minX == v.innerWidth && rs[0].maxZ - rs[0].minZ == v.innerLength
  {
    var halfW := v.innerWidth / 2.0;
    var halfL := v.innerLength / 2.0;
    [Rect(-halfW, halfW, -halfL, halfL)]
  }

  /** Each free rectangle clear of `used` is kept; each other one is replaced by its strips. */
  function ReserveSplit(rects: seq<Rect>, used: Rect, t: Tolerances): (out: seq<Rect>)
    decreases |rects|
  {
    if rects == [] then []
    else
      (if !RectIntersects(rects[0], used, t.intersectEps) then [rects[0]]
       else SplitRect(rects[0], used, t.splitEps, t.minArea))
      + ReserveSplit(rects[1..], used, t)
  }

  /** Removes the footprint `used` from the free rectangles: split, prune, merge. */
  function Reserve(rects: seq<Rect>, used: Rect, t: Tolerances): (out: seq<Rect>)
    ensures t.mergeEps >= 0.0 ==> forall k :: 0 <= k < |out| ==> Ordered(out[k])
  {
    var split := ReserveSplit(rects, used, t);
    MergeAdjacent(PruneContained(split, t.pruneEps), t.mergeEps, t.maxIters, t.minArea)
  }

  lemma {:induction false} ReserveSplitClear(rects: seq<Rect>, used: Rect, t: Tolerances, w: Rect)
    requires Exact(t)
    requires AllClear(rects, w) || w == used
    ensures AllClear(ReserveSplit(rects, used, t), w)
    decreases |rects|
  {
    if rects != [] {
      var head := if !RectIntersects(rects[0], used, t.intersectEps) then [rects[0]]
        else SplitRect(rects[0], used, t.splitEps, t.minArea);
      if w != used {
        assert !RectIntersects(rects[0], w, 0.0);
        assert AllClear(rects[1..], w);
      }
      assert AllClear(head, w) by {
        forall k | 0 <= k < |head| ensures !RectIntersects(head[k], w, 0.0) {
          if RectIntersects(rects[0], used, t.intersectEps) {
            assert RectContains(rects[0], head[k], 0.0);
          }
        }
      }
      ReserveSplitClear(rects[1..], used, t, w);
    }
  }

  /**
    With no tolerance, after reserving `used` no free rectangle overlaps it,
    and any region that every free rectangle was clear of stays clear.
   */
  lemma ReserveClear(rects: seq<Rect>, used: Rect, t: Tolerances, w: Rect)
    requires Exact(t) && StrictlyOrdered(used) && StrictlyOrdered(w)
    requires AllClear(rects, w) || w == used
    ensures AllClear(Reserve(rects, used, t), w)
  {
    var split := ReserveSplit(rects, used, t);
    ReserveSplitClear(rects, used, t, w);
    var pr := PruneContained(split, 0.0);
    assert AllClear(pr, w) by {
      forall k | 0 <= k < |pr| ensures !RectIntersects(pr[k], w, 0.0) {
        assert pr[k] in pr;
      }
    }
    MergeAdjacentKeepsClear(pr, t.maxIters, t.minArea, w);
  }
}
