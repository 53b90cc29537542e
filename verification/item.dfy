/**
  Size helpers and the cargo-type classifiers that decide a unit's queue
  class: oversize, standard pallet, box-like, or other.
 */
module ItemCatalog {
  import opened Wrappers
  import opened Text
  import opened Domain

  /** Slack when matching nominal pallet sizes. */
  const SizeTolerance := 0.03
  /** Slack above the nominal oversize length. */
  const OversizeTolerance := 0.01
  /** How close to the hold width a unit counts as full-width. */
  const WidthMargin := 0.02

  /** Floor extents `(dx, dz)` for a rotation about y: a quarter turn swaps width and length. */
  function DimsXY(it: Item, rotationY: int): (d: (real, real))
    ensures rotationY % 180 == 90 ==> d == (it.length, it.width)
    ensures rotationY % 180 != 90 ==> d == (it.width, it.length)
  {
    if rotationY % 180 == 90 then (it.length, it.width) else (it.width, it.length)
  }

  /** Rotation never changes the floor area a unit takes. */
  lemma DimsXYArea(it: Item, rotationY: int)
    ensures DimsXY(it, rotationY).0 * DimsXY(it, rotationY).1 == FootprintM2(it)
  {
  }

  /** Unclamped floor area, as the classifiers compute it. */
  function FootprintM2(it: Item): real {
    it.width * it.length
  }

  /** Unclamped volume. */
  function VolumeM3(it: Item): (v: real)
    ensures v == FootprintM2(it) * it.height
  {
    it.width * it.length * it.height
  }

  /** The record's clamped measures agree with these whenever no extent is negative. */
  lemma MeasuresAgree(it: Item)
    requires it.width >= 0.0 && it.length >= 0.0 && it.height >= 0.0
    ensures it.Footprint() == FootprintM2(it) && it.Volume() == VolumeM3(it)
  {
  }

  /** The pallet-type text contains "BOX" once upper-cased; a missing type reads as empty. */
  predicate MentionsBox(t: Option<string>) {
    HasSubstring(Upper(t.GetOr("")), "BOX")
  }

  /**
    A box or small package: the pallet type or its normalised form says BOX,
    or the footprint is at most 0.40 x 0.40, or the unit is tall (1.6 m or
    more) and narrow (0.6 m or less on its short side).
   */
  function IsBoxLike(it: Item): (b: bool)
    ensures MentionsBox(it.palletType) || MentionsBox(it.palletTypeNorm) ==> b
    ensures FootprintM2(it) <= 0.40 * 0.40 ==> b
    ensures it.height >= 1.6 && MinR(it.width, it.length) <= 0.6 ==> b
    ensures b ==> (MentionsBox(it.palletType) || MentionsBox(it.palletTypeNorm)
                   || FootprintM2(it) <= 0.16 || (it.height >= 1.6 && MinR(it.width, it.length) <= 0.6))
  {
    if MentionsBox(it.palletType) || MentionsBox(it.palletTypeNorm) then true
    else if FootprintM2(it) <= 0.40 * 0.40 then true
    else if it.height >= 1.6 && MinR(it.width, it.length) <= 0.6 then true
    else false
  }

  predicate Close(x: real, y: real, tol: real) {
    AbsR(x - y) <= tol
  }

  /** The unit matches `a x b` in either orientation, within `tol`. */
  predicate MatchesEitherWay(it: Item, a: real, b: real, tol: real) {
    (Close(it.width, a, tol) && Close(it.length, b, tol)) || (Close(it.width, b, tol) && Close(it.length, a, tol))
  }

  /** A EUR pallet, 0.80 x 1.20, either way round. */
  predicate IsStandard80x120(it: Item, tol: real) {
    MatchesEitherWay(it, 0.80, 1.20, tol)
  }

  /** A Finnish pallet, 1.00 x 1.20, either way round. */
  predicate IsFin100x120(it: Item, tol: real) {
    MatchesEitherWay(it, 1.00, 1.20, tol)
  }

  /** A square 1.20 x 1.20 pallet. */
  predicate IsSquare120(it: Item, tol: real) {
    Close(it.width, 1.20, tol) && Close(it.length, 1.20, tol)
  }

  /** The unit with width and length exchanged. */
  function Swapped(it: Item): (s: Item)
    ensures s.width == it.length && s.length == it.width
    ensures s.(width := it.width, length := it.length) == it
  {
    it.(width := it.length, length := it.width)
  }

  /** The standard-pallet tests do not care which side is called the width. */
  lemma StandardSizesSwapInvariant(it: Item, tol: real)
    ensures IsStandard80x120(Swapped(it), tol) == IsStandard80x120(it, tol)
    ensures IsFin100x120(Swapped(it), tol) == IsFin100x120(it, tol)
    ensures IsSquare120(Swapped(it), tol) == IsSquare120(it, tol)
  {
  }

  /**
    Oversize on the floor: the longer side reaches 1.60 m (plus `tol`), or
    2.40 m (plus `tol`), or either side comes within 2 cm of the hold width
    when that width is known.
   */
  function IsOversize(it: Item, innerWidth: Option<real>, tol: real): (b: bool)
    ensures MaxR(it.width, it.length) >= 1.60 + tol ==> b
    ensures innerWidth.Some? && (it.width >= innerWidth.value - WidthMargin || it.length >= innerWidth.value - WidthMargin) ==> b
    ensures b ==> (MaxR(it.width, it.length) >= 1.60 + tol
                   || (innerWidth.Some? && (it.width >= innerWidth.value - WidthMargin || it.length >= innerWidth.value - WidthMargin)))
  {
    var m := MaxR(it.width, it.length);
    if m >= 1.60 + tol then true
    else if m >= 2.40 + tol then true
    else if innerWidth.Some? && (it.width >= innerWidth.value - WidthMargin || it.length >= innerWidth.value - WidthMargin) then true
    else false
  }

  /** With the default slack, any unit whose longer side reaches 1.61 m is oversize. */
  lemma LongUnitIsOversize(it: Item, innerWidth: Option<real>)
    requires MaxR(it.width, it.length) >= 1.61
    ensures IsOversize(it, innerWidth, OversizeTolerance)
  {
  }

  datatype ItemClassName = OversizeClass | StandardClass | BoxClass | OtherClass

  /** The queue class, decided in the order oversize, standard, box, other. */
  function ItemClass(it: Item, innerWidth: Option<real>): (c: ItemClassName)
    ensures c == OversizeClass <==> IsOversize(it, innerWidth, OversizeTolerance)
    ensures c == StandardClass <==> (!IsOversize(it, innerWidth, OversizeTolerance)
      && (IsStandard80x120(it, SizeTolerance) || IsFin100x120(it, SizeTolerance) || IsSquare120(it, SizeTolerance)))
    ensures c == BoxClass ==> IsBoxLike(it)
    ensures c == OtherClass ==> !IsBoxLike(it)
  {
    if IsOversize(it, innerWidth, OversizeTolerance) then OversizeClass
    else if IsStandard80x120(it, SizeTolerance) || IsFin100x120(it, SizeTolerance) || IsSquare120(it, SizeTolerance) then StandardClass
    else if IsBoxLike(it) then BoxClass
    else OtherClass
  }

  /** The class of a unit does not change when its width and length are exchanged. */
  lemma ItemClassSwapInvariant(it: Item, innerWidth: Option<real>)
    ensures ItemClass(Swapped(it), innerWidth) == ItemClass(it, innerWidth)
  {
    StandardSizesSwapInvariant(it, SizeTolerance);
    assert FootprintM2(Swapped(it)) == FootprintM2(it);
  }
}
