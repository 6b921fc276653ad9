/** Intersection-over-Union of axis-aligned boxes given as inclusive pixel
    coordinates (left, top, right, bottom): a box covers right - left + 1
    columns and bottom - top + 1 rows. */
module Geometry {

  datatype Box = Box(left: int, top: int, right: int, bottom: int)

  /** The IoU of two boxes as the exact pair interArea / unionArea. */
  datatype Overlap = Overlap(inter: int, union: int)

  function Max(a: int, b: int): int { if a >= b then a else b }
  function Min(a: int, b: int): int { if a <= b then a else b }

  /** Columns and rows of a box. Either may be zero or negative: nothing
      forces right >= left or bottom >= top. */
  function Width(b: Box): int { b.right - b.left + 1 }
  function Height(b: Box): int { b.bottom - b.top + 1 }

  /** boxAArea / boxBArea: not clamped, so an inverted box (right < left and
      bottom < top) has a positive area. */
  function Area(b: Box): int { Width(b) * Height(b) }

  /** A box whose right and bottom edges are not left of / above its left
      and top edges. */
  predicate WellFormed(b: Box) { b.left <= b.right && b.top <= b.bottom }

  /** interArea: each side of the intersecting rectangle is clamped at zero. */
  function Intersection(a: Box, b: Box): (r: int)
    ensures r >= 0
    ensures r > 0 ==> Min(a.right, b.right) >= Max(a.left, b.left) && Min(a.bottom, b.bottom) >= Max(a.top, b.top)
  {
    var w := Max(0, Min(a.right, b.right) - Max(a.left, b.left) + 1);
    var h := Max(0, Min(a.bottom, b.bottom) - Max(a.top, b.top) + 1);
    assert w * h >= 0 by { NonNegProduct(w, h); }
    w * h
  }

  lemma NonNegProduct(x: int, y: int)
    requires x >= 0 && y >= 0
    ensures x * y >= 0
  {
  }

  /** iou(boxA, boxB) with the division left undone. */
  function Iou(a: Box, b: Box): Overlap {
    var inter := Intersection(a, b);
    Overlap(inter, Area(a) + Area(b) - inter)
  }

  /** The value of interArea / float(unionArea), exactly; Python raises
      ZeroDivisionError when the union is zero. */
  function Ratio(o: Overlap): real
    requires o.union != 0
  {
    o.inter as real / o.union as real
  }

  /** The test iou >= 0.3 on integers. A negative union (possible with
      degenerate boxes) gives a ratio of at most zero, which never passes. */
  predicate AtThreshold(o: Overlap) {
    o.union > 0 && 10 * o.inter >= 3 * o.union
  }

  /** The integer test decides exactly the real comparison ratio >= 3/10. */
  lemma ThresholdExact(a: Box, b: Box)
    requires Iou(a, b).union != 0
    ensures AtThreshold(Iou(a, b)) <==> Ratio(Iou(a, b)) >= 0.3
  {
    var o := Iou(a, b);
    RatioThreshold(o.inter, o.union);
  }

  lemma RatioThreshold(i: int, u: int)
    requires i >= 0 && u != 0
    ensures (u > 0 && 10 * i >= 3 * u) <==> i as real / u as real >= 0.3
  {
    if u > 0 {
      if 10 * i >= 3 * u { Above(i as real, u as real); } else { Below(i as real, u as real); }
    } else {
      NotPositive(i as real, u as real);
    }
  }

  lemma DivMul(i: real, u: real)
    requires u != 0.0
    ensures (i / u) * u == i
  {
  }

  lemma DivSelf(x: real)
    requires x != 0.0
    ensures x / x == 1.0
  {
  }

  lemma ScaleBack(x: real, y: real, u: real)
    requires u > 0.0 && x * u >= y * u
    ensures x >= y
  {
  }

  lemma Above(i: real, u: real)
    requires u > 0.0 && 10.0 * i >= 3.0 * u
    ensures i / u >= 0.3
  {
    DivMul(i, u);
    ScaleBack(i / u, 0.3, u);
  }

  lemma Below(i: real, u: real)
    requires u > 0.0 && 10.0 * i < 3.0 * u
    ensures i / u < 0.3
  {
    DivMul(i, u);
  }

  lemma NotPositive(i: real, u: real)
    requires u < 0.0 && i >= 0.0
    ensures i / u <= 0.0
  {
    DivMul(i, u);
  }

  /** iou(A, B) == iou(B, A). */
  lemma IouSymmetric(a: Box, b: Box)
    ensures Iou(a, b) == Iou(b, a)
  {
  }

  /** The intersection never exceeds a box of positive area. An inverted
      box (both sides negative) intersects nothing. */
  lemma IntersectionWithinArea(a: Box, b: Box)
    requires Area(a) > 0
    ensures Intersection(a, b) <= Area(a)
  {
    var w := Max(0, Min(a.right, b.right) - Max(a.left, b.left) + 1);
    var h := Max(0, Min(a.bottom, b.bottom) - Max(a.top, b.top) + 1);
    if w > 0 && h > 0 {
      assert w <= Width(a) && h <= Height(a);
      MonotoneProduct(w, h, Width(a), Height(a));
    }
  }

  lemma MonotoneProduct(x: int, y: int, x': int, y': int)
    requires 0 <= x <= x' && 0 <= y <= y'
    ensures x * y <= x' * y'
  {
    calc {
      x * y;
    <= { assert x * (y' - y) >= 0 by { NonNegProduct(x, y' - y); } }
      x * y';
    <= { assert (x' - x) * y' >= 0 by { NonNegProduct(x' - x, y'); } }
      x' * y';
    }
  }

  /** When both areas are positive the union is positive and
      0 <= interArea <= unionArea, so 0 <= iou <= 1. */
  lemma IouBounded(a: Box, b: Box)
    requires Area(a) > 0 && Area(b) > 0
    ensures var o := Iou(a, b); 0 <= o.inter <= o.union && o.union > 0
    ensures 0.0 <= Ratio(Iou(a, b)) <= 1.0
  {
    IntersectionWithinArea(a, b);
    IntersectionWithinArea(b, a);
    IouSymmetric(a, b);
    var o := Iou(a, b);
    UnitRatio(o.inter, o.union);
  }

  lemma UnitRatio(i: int, u: int)
    requires 0 <= i <= u && u > 0
    ensures 0.0 <= i as real / u as real <= 1.0
  {
    DivMul(i as real, u as real);
    ScaleBack(1.0, i as real / u as real, u as real);
  }

  /** iou(A, A) == 1 for a well-formed box; any other box does not overlap
      itself at all. */
  lemma IouSelf(a: Box)
    ensures WellFormed(a) ==> Iou(a, a) == Overlap(Area(a), Area(a)) && Area(a) > 0
    ensures WellFormed(a) ==> Ratio(Iou(a, a)) == 1.0
    ensures !WellFormed(a) ==> Iou(a, a).inter == 0
  {
    var w := Max(0, Min(a.right, a.right) - Max(a.left, a.left) + 1);
    var h := Max(0, Min(a.bottom, a.bottom) - Max(a.top, a.top) + 1);
    assert Intersection(a, a) == w * h;
    if WellFormed(a) {
      assert w == Width(a) >= 1 && h == Height(a) >= 1;
      MonotoneProduct(1, 1, w, h);
      assert Intersection(a, a) == Area(a);
      var o := Iou(a, a);
      assert o.inter == o.union;
      DivSelf(o.inter as real);
    } else {
      assert w == 0 || h == 0;
    }
  }
}
