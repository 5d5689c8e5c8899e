/** Detections and their intersection over union. A box is its top-left corner
    (x, y) with width w and height h, in canvas pixels. */
module Boxes {
  import opened Numeric

  /** A decoded detection: box, class index and confidence. */
  datatype Detection = Detection(x: real, y: real, w: real, h: real, cls: int, conf: real)

  /** Length of the overlap of [lo1, lo1 + len1] and [lo2, lo2 + len2], 0 when they
      do not overlap. */
  function Overlap(lo1: real, len1: real, lo2: real, len2: real): (o: real)
    ensures o >= 0.0
    ensures o > 0.0 ==> o <= len1 && o <= len2
    ensures lo1 + len1 <= lo2 || lo2 + len2 <= lo1 ==> o == 0.0
  {
    Max(0.0, Min(lo1 + len1, lo2 + len2) - Max(lo1, lo2))
  }

  function Intersection(a: Detection, b: Detection): real
  {
    Overlap(a.x, a.w, b.x, b.w) * Overlap(a.y, a.h, b.y, b.h)
  }

  function Area(d: Detection): real { d.w * d.h }

  /** Scaling by a nonnegative factor keeps the order of two reals. */
  lemma ScaleMonotone(a: real, b: real, k: real)
    requires a <= b && 0.0 <= k
    ensures a * k <= b * k
  {
    assert b * k - a * k == (b - a) * k;
  }

  /** A product of nonnegative factors grows with each factor. */
  lemma ProductWithin(x: real, y: real, xMax: real, yMax: real)
    requires 0.0 <= x <= xMax && 0.0 <= y <= yMax
    ensures 0.0 <= x * y <= xMax * yMax
  {
    ScaleMonotone(0.0, x, y);
    ScaleMonotone(x, xMax, y);
    ScaleMonotone(y, yMax, xMax);
    assert y * xMax == xMax * y;
  }

  /** A positive part of a whole is a fraction in (0, 1]. */
  lemma Fraction(part: real, whole: real)
    requires 0.0 < part <= whole
    ensures 0.0 < part / whole <= 1.0
  {
    var q := part / whole;
    assert q * whole == part;
    if q > 1.0 {
      ScaleMonotone(1.0, q, whole);
    }
  }

  /** A positive intersection is no larger than either box. */
  lemma IntersectionWithinBoth(a: Detection, b: Detection)
    ensures Intersection(a, b) >= 0.0
    ensures Intersection(a, b) > 0.0 ==> Intersection(a, b) <= Area(a) && Intersection(a, b) <= Area(b)
  {
    var ox, oy := Overlap(a.x, a.w, b.x, b.w), Overlap(a.y, a.h, b.y, b.h);
    assert Intersection(a, b) == ox * oy;
    if ox > 0.0 && oy > 0.0 {
      ProductWithin(ox, oy, a.w, a.h);
      ProductWithin(ox, oy, b.w, b.h);
    } else if ox == 0.0 {
      assert ox * oy == 0.0;
    } else {
      assert oy == 0.0 && ox * oy == 0.0;
    }
  }

  /** iou: intersection over union, 0 when the intersection or the union is not positive. */
  function Iou(a: Detection, b: Detection): (r: real)
    ensures 0.0 <= r <= 1.0
    ensures r == 0.0 <==> Intersection(a, b) == 0.0
  {
    IntersectionWithinBoth(a, b);
    var inter := Intersection(a, b);
    if inter <= 0.0 then 0.0
    else
      var union := Area(a) + Area(b) - inter;
      if union <= 0.0 then 0.0
      else
        Fraction(inter, union);
        inter / union
  }

  lemma IouSymmetric(a: Detection, b: Detection)
    ensures Iou(a, b) == Iou(b, a)
  {
    assert Intersection(a, b) == Intersection(b, a);
  }

  /** A box with positive area overlaps itself completely. */
  lemma IouSelf(a: Detection)
    requires a.w > 0.0 && a.h > 0.0
    ensures Iou(a, a) == 1.0
  {
    assert Overlap(a.x, a.w, a.x, a.w) == a.w;
    assert Overlap(a.y, a.h, a.y, a.h) == a.h;
    assert Intersection(a, a) == Area(a) > 0.0;
  }

  /** Boxes side by side, or one of them without area, do not overlap. */
  lemma IouDisjoint(a: Detection, b: Detection)
    requires a.x + a.w <= b.x || b.x + b.w <= a.x || a.y + a.h <= b.y || b.y + b.h <= a.y
          || a.w <= 0.0 || a.h <= 0.0
    ensures Iou(a, b) == 0.0
  {
    var ox, oy := Overlap(a.x, a.w, b.x, b.w), Overlap(a.y, a.h, b.y, b.h);
    assert ox == 0.0 || oy == 0.0;
  }
}
