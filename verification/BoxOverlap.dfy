/** What the intersection over union measures, in terms of the corners and the points of two boxes. */
module BoxOverlap {
  import opened Nms

  predicate IsGreater(x: real, p: real, q: real) {
    x >= p && x >= q && (x == p || x == q)
  }

  predicate IsSmaller(x: real, p: real, q: real) {
    x <= p && x <= q && (x == p || x == q)
  }

  lemma OverlapIs(x1: real, x2: real, c1: real, l1: real, c2: real, l2: real)
    requires IsGreater(x1, c1 - l1 / 2.0, c2 - l2 / 2.0) && IsSmaller(x2, c1 + l1 / 2.0, c2 + l2 / 2.0)
    ensures Overlap(c1, l1, c2, l2) == x2 - x1 <= l1 && x2 - x1 <= l2
  {
  }

  lemma RatioIs(dx: real, dy: real, p: real, q: real)
    requires dx > 0.0 && dy > 0.0 ==> 0.0 < dx * dy <= p && dx * dy <= q
    ensures if dx <= 0.0 || dy <= 0.0 then Ratio(dx, dy, p, q) == 0.0
            else p + q - dx * dy > 0.0 && Ratio(dx, dy, p, q) == dx * dy / (p + q - dx * dy)
  {
  }

  lemma Quotient(x: real, y: real)
    requires y > 0.0
    ensures x / y * y == x && (x > 0.0 ==> x / y > 0.0)
  {
  }

  lemma RatioLaw(dx: real, dy: real, p: real, q: real)
    requires dx > 0.0 && dy > 0.0 ==> 0.0 < dx * dy <= p && dx * dy <= q
    ensures if dx <= 0.0 || dy <= 0.0 then Ratio(dx, dy, p, q) == 0.0
            else
              var inter := dx * dy;
              var union := p + q - inter;
              union > 0.0 && Ratio(dx, dy, p, q) > 0.0 && Ratio(dx, dy, p, q) * union == inter
  {
    RatioIs(dx, dy, p, q);
    if dx > 0.0 && dy > 0.0 {
      Quotient(dx * dy, p + q - dx * dy);
    }
  }

  lemma OverlapFits(dx: real, dy: real, w: real, h: real)
    requires dx <= w && dy <= h
    ensures dx > 0.0 && dy > 0.0 ==> 0.0 < dx * dy <= w * h
  {
    if dx > 0.0 && dy > 0.0 {
      ProductMonotone(dx, dy, w, h);
    }
  }

  lemma IouIsRatio(a: Detection, b: Detection)
    ensures Iou(a, b) == Ratio(Overlap(a.cx, a.w, b.cx, b.w), Overlap(a.cy, a.h, b.cy, b.h), a.w * a.h, b.w * b.h)
  {
    hide Overlap, Area, Ratio;
    AreaProduct(a);
    AreaProduct(b);
  }

  /** The law of the measure. With (x1, y1) the greater of the lower corners and (x2, y2) the smaller of the upper ones,
      it is the area between them over the area that the two boxes cover, or zero if they do not overlap. */
  lemma IouLaw(a: Detection, b: Detection, x1: real, y1: real, x2: real, y2: real)
    requires IsGreater(x1, a.cx - a.w / 2.0, b.cx - b.w / 2.0) && IsSmaller(x2, a.cx + a.w / 2.0, b.cx + b.w / 2.0)
    requires IsGreater(y1, a.cy - a.h / 2.0, b.cy - b.h / 2.0) && IsSmaller(y2, a.cy + a.h / 2.0, b.cy + b.h / 2.0)
    ensures if x2 - x1 <= 0.0 || y2 - y1 <= 0.0 then Iou(a, b) == 0.0
            else
              var inter := (x2 - x1) * (y2 - y1);
              var union := a.w * a.h + b.w * b.h - inter;
              union > 0.0 && Iou(a, b) > 0.0 && Iou(a, b) * union == inter
  {
    hide Overlap, Area, Ratio, Iou, IsGreater, IsSmaller;
    OverlapIs(x1, x2, a.cx, a.w, b.cx, b.w);
    OverlapIs(y1, y2, a.cy, a.h, b.cy, b.h);
    OverlapFits(x2 - x1, y2 - y1, a.w, a.h);
    OverlapFits(x2 - x1, y2 - y1, b.w, b.h);
    RatioLaw(x2 - x1, y2 - y1, a.w * a.h, b.w * b.h);
    IouIsRatio(a, b);
  }

  function Greater(p: real, q: real): (x: real)
    ensures IsGreater(x, p, q)
  {
    if p >= q then p else q
  }

  function Smaller(p: real, q: real): (x: real)
    ensures IsSmaller(x, p, q)
  {
    if p <= q then p else q
  }

  // ---------- Points ----------

  predicate Inside(d: Detection, x: real, y: real) {
    d.cx - d.w / 2.0 < x < d.cx + d.w / 2.0 && d.cy - d.h / 2.0 < y < d.cy + d.h / 2.0
  }

  /** The measure is zero if and only if no point lies inside both boxes. */
  lemma DisjointExactly(a: Detection, b: Detection)
    ensures Iou(a, b) == 0.0 <==> forall x, y :: !(Inside(a, x, y) && Inside(b, x, y))
  {
    var x1, x2 := Greater(a.cx - a.w / 2.0, b.cx - b.w / 2.0), Smaller(a.cx + a.w / 2.0, b.cx + b.w / 2.0);
    var y1, y2 := Greater(a.cy - a.h / 2.0, b.cy - b.h / 2.0), Smaller(a.cy + a.h / 2.0, b.cy + b.h / 2.0);
    IouLaw(a, b, x1, y1, x2, y2);
    hide Iou;
    if x2 > x1 && y2 > y1 {
      var x, y := (x1 + x2) / 2.0, (y1 + y2) / 2.0;
      assert x1 < x < x2 && y1 < y < y2;
      assert Inside(a, x, y) && Inside(b, x, y);
    }
  }

  // ---------- Boxes in particular positions ----------

  lemma QuotientIs(q: real, x: real, y: real)
    requires y > 0.0 && q * y == x
    ensures q == x / y
  {
  }

  lemma Cancel(q: real, x: real, y: real, h: real)
    requires h > 0.0 && q * (y * h) == x * h
    ensures q * y == x
  {
    assert (q * y - x) * h == 0.0;
  }

  lemma Shifted(q: real, w: real, h: real, d: real)
    requires 0.0 <= d < w && h > 0.0
    requires q * (w * h + w * h - (w - d) * h) == (w - d) * h
    ensures q == (w - d) / (w + d)
  {
    assert w * h + w * h - (w - d) * h == (w + d) * h;
    Cancel(q, w - d, w + d, h);
    QuotientIs(q, w - d, w + d);
  }

  lemma ShiftedAlong(q: real, w: real, h: real, d: real, dx: real, dy: real)
    requires 0.0 <= d < w && h > 0.0 && dx == w - d && dy == h
    requires q * (w * h + w * h - dx * dy) == dx * dy
    ensures q == (w - d) / (w + d)
  {
    Shifted(q, w, h, d);
  }

  lemma ShiftedRight(a: Detection, d: real)
    requires 0.0 <= d < a.w && a.h > 0.0
    ensures Iou(a, a.(cx := a.cx + d)) == (a.w - d) / (a.w + d)
  {
    var x1, y1, x2, y2 := a.cx + d - a.w / 2.0, a.cy - a.h / 2.0, a.cx + a.w / 2.0, a.cy + a.h / 2.0;
    assert x2 - x1 == a.w - d && y2 - y1 == a.h;
    IouLaw(a, a.(cx := a.cx + d), x1, y1, x2, y2);
    hide Iou, IsGreater, IsSmaller;
    ShiftedAlong(Iou(a, a.(cx := a.cx + d)), a.w, a.h, d, x2 - x1, y2 - y1);
  }

  lemma ShiftedUp(a: Detection, d: real)
    requires 0.0 <= d < a.h && a.w > 0.0
    ensures Iou(a, a.(cy := a.cy + d)) == (a.h - d) / (a.h + d)
  {
    var x1, y1, x2, y2 := a.cx - a.w / 2.0, a.cy + d - a.h / 2.0, a.cx + a.w / 2.0, a.cy + a.h / 2.0;
    assert x2 - x1 == a.w && y2 - y1 == a.h - d;
    IouLaw(a, a.(cy := a.cy + d), x1, y1, x2, y2);
    hide Iou, IsGreater, IsSmaller;
    ShiftedAlong(Iou(a, a.(cy := a.cy + d)), a.h, a.w, d, y2 - y1, x2 - x1);
  }

  /** Two boxes of one size, `d` apart along an axis: (w - d) / (w + d) for a shift by less than the width. */
  lemma ShiftedBoxes(a: Detection, d: real)
    requires a.w > 0.0 && a.h > 0.0 && d >= 0.0
    ensures d < a.w ==> Iou(a, a.(cx := a.cx + d)) == Iou(a, a.(cx := a.cx - d)) == (a.w - d) / (a.w + d)
    ensures d < a.h ==> Iou(a, a.(cy := a.cy + d)) == Iou(a, a.(cy := a.cy - d)) == (a.h - d) / (a.h + d)
  {
    hide Iou;
    var left, down := a.(cx := a.cx - d), a.(cy := a.cy - d);
    assert left.(cx := left.cx + d) == a && down.(cy := down.cy + d) == a;
    if d < a.w {
      ShiftedRight(a, d);
      ShiftedRight(left, d);
      IouBounds(a, left);
    }
    if d < a.h {
      ShiftedUp(a, d);
      ShiftedUp(down, d);
      IouBounds(a, down);
    }
  }

  /** For a box inside another the measure is the quotient of their areas. */
  lemma NestedBoxes(a: Detection, b: Detection)
    requires b.w > 0.0 && b.h > 0.0
    requires a.cx - a.w / 2.0 <= b.cx - b.w / 2.0 && b.cx + b.w / 2.0 <= a.cx + a.w / 2.0
    requires a.cy - a.h / 2.0 <= b.cy - b.h / 2.0 && b.cy + b.h / 2.0 <= a.cy + a.h / 2.0
    ensures a.w * a.h > 0.0 && Iou(a, b) == b.w * b.h / (a.w * a.h)
  {
    IouLaw(a, b, b.cx - b.w / 2.0, b.cy - b.h / 2.0, b.cx + b.w / 2.0, b.cy + b.h / 2.0);
    hide Iou;
    ProductMonotone(b.w, b.h, a.w, a.h);
    QuotientIs(Iou(a, b), b.w * b.h, a.w * a.h);
  }
}
