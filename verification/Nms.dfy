/** Non-maximum suppression of detections, over real numbers. */
module Nms {
  import opened Sorting

  datatype Detection = Detection(classId: nat, confidence: real, cx: real, cy: real, w: real, h: real)

  // ---------- Intersection over union ----------

  function Max(a: real, b: real): real {
    if a >= b then a else b
  }

  function Min(a: real, b: real): real {
    if a <= b then a else b
  }

  /** The overlap of two intervals given by centre and length; not positive if they do not overlap. */
  function Overlap(c1: real, l1: real, c2: real, l2: real): real {
    Min(c1 + l1 / 2.0, c2 + l2 / 2.0) - Max(c1 - l1 / 2.0, c2 - l2 / 2.0)
  }

  function Area(d: Detection): real {
    ((d.cx + d.w / 2.0) - (d.cx - d.w / 2.0)) * ((d.cy + d.h / 2.0) - (d.cy - d.h / 2.0))
  }

  /** The ratio for an overlap of `dx` by `dy` between areas `p` and `q`. */
  function Ratio(dx: real, dy: real, p: real, q: real): real {
    if dx <= 0.0 || dy <= 0.0 then 0.0
    else
      var inter := dx * dy;
      var union := p + q - inter;
      if union <= 0.0 then 0.0 else inter / union
  }

  function Iou(a: Detection, b: Detection): real {
    Ratio(Overlap(a.cx, a.w, b.cx, b.w), Overlap(a.cy, a.h, b.cy, b.h), Area(a), Area(b))
  }

  lemma OverlapBounds(c1: real, l1: real, c2: real, l2: real)
    ensures Overlap(c1, l1, c2, l2) == Overlap(c2, l2, c1, l1)
    ensures Overlap(c1, l1, c2, l2) <= l1 && Overlap(c1, l1, c2, l2) <= l2
  {
  }

  lemma ProductMonotone(x: real, y: real, u: real, v: real)
    requires 0.0 < x <= u && 0.0 < y <= v
    ensures 0.0 < x * y <= u * v
  {
    assert x * y <= u * y <= u * v;
  }

  lemma QuotientBounds(inter: real, union: real)
    requires 0.0 < inter <= union
    ensures 0.0 < inter / union <= 1.0
  {
  }

  lemma RatioBounds(dx: real, dy: real, p: real, q: real)
    requires dx > 0.0 && dy > 0.0 ==> 0.0 < dx * dy <= p && dx * dy <= q
    ensures Ratio(dx, dy, p, q) == Ratio(dx, dy, q, p)
    ensures 0.0 <= Ratio(dx, dy, p, q) <= 1.0
  {
    if dx > 0.0 && dy > 0.0 {
      var inter := dx * dy;
      QuotientBounds(inter, p + q - inter);
    }
  }

  lemma AreaProduct(d: Detection)
    ensures Area(d) == d.w * d.h
  {
    assert (d.cx + d.w / 2.0) - (d.cx - d.w / 2.0) == d.w;
    assert (d.cy + d.h / 2.0) - (d.cy - d.h / 2.0) == d.h;
  }

  /** The measure is symmetric and lies between 0 and 1, whatever the boxes. */
  lemma IouBounds(a: Detection, b: Detection)
    ensures Iou(a, b) == Iou(b, a)
    ensures 0.0 <= Iou(a, b) <= 1.0
  {
    hide Overlap, Area, Ratio;
    OverlapBounds(a.cx, a.w, b.cx, b.w);
    OverlapBounds(a.cy, a.h, b.cy, b.h);
    var dx := Overlap(a.cx, a.w, b.cx, b.w);
    var dy := Overlap(a.cy, a.h, b.cy, b.h);
    if dx > 0.0 && dy > 0.0 {
      ProductMonotone(dx, dy, a.w, a.h);
      ProductMonotone(dx, dy, b.w, b.h);
      AreaProduct(a);
      AreaProduct(b);
    }
    RatioBounds(dx, dy, Area(a), Area(b));
  }

  lemma OverlapSelf(c: real, l: real)
    ensures Overlap(c, l, c, l) == l
  {
  }

  lemma RatioOfSelf(dx: real, dy: real, p: real)
    requires dx > 0.0 && dy > 0.0 && p == dx * dy && p > 0.0
    ensures Ratio(dx, dy, p, p) == 1.0
  {
    assert p / p == 1.0;
  }

  /** A box with an extent overlaps itself completely. */
  lemma IouSelf(a: Detection)
    requires a.w > 0.0 && a.h > 0.0
    ensures Iou(a, a) == 1.0
  {
    OverlapSelf(a.cx, a.w);
    OverlapSelf(a.cy, a.h);
    AreaProduct(a);
    ProductMonotone(a.w, a.h, a.w, a.h);
    hide Overlap, Area, Ratio;
    RatioOfSelf(a.w, a.h, Area(a));
  }

  // ---------- Suppression ----------

  function MoreConfident(a: Detection, b: Detection): bool {
    a.confidence > b.confidence
  }

  predicate Suppresses(a: Detection, b: Detection, threshold: real) {
    a.classId == b.classId && Iou(a, b) > threshold
  }

  /** Detection `j` stays if none that stays before it suppresses it. */
  predicate Stays(s: seq<Detection>, threshold: real, j: nat)
    requires j < |s|
    decreases j
  {
    forall k :: 0 <= k < j ==> Stays(s, threshold, k) ==> !Suppresses(s[k], s[j], threshold)
  }

  function KeptTo(s: seq<Detection>, threshold: real, n: nat): seq<Detection>
    requires n <= |s|
  {
    if n == 0 then []
    else KeptTo(s, threshold, n - 1) + (if Stays(s, threshold, n - 1) then [s[n - 1]] else [])
  }

  function Kept(s: seq<Detection>, threshold: real): seq<Detection> {
    KeptTo(s, threshold, |s|)
  }

  function Suppressed(detections: seq<Detection>, threshold: real): seq<Detection> {
    Kept(Sort(MoreConfident, detections), threshold)
  }

  /** What the `keep` flag of `j` says once the first `i` detections have been processed. */
  predicate StaysSoFar(s: seq<Detection>, threshold: real, i: nat, j: nat)
    requires i <= |s| && j < |s|
  {
    forall k :: 0 <= k < i && k < j ==> Stays(s, threshold, k) ==> !Suppresses(s[k], s[j], threshold)
  }

  lemma StaysAtLast(s: seq<Detection>, threshold: real, i: nat, j: nat)
    requires j <= i <= |s| && j < |s|
    ensures StaysSoFar(s, threshold, i, j) == Stays(s, threshold, j)
  {
  }

  lemma StaysNext(s: seq<Detection>, threshold: real, i: nat, j: nat)
    requires i < |s| && j < |s|
    ensures StaysSoFar(s, threshold, i + 1, j) ==
              (StaysSoFar(s, threshold, i, j) &&
               (i < j && Stays(s, threshold, i) ==> !Suppresses(s[i], s[j], threshold)))
  {
    hide Suppresses;
  }

  method NonMaxSuppression(detections: seq<Detection>, threshold: real) returns (result: seq<Detection>)
    ensures result == Suppressed(detections, threshold)
  {
    hide Stays, StaysSoFar, Iou, Sort;
    if detections == [] {
      NothingSuppressed(threshold);
      return [];
    }
    var s := Sort(MoreConfident, detections);
    var n := |s|;
    var keep := new bool[n](_ => true);
    forall j | 0 <= j < n ensures StaysSoFar(s, threshold, 0, j) {
      StaysAtFirst(s, threshold, j);
    }
    for i := 0 to n
      invariant forall j :: 0 <= j < n ==> keep[j] == StaysSoFar(s, threshold, i, j)
    {
      StaysAtLast(s, threshold, i, i);
      if keep[i] {
        for j := i + 1 to n
          invariant forall m :: 0 <= m < n ==> keep[m] == StaysSoFar(s, threshold, if i < m < j then i + 1 else i, m)
        {
          StaysNext(s, threshold, i, j);
          if keep[j] && s[i].classId == s[j].classId {
            var iou := Iou(s[i], s[j]);
            if iou > threshold {
              keep[j] := false;
            }
          }
        }
      }
      forall j | 0 <= j < n ensures keep[j] == StaysSoFar(s, threshold, i + 1, j) {
        StaysNext(s, threshold, i, j);
      }
    }
    result := [];
    for i := 0 to n
      invariant result == KeptTo(s, threshold, i)
      invariant forall j :: 0 <= j < n ==> keep[j] == StaysSoFar(s, threshold, n, j)
    {
      StaysAtLast(s, threshold, n, i);
      if keep[i] {
        result := result + [s[i]];
      }
    }
  }

  lemma StaysAtFirst(s: seq<Detection>, threshold: real, j: nat)
    requires j < |s|
    ensures StaysSoFar(s, threshold, 0, j)
  {
  }

  lemma NothingSuppressed(threshold: real)
    ensures Suppressed([], threshold) == []
  {
  }

  // ---------- Sound, complete, idempotent ----------

  /** Where the kept detections come from. */
  lemma {:induction false} KeptSource(s: seq<Detection>, threshold: real, n: nat, p: nat) returns (k: nat)
    requires n <= |s| && p < |KeptTo(s, threshold, n)|
    ensures k < n && Stays(s, threshold, k) && KeptTo(s, threshold, n)[p] == s[k]
    ensures p == |KeptTo(s, threshold, k)|
  {
    hide Stays;
    if p < |KeptTo(s, threshold, n - 1)| {
      k := KeptSource(s, threshold, n - 1, p);
    } else {
      k := n - 1;
    }
  }

  lemma {:induction false} KeptGrows(s: seq<Detection>, threshold: real, m: nat, n: nat)
    requires m <= n <= |s|
    ensures |KeptTo(s, threshold, m)| <= |KeptTo(s, threshold, n)|
    ensures m < n && Stays(s, threshold, m) ==> s[m] in KeptTo(s, threshold, n)
    decreases n
  {
    hide Stays;
    if m < n {
      KeptGrows(s, threshold, m, n - 1);
    }
  }

  lemma KeptOrder(s: seq<Detection>, threshold: real, p: nat, q: nat) returns (k: nat, l: nat)
    requires p < q < |Kept(s, threshold)|
    ensures k < l < |s| && Stays(s, threshold, k) && Stays(s, threshold, l)
    ensures Kept(s, threshold)[p] == s[k] && Kept(s, threshold)[q] == s[l]
  {
    hide Stays;
    k := KeptSource(s, threshold, |s|, p);
    l := KeptSource(s, threshold, |s|, q);
    if l <= k {
      KeptGrows(s, threshold, l, k);
    }
  }

  /** Sound: of two kept detections of one class, neither suppresses the other. */
  lemma Sound(detections: seq<Detection>, threshold: real, p: nat, q: nat)
    requires p < |Suppressed(detections, threshold)| && q < |Suppressed(detections, threshold)| && p != q
    ensures var r := Suppressed(detections, threshold);
            r[p].classId == r[q].classId ==> Iou(r[p], r[q]) <= threshold
  {
    var s := Sort(MoreConfident, detections);
    var r := Suppressed(detections, threshold);
    var k, l := KeptOrder(s, threshold, if p < q then p else q, if p < q then q else p);
    assert !Suppresses(s[k], s[l], threshold);
    IouBounds(r[p], r[q]);
  }

  function Times(s: seq<Detection>, d: Detection): nat {
    multiset(s)[d]
  }

  /** How often `d` is among the first `n` and among those kept of them. */
  lemma CountsGrow(s: seq<Detection>, threshold: real, n: nat, d: Detection)
    requires 0 < n <= |s|
    ensures Times(s[..n], d) == Times(s[..n - 1], d) + (if s[n - 1] == d then 1 else 0)
    ensures Times(KeptTo(s, threshold, n), d) ==
              Times(KeptTo(s, threshold, n - 1), d) + (if s[n - 1] == d && Stays(s, threshold, n - 1) then 1 else 0)
  {
    hide Stays;
    assert s[..n] == s[..n - 1] + [s[n - 1]];
  }

  /** Kept detections are detections, with multiplicity. */
  lemma {:induction false} KeptCounts(s: seq<Detection>, threshold: real, n: nat, d: Detection)
    requires n <= |s|
    ensures Times(KeptTo(s, threshold, n), d) <= Times(s[..n], d)
  {
    if n > 0 {
      hide Stays, KeptTo, Times;
      KeptCounts(s, threshold, n - 1, d);
      CountsGrow(s, threshold, n, d);
    }
  }

  /** Where they are fewer, one was dropped. */
  lemma {:induction false} DroppedAt(s: seq<Detection>, threshold: real, n: nat, d: Detection) returns (j: nat)
    requires n <= |s| && Times(KeptTo(s, threshold, n), d) < Times(s[..n], d)
    ensures j < n && s[j] == d && !Stays(s, threshold, j)
  {
    hide Stays, KeptTo;
    assert n > 0 by {
      assert s[..0] == [];
    }
    hide Times;
    CountsGrow(s, threshold, n, d);
    if s[n - 1] == d && !Stays(s, threshold, n - 1) {
      j := n - 1;
    } else {
      j := DroppedAt(s, threshold, n - 1, d);
    }
  }

  /** The result is part of the input, with multiplicity. */
  lemma KeptIsPart(detections: seq<Detection>, threshold: real)
    ensures multiset(Suppressed(detections, threshold)) <= multiset(detections)
  {
    var s := Sort(MoreConfident, detections);
    assert s[..|s|] == s;
    forall d: Detection
      ensures multiset(Suppressed(detections, threshold))[d] <= multiset(detections)[d]
    {
      KeptCounts(s, threshold, |s|, d);
    }
  }

  /** Complete: a dropped detection, be it one of several equal ones, is suppressed by a kept one of at least its
      confidence. */
  lemma Complete(detections: seq<Detection>, threshold: real, d: Detection) returns (winner: Detection)
    requires multiset(Suppressed(detections, threshold))[d] < multiset(detections)[d]
    ensures winner in Suppressed(detections, threshold)
    ensures winner.classId == d.classId && winner.confidence >= d.confidence && Iou(winner, d) > threshold
  {
    hide Iou;
    var s := Sort(MoreConfident, detections);
    assert s[..|s|] == s;
    var j := DroppedAt(s, threshold, |s|, d);
    var k :| 0 <= k < j && Stays(s, threshold, k) && Suppresses(s[k], s[j], threshold);
    KeptGrows(s, threshold, k, |s|);
    SortSorts(MoreConfident, detections);
    winner := s[k];
  }

  /** Nothing new appears, and the result is ordered by falling confidence. */
  lemma KeptIsSorted(detections: seq<Detection>, threshold: real)
    ensures Sorted(MoreConfident, Suppressed(detections, threshold))
    ensures var r := Suppressed(detections, threshold);
            forall p, q :: 0 <= p < q < |r| ==> r[p].confidence >= r[q].confidence
    ensures forall d :: d in Suppressed(detections, threshold) ==> d in detections
  {
    hide Stays, Sort;
    var s := Sort(MoreConfident, detections);
    var r := Suppressed(detections, threshold);
    SortSorts(MoreConfident, detections);
    forall p, q | 0 <= p < q < |r| ensures !MoreConfident(r[q], r[p]) {
      var k, l := KeptOrder(s, threshold, p, q);
    }
    forall d | d in r ensures d in detections {
      var p: nat :| p < |r| && r[p] == d;
      var k := KeptSource(s, threshold, |s|, p);
      assert s[k] in multiset(s);
    }
  }

  lemma {:induction false} AllStay(s: seq<Detection>, threshold: real, n: nat)
    requires n <= |s| && forall k, l :: 0 <= k < l < |s| ==> !Suppresses(s[k], s[l], threshold)
    ensures KeptTo(s, threshold, n) == s[..n]
  {
    hide Suppresses;
    if n > 0 {
      AllStay(s, threshold, n - 1);
      assert Stays(s, threshold, n - 1);
      assert s[..n] == s[..n - 1] + [s[n - 1]];
    }
  }

  /** A second run changes nothing. */
  lemma Idempotent(detections: seq<Detection>, threshold: real)
    ensures Suppressed(Suppressed(detections, threshold), threshold) == Suppressed(detections, threshold)
  {
    hide Stays, Sort, KeptTo;
    var r := Suppressed(detections, threshold);
    KeptIsSorted(detections, threshold);
    SortIdempotent(MoreConfident, r);
    forall k, l | 0 <= k < l < |r| ensures !Suppresses(r[k], r[l], threshold) {
      Sound(detections, threshold, k, l);
    }
    AllStay(r, threshold, |r|);
    assert r[..|r|] == r;
  }
}
