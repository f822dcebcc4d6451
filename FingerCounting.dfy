/**
 * The finger-count heuristic of a detected hand (source lines 72-113).
 * OpenCV supplies the simplified contour `average`, the hull points of the
 * unsimplified outline and the convexity defects of `average`; the model
 * decides the count from them in exact integer arithmetic.
 *
 * In exact real arithmetic, the far-point angle test
 * `acos((s2² + s3² - s1²) / (2·s2·s3)) <= π/2` holds exactly when the cosine
 * is non-negative, because acos decreases
 * and acos(0) = π/2; with s2, s3 > 0 that is the sign of the numerator
 * s2² + s3² - s1², which is an integer for integer points.
 */
module FingerCounting {
  import opened Wrappers
  import opened Geometry

  /** One row `(sp, ep, fp, d)` of cv2.convexityDefects: indices into `average`. */
  datatype Defect = Defect(start: nat, end: nat, far: nat, depth: int)

  /** What OpenCV derives from a hand outline. */
  datatype Shape = Shape(
    hull: seq<Point>,                // cv2.convexHull(hand_outline), as points
    approx: seq<Point>,              // `average`, from cv2.approxPolyDP
    defects: Option<seq<Defect>>)    // cv2.convexityDefects(average, …); None when it finds none

  /** The exceptions that end the script while it analyses a hand. */
  datatype Crash =
    | ZeroContourArea             // ZeroDivisionError computing a_ratio
    | NoDefects                   // AttributeError: None has no `shape`
    | IndexOutOfRange(defect: nat) // IndexError indexing `average` for defect row `defect`
    | ZeroLengthEdge(defect: nat)  // ZeroDivisionError: s2 or s3 is 0 for defect row `defect`

  /** How one defect row fares in the body of the `for` loop. */
  datatype Verdict = OutOfRange | ZeroEdge | Valley | NoValley {
    predicate Fails() { this == OutOfRange || this == ZeroEdge }
  }

  /** The zero-finger threshold on the area ratio, in percent. */
  const RatioThreshold: int := 16

  predicate InBounds(avg: seq<Point>, d: Defect) {
    d.start < |avg| && d.end < |avg| && d.far < |avg|
  }

  /**
   * Lines 103-107 in exact real arithmetic, on the three points of one defect: the
   * division by 2·s2·s3 fails when s2 or s3 is zero, and otherwise the angle
   * at the far point is at most 90° exactly when the law-of-cosines numerator
   * s2² + s3² - s1² is non-negative.
   */
  function LawOfCosinesVerdict(start: Point, end: Point, far: Point): Verdict {
    if SqDist(far, start) == 0 || SqDist(end, far) == 0 then ZeroEdge
    else if CosineNumerator(start, end, far) >= 0 then Valley
    else NoValley
  }

  /**
   * The same decision on the points themselves: an edge at the far point has
   * zero length when its ends coincide, and the angle there is at most 90°
   * when the two edges have a non-negative dot product.
   */
  function Classify(start: Point, end: Point, far: Point): (v: Verdict)
    ensures v != OutOfRange
  {
    if far == start || end == far then ZeroEdge
    else if Dot(Sub(start, far), Sub(end, far)) >= 0 then Valley
    else NoValley
  }

  lemma ZeroEdgeIsZeroSide(start: Point, end: Point, far: Point)
    ensures Classify(start, end, far) == ZeroEdge <==> SqDist(far, start) == 0 || SqDist(end, far) == 0
  {
  }

  lemma ValleyIsLawOfCosines(start: Point, end: Point, far: Point)
    ensures Classify(start, end, far) == Valley <==>
              SqDist(far, start) > 0 && SqDist(end, far) > 0 && CosineNumerator(start, end, far) >= 0
  {
    LawOfCosines(start, end, far);
  }

  /** The exact dot-product test decides every defect as the exact real-number acos test does. */
  lemma DotTestIsLawOfCosines(start: Point, end: Point, far: Point)
    ensures Classify(start, end, far) == LawOfCosinesVerdict(start, end, far)
  {
    ZeroEdgeIsZeroSide(start, end, far);
    ValleyIsLawOfCosines(start, end, far);
  }

  /** Lines 96-107 on one defect row: fetch its three points from `average`, then decide. */
  function Examine(avg: seq<Point>, d: Defect): (v: Verdict)
    ensures v == OutOfRange <==> !InBounds(avg, d)
  {
    if !InBounds(avg, d) then OutOfRange else Classify(avg[d.start], avg[d.end], avg[d.far])
  }

  /** Within bounds, a defect row is decided exactly as lines 103-107 decide it. */
  lemma ExamineIsLawOfCosines(avg: seq<Point>, d: Defect)
    requires InBounds(avg, d)
    ensures Examine(avg, d) == LawOfCosinesVerdict(avg[d.start], avg[d.end], avg[d.far])
  {
    DotTestIsLawOfCosines(avg[d.start], avg[d.end], avg[d.far]);
  }

  /** The exception raised at defect row i with verdict v. */
  function CrashAt(v: Verdict, i: nat): Crash
    requires v.Fails()
  {
    if v == OutOfRange then IndexOutOfRange(i) else ZeroLengthEdge(i)
  }

  /** The exception, if any, that the `for` loop raises over the rows ds. */
  function FirstFailure(avg: seq<Point>, ds: seq<Defect>): Option<Crash>
    decreases |ds|
  {
    if ds == [] then None
    else
      match FirstFailure(avg, ds[..|ds| - 1])
      case Some(c) => Some(c)
      case None =>
        var v := Examine(avg, ds[|ds| - 1]);
        if v.Fails() then Some(CrashAt(v, |ds| - 1)) else None
  }

  /** The number of rows whose far-point angle is at most 90°. */
  function ValleyCount(avg: seq<Point>, ds: seq<Defect>): (n: nat)
    ensures n <= |ds|
    decreases |ds|
  {
    if ds == [] then 0
    else ValleyCount(avg, ds[..|ds| - 1]) + (if Examine(avg, ds[|ds| - 1]) == Valley then 1 else 0)
  }

  /** `a_ratio = ((a_hull - a_contour) / a_contour) * 100` on the halved areas. */
  function AreaRatio(twiceHull: nat, twiceContour: nat): real
    requires twiceContour > 0
  {
    var hull, contour := twiceHull as real / 2.0, twiceContour as real / 2.0;
    ((hull - contour) / contour) * 100.0
  }

  /** `a_ratio < 16`, cross-multiplied into integers. */
  predicate ClosedHand(twiceHull: nat, twiceContour: nat)
    requires twiceContour > 0
  {
    100 * (twiceHull - twiceContour) < RatioThreshold * twiceContour
  }

  /** Lines 109-113: a lone baseline count is re-decided by the area ratio. */
  function Disambiguate(fingerNum: nat, closed: bool): nat {
    if fingerNum == 1 then (if closed then 0 else 1) else fingerNum
  }

  /** The count the script displays for a hand outline, or the exception it dies of. */
  function HandCount(outline: seq<Point>, sh: Shape): (r: Result<nat, Crash>)
    ensures r.Success? ==> sh.defects.Some? && r.value <= 1 + |sh.defects.value|
  {
    var contourArea := TwiceArea(outline);
    if contourArea == 0 then Failure(ZeroContourArea)
    else
      match sh.defects
      case None => Failure(NoDefects)
      case Some(ds) =>
        match FirstFailure(sh.approx, ds)
        case Some(c) => Failure(c)
        case None =>
          Success(Disambiguate(1 + ValleyCount(sh.approx, ds), ClosedHand(TwiceArea(sh.hull), contourArea)))
  }

  /**
   * Lines 80-113 as the script runs them: the area ratio first, then the
   * defect loop that raises `finger_num` from 1, then the zero-finger rule.
   */
  method CountFingers(outline: seq<Point>, sh: Shape) returns (r: Result<nat, Crash>)
    ensures r == HandCount(outline, sh)
  {
    var contourArea := TwiceArea(outline);
    if contourArea == 0 {
      return Failure(ZeroContourArea);
    }
    var closed := ClosedHand(TwiceArea(sh.hull), contourArea);
    if sh.defects.None? {
      return Failure(NoDefects);
    }
    var ds := sh.defects.value;
    var fingerNum: nat := 1;
    for i := 0 to |ds|
      invariant FirstFailure(sh.approx, ds[..i]) == None
      invariant fingerNum == 1 + ValleyCount(sh.approx, ds[..i])
    {
      assert ds[..i + 1][..i] == ds[..i];
      var v := Examine(sh.approx, ds[i]);
      if v.Fails() {
        FailureIsFinal(sh.approx, ds, i + 1);
        return Failure(CrashAt(v, i));
      }
      if v == Valley {
        fingerNum := fingerNum + 1;
      }
    }
    assert ds[..|ds|] == ds;
    r := Success(Disambiguate(fingerNum, closed));
  }

  /** A failure in the first k rows is the failure of the whole loop. */
  lemma {:induction false} FailureIsFinal(avg: seq<Point>, ds: seq<Defect>, k: nat)
    requires k <= |ds| && FirstFailure(avg, ds[..k]).Some?
    ensures FirstFailure(avg, ds) == FirstFailure(avg, ds[..k])
    decreases |ds| - k
  {
    if k < |ds| {
      assert ds[..k + 1][..k] == ds[..k];
      FailureIsFinal(avg, ds, k + 1);
    } else {
      assert ds[..k] == ds;
    }
  }

  /** The loop fails exactly when some row fails, and then at the earliest such row. */
  lemma {:induction false} FirstFailureSpec(avg: seq<Point>, ds: seq<Defect>)
    ensures FirstFailure(avg, ds).None? <==> forall i :: 0 <= i < |ds| ==> !Examine(avg, ds[i]).Fails()
    ensures FirstFailure(avg, ds).Some? ==>
              exists i :: 0 <= i < |ds| && Examine(avg, ds[i]).Fails()
                && FirstFailure(avg, ds).value == CrashAt(Examine(avg, ds[i]), i)
                && forall j :: 0 <= j < i ==> !Examine(avg, ds[j]).Fails()
    decreases |ds|
  {
    if ds != [] {
      var prior := ds[..|ds| - 1];
      FirstFailureSpec(avg, prior);
      assert forall i :: 0 <= i < |prior| ==> prior[i] == ds[i];
    }
  }

  /** The valley count over two blocks of rows is the sum of their counts. */
  lemma {:induction false} ValleyCountAppend(avg: seq<Point>, a: seq<Defect>, b: seq<Defect>)
    ensures ValleyCount(avg, a + b) == ValleyCount(avg, a) + ValleyCount(avg, b)
    decreases |b|
  {
    if b == [] {
      assert a + b == a;
    } else {
      var b' := b[..|b| - 1];
      assert (a + b)[..|a + b| - 1] == a + b';
      ValleyCountAppend(avg, a, b');
    }
  }

  /** The valley count does not depend on the order of the defect rows. */
  lemma {:induction false} ValleyCountOrderFree(avg: seq<Point>, ds: seq<Defect>, es: seq<Defect>)
    requires multiset(ds) == multiset(es)
    ensures ValleyCount(avg, ds) == ValleyCount(avg, es)
    decreases |ds|
  {
    if ds != [] {
      var x := ds[|ds| - 1];
      var prior := ds[..|ds| - 1];
      assert ds == prior + [x];
      assert x in multiset(es);
      var j :| 0 <= j < |es| && es[j] == x;
      var rest := es[..j] + es[j + 1..];
      assert es == es[..j] + [x] + es[j + 1..];
      assert multiset(ds) == multiset(prior) + multiset{x};
      assert multiset(es) == multiset(es[..j]) + multiset{x} + multiset(es[j + 1..]);
      assert multiset(rest) == multiset(es[..j]) + multiset(es[j + 1..]);
      assert multiset(prior) == multiset(ds) - multiset{x};
      assert multiset(rest) == multiset(es) - multiset{x};
      ValleyCountOrderFree(avg, prior, rest);
      ValleyCountAppend(avg, es[..j] + [x], es[j + 1..]);
      ValleyCountAppend(avg, es[..j], [x]);
      ValleyCountAppend(avg, es[..j], es[j + 1..]);
      assert [x][..0] == [];
    }
  }

  /** The count is defined exactly when the area is non-zero, defects exist and no row fails. */
  lemma HandCountDefined(outline: seq<Point>, sh: Shape)
    ensures HandCount(outline, sh).Success? <==>
              && TwiceArea(outline) > 0 && sh.defects.Some?
              && forall i :: 0 <= i < |sh.defects.value| ==> !Examine(sh.approx, sh.defects.value[i]).Fails()
  {
    if sh.defects.Some? {
      FirstFailureSpec(sh.approx, sh.defects.value);
    }
  }

  /** Reordering the defect rows changes neither whether a count is shown nor the count. */
  lemma HandCountOrderFree(outline: seq<Point>, sh: Shape, es: seq<Defect>)
    requires sh.defects.Some? && multiset(sh.defects.value) == multiset(es)
    ensures HandCount(outline, sh).Success? <==> HandCount(outline, sh.(defects := Some(es))).Success?
    ensures HandCount(outline, sh).Success? ==>
              HandCount(outline, sh).value == HandCount(outline, sh.(defects := Some(es))).value
  {
    var ds := sh.defects.value;
    var sh' := sh.(defects := Some(es));
    HandCountDefined(outline, sh);
    HandCountDefined(outline, sh');
    forall i | 0 <= i < |ds| && Examine(sh.approx, ds[i]).Fails()
      ensures exists j :: 0 <= j < |es| && Examine(sh.approx, es[j]).Fails()
    {
      assert ds[i] in multiset(es);
    }
    forall j | 0 <= j < |es| && Examine(sh.approx, es[j]).Fails()
      ensures exists i :: 0 <= i < |ds| && Examine(sh.approx, ds[i]).Fails()
    {
      assert es[j] in multiset(ds);
    }
    ValleyCountOrderFree(sh.approx, ds, es);
  }

  /** Scaling both sides by a positive factor preserves a strict comparison. */
  lemma ScaleComparison(a: real, b: real, k: real)
    requires k > 0.0
    ensures a < b <==> a * k < b * k
  {
    assert b * k - a * k == (b - a) * k;
  }

  /** The cross-multiplied test is the real-number `a_ratio < 16`. */
  lemma RatioTestExact(twiceHull: nat, twiceContour: nat)
    requires twiceContour > 0
    ensures AreaRatio(twiceHull, twiceContour) < 16.0 <==> ClosedHand(twiceHull, twiceContour)
  {
    var h, c := twiceHull as real / 2.0, twiceContour as real / 2.0;
    var q := (h - c) / c;
    assert AreaRatio(twiceHull, twiceContour) == q * 100.0;
    assert q * c == h - c;
    ScaleComparison(q * 100.0, 16.0, c);
    assert q * 100.0 * c == (h - c) * 100.0;
    ScaleComparison((h - c) * 100.0, 16.0 * c, 2.0);
    assert (h - c) * 100.0 * 2.0 == (100 * (twiceHull - twiceContour)) as real;
    assert 16.0 * c * 2.0 == (RatioThreshold * twiceContour) as real;
  }

  /** Every shown count lies between 0 and one more than the number of defect rows. */
  lemma HandCountBounds(outline: seq<Point>, sh: Shape)
    requires HandCount(outline, sh).Success?
    ensures 0 <= HandCount(outline, sh).value <= 1 + |sh.defects.value|
  {
  }

  /**
   * With at least one qualifying valley the count is that number plus one,
   * hence at least 2, whatever the hull area.
   */
  lemma ValleysDecide(outline: seq<Point>, sh: Shape, otherHull: seq<Point>)
    requires HandCount(outline, sh).Success? && ValleyCount(sh.approx, sh.defects.value) >= 1
    ensures HandCount(outline, sh).value == 1 + ValleyCount(sh.approx, sh.defects.value) >= 2
    ensures HandCount(outline, sh.(hull := otherHull)) == HandCount(outline, sh)
  {
  }

  /** With no qualifying valley the count is 0 for a ratio below 16 and 1 otherwise. */
  lemma NoValleyUsesRatio(outline: seq<Point>, sh: Shape)
    requires HandCount(outline, sh).Success? && ValleyCount(sh.approx, sh.defects.value) == 0
    ensures TwiceArea(outline) > 0
    ensures HandCount(outline, sh).value ==
              if AreaRatio(TwiceArea(sh.hull), TwiceArea(outline)) < 16.0 then 0 else 1
  {
    RatioTestExact(TwiceArea(sh.hull), TwiceArea(outline));
  }

  /**
   * A fist: one shallow, obtuse defect and a hull that encloses no more than
   * the outline, so 0 fingers.
   */
  lemma ClosedFistCountsZero(outline: seq<Point>, hull: seq<Point>)
    requires TwiceArea(outline) > 0 && TwiceArea(hull) == TwiceArea(outline)
    ensures HandCount(outline, Shape(hull, [Point(0, 0), Point(10, 0), Point(5, 1)],
                                     Some([Defect(0, 1, 2, 1)]))) == Success(0)
  {
    var avg, d := [Point(0, 0), Point(10, 0), Point(5, 1)], Defect(0, 1, 2, 1);
    assert Dot(Sub(avg[0], avg[2]), Sub(avg[1], avg[2])) == -24;
    assert Examine(avg, d) == NoValley;
    assert [d][..0] == [];
    assert FirstFailure(avg, [d]) == None && ValleyCount(avg, [d]) == 0;
  }

  /** Four copies of one narrow valley. */
  lemma NarrowValleysCount(avg: seq<Point>, ds: seq<Defect>)
    requires avg == [Point(0, 10), Point(2, 10), Point(1, 0)]
    requires ds == [Defect(0, 1, 2, 10), Defect(0, 1, 2, 10), Defect(0, 1, 2, 10), Defect(0, 1, 2, 10)]
    ensures FirstFailure(avg, ds) == None && ValleyCount(avg, ds) == 4
  {
    var d := ds[0];
    assert Dot(Sub(avg[0], avg[2]), Sub(avg[1], avg[2])) == 99;
    assert Examine(avg, d) == Valley;
    assert ds[..3] == [d, d, d] && [d, d, d][..2] == [d, d] && [d, d][..1] == [d] && [d][..0] == [];
    assert FirstFailure(avg, [d]) == None && ValleyCount(avg, [d]) == 1;
    assert FirstFailure(avg, [d, d]) == None && ValleyCount(avg, [d, d]) == 2;
    assert FirstFailure(avg, [d, d, d]) == None && ValleyCount(avg, [d, d, d]) == 3;
  }

  /** Four valleys of about 11° each: five fingers, whatever the hull. */
  lemma FourValleysCountFive(outline: seq<Point>, sh: Shape)
    requires TwiceArea(outline) > 0
    requires sh.approx == [Point(0, 10), Point(2, 10), Point(1, 0)]
    requires sh.defects == Some([Defect(0, 1, 2, 10), Defect(0, 1, 2, 10), Defect(0, 1, 2, 10), Defect(0, 1, 2, 10)])
    ensures HandCount(outline, sh) == Success(5)
  {
    NarrowValleysCount(sh.approx, sh.defects.value);
  }
}
