/**
 * Choosing the hand among the contours of a ready frame:
 * `max(contours, key=cv2.contourArea)` when there is at least one contour,
 * `None` otherwise. Python's `max` keeps the earliest of equally large items.
 */
module HandSelection {
  import opened Wrappers
  import opened Geometry

  /** A closed boundary found by cv2.findContours. */
  type Contour = seq<Point>

  /** k is the earliest position whose area no other contour exceeds. */
  predicate IsFirstLargest(cs: seq<Contour>, k: nat) {
    && k < |cs|
    && (forall j :: 0 <= j < |cs| ==> TwiceArea(cs[j]) <= TwiceArea(cs[k]))
    && (forall j :: 0 <= j < k ==> TwiceArea(cs[j]) < TwiceArea(cs[k]))
  }

  /**
   * The position `max` returns: it scans left to right and replaces its
   * candidate only by a strictly larger item.
   */
  function LargestIndex(cs: seq<Contour>): (k: nat)
    requires cs != []
    ensures IsFirstLargest(cs, k)
    decreases |cs|
  {
    if |cs| == 1 then 0
    else
      var k := LargestIndex(cs[..|cs| - 1]);
      if TwiceArea(cs[k]) < TwiceArea(cs[|cs| - 1]) then |cs| - 1 else k
  }

  /** Lines 57-61: the hand outline, or None when nothing was found. */
  function SelectHand(cs: seq<Contour>): (r: Option<Contour>)
    ensures r.None? <==> cs == []
    ensures r.Some? ==> exists k: nat :: IsFirstLargest(cs, k) && cs[k] == r.value
  {
    if |cs| > 0 then Some(cs[LargestIndex(cs)]) else None
  }

  /** The earliest largest contour is unique, so the selection is fully determined. */
  lemma FirstLargestUnique(cs: seq<Contour>, k1: nat, k2: nat)
    requires IsFirstLargest(cs, k1) && IsFirstLargest(cs, k2)
    ensures k1 == k2
  {
    assert TwiceArea(cs[k2]) <= TwiceArea(cs[k1]) && TwiceArea(cs[k1]) <= TwiceArea(cs[k2]);
  }

  /** The selected outline is one of the contours, and none has a larger area. */
  lemma {:induction false} SelectHandIsLargest(cs: seq<Contour>)
    requires cs != []
    ensures SelectHand(cs).Some? && SelectHand(cs).value in cs
    ensures forall c :: c in cs ==> TwiceArea(c) <= TwiceArea(SelectHand(cs).value)
  {
    var k := LargestIndex(cs);
    forall c | c in cs
      ensures TwiceArea(c) <= TwiceArea(cs[k])
    {
      var j :| 0 <= j < |cs| && cs[j] == c;
    }
  }
}
