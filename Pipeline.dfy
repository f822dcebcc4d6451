/**
 * The camera loop of fingerCount.py, one iteration per call of Step: the
 * warm-up branch feeds the background model, the detection branch segments
 * the sample, selects the hand and counts its fingers. OpenCV's image
 * operations are supplied as a Vision value; a Python exception during
 * detection ends the loop before the counter is advanced.
 */
module Pipeline {
  import opened Wrappers
  import opened Geometry
  import opened Background
  import opened Segmentation
  import opened HandSelection
  import opened FingerCounting

  /**
   * What OpenCV computes from a thresholded image: dilation, erosion and
   * cv2.findContours (contoursOf), and for one hand outline its hull points,
   * cv2.approxPolyDP simplification and convexity defects (shapeOf).
   */
  datatype Vision = Vision(contoursOf: Image -> seq<Contour>, shapeOf: Contour -> Shape)

  /** What one iteration of the loop ends with. */
  datatype FrameResult =
    | WarmingUp            // the background was updated
    | NoHand               // no contour in the region of interest; nothing is counted
    | Fingers(count: nat)  // the number drawn on the screen
    | Crashed(reason: Crash) // the exception that ends the script

  /** The detection branch (lines 43-113) against a learned background. */
  function Detect(background: seq<real>, sample: Image, vision: Vision): (r: FrameResult)
    requires |background| == |sample| && InRange(background)
    ensures r != WarmingUp
    ensures r == NoHand <==> vision.contoursOf(Segment(background, sample)) == []
  {
    var contours := vision.contoursOf(Segment(background, sample));
    match SelectHand(contours)
    case None => NoHand
    case Some(hand) =>
      match HandCount(hand, vision.shapeOf(hand))
      case Success(n) => Fingers(n)
      case Failure(e) => Crashed(e)
  }

  /** The state the loop carries from one iteration to the next. */
  class FingerCounter {
    /** The number of pixels of the region of interest. */
    const size: nat
    /** Twice the script's `frame`. */
    var halfFrames: nat
    /** The script's `background`: None until the first sample. */
    var background: Option<seq<real>>
    /** Set once an exception has ended the script; no further pass runs. */
    var halted: bool
    /** The samples of the iterations completed so far. */
    ghost var history: seq<Image>

    ghost predicate Valid()
      reads this
    {
      && SameSize(history, size)
      && halfFrames == HalfFramesAt(|history|)
      && background == Learned(history, size)
    }

    constructor (size: nat)
      ensures Valid() && this.size == size
      ensures history == [] && halfFrames == 0 && background == None && !halted
    {
      this.size := size;
      halfFrames := 0;
      background := None;
      halted := false;
      history := [];
    }

    /** One pass of the `while` loop on a blurred sample of the region of interest. */
    method Step(sample: Image, vision: Vision) returns (r: FrameResult)
      requires Valid() && |sample| == size && !halted
      modifies this
      ensures Valid()
      ensures halted <==> r.Crashed?
      ensures r == WarmingUp <==> |old(history)| < WarmUpIterations
      ensures r == WarmingUp ==> background == Some(Observe(old(background), sample))
      ensures r != WarmingUp ==>
                old(background).Some? && InRange(old(background).value)
                && r == Detect(old(background).value, sample, vision)
                && background == old(background)
      ensures history == if r.Crashed? then old(history) else old(history) + [sample]
      ensures halfFrames == if r.Crashed? then old(halfFrames) else old(halfFrames) + HalfFrameStep
    {
      var prior := history;
      WarmUpExactlyFirstIterations(|prior|);
      if IsWarmUp(halfFrames) {
        background := Some(Observe(background, sample));
        r := WarmingUp;
      } else {
        LearnedInRange(prior, size);
        var mask := Segment(background.value, sample);
        var contours := vision.contoursOf(mask);
        var hand := SelectHand(contours);
        if hand.None? {
          r := NoHand;
        } else {
          var count := CountFingers(hand.value, vision.shapeOf(hand.value));
          r := if count.Success? then Fingers(count.value) else Crashed(count.error);
        }
      }
      halted := r.Crashed?;
      if !r.Crashed? {
        halfFrames := halfFrames + HalfFrameStep;
        history := prior + [sample];
        assert history[..|history| - 1] == prior;
      }
    }
  }

  /**
   * Running the loop over a still scene from the start leaves the
   * background equal to that scene, so a crash-free detection frame of the
   * same scene compares it with itself.
   */
  lemma StillSceneClearMask(scene: Image, n: nat)
    requires n >= 1
    ensures Learned(seq(n, _ => scene), |scene|) == Some(ToReals(scene))
    ensures forall i :: 0 <= i < |scene| ==> Segment(ToReals(scene), scene)[i] == Clear
  {
    var h := seq(n, _ => scene);
    ConstantSceneLearned(h, scene);
    var acc := ToReals(scene);
    forall i | 0 <= i < |scene|
      ensures Segment(acc, scene)[i] == Clear
    {
      assert Trunc(acc[i]) == scene[i];
    }
  }
}
