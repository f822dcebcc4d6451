/**
 * The background model learned during warm-up: the frame counter, which
 * rises by 1.5 per iteration and is kept here in half-units, and the
 * accumulator image, first a copy of the blurred sample and then blended
 * with every further warm-up sample by cv2.accumulateWeighted with weight 0.5.
 * Images are flat row-major sequences of pixels of one fixed size.
 */
module Background {
  import opened Wrappers

  /** One 8-bit grey-level pixel. */
  newtype byte = x: int | 0 <= x < 256

  /** A blurred grey-scale region-of-interest image. */
  type Image = seq<byte>

  /** `frame < 70` with `frame` counted in halves: 2 * 70. */
  const WarmUpHalfFrames: nat := 140
  /** `frame += 1.5` in halves. */
  const HalfFrameStep: nat := 3
  /** The weight of the new sample in cv2.accumulateWeighted. */
  const Alpha: real := 0.5

  /** The number of iterations that take the warm-up branch. */
  const WarmUpIterations: nat := 47

  /** The branch test of the main loop, on the doubled counter. */
  predicate IsWarmUp(halfFrames: int) {
    halfFrames < WarmUpHalfFrames
  }

  /** Iteration n (counting from 0) runs with the doubled counter at 3n. */
  function HalfFramesAt(n: nat): nat {
    HalfFrameStep * n
  }

  /** Exactly iterations 0 .. 46 take the warm-up branch. */
  lemma WarmUpExactlyFirstIterations(n: nat)
    ensures IsWarmUp(HalfFramesAt(n)) <==> n < WarmUpIterations
  {
  }

  /** Once the detection branch is taken it is taken on every later iteration. */
  lemma WarmUpNeverResumes(n: nat, m: nat)
    requires n <= m && !IsWarmUp(HalfFramesAt(n))
    ensures !IsWarmUp(HalfFramesAt(m))
  {
  }

  predicate SameSize(h: seq<Image>, size: nat) {
    forall i :: 0 <= i < |h| ==> |h[i]| == size
  }

  /** Every accumulator pixel is a legal grey level, so `astype("uint8")` is defined on it. */
  predicate InRange(acc: seq<real>) {
    forall i :: 0 <= i < |acc| ==> 0.0 <= acc[i] <= 255.0
  }

  /** `blur.copy().astype("float")`. */
  function ToReals(s: Image): (r: seq<real>)
    ensures |r| == |s|
    ensures forall i :: 0 <= i < |s| ==> r[i] == s[i] as real
  {
    seq(|s|, i requires 0 <= i < |s| => s[i] as real)
  }

  /** `cv2.accumulateWeighted(blur, background, 0.5)`, pixel by pixel. */
  function Accumulate(acc: seq<real>, s: Image): (r: seq<real>)
    requires |acc| == |s|
    ensures |r| == |s|
    ensures forall i :: 0 <= i < |s| ==> r[i] == (1.0 - Alpha) * acc[i] + Alpha * s[i] as real
  {
    seq(|s|, i requires 0 <= i < |s| => (1.0 - Alpha) * acc[i] + Alpha * s[i] as real)
  }

  /** One warm-up iteration: copy the first sample, blend every later one. */
  function Observe(background: Option<seq<real>>, s: Image): (r: seq<real>)
    requires background.Some? ==> |background.value| == |s|
    ensures |r| == |s|
  {
    match background
    case None => ToReals(s)
    case Some(acc) => Accumulate(acc, s)
  }

  /**
   * The background after the main loop has completed the iterations whose
   * samples are h: a warm-up iteration observes its sample, a detection
   * iteration leaves the accumulator alone.
   */
  function Learned(h: seq<Image>, size: nat): (r: Option<seq<real>>)
    requires SameSize(h, size)
    ensures r.Some? <==> h != []
    ensures r.Some? ==> |r.value| == size
    decreases |h|
  {
    if h == [] then None
    else
      var prior := h[..|h| - 1];
      var before := Learned(prior, size);
      if IsWarmUp(HalfFramesAt(|prior|)) then Some(Observe(before, h[|h| - 1])) else before
  }

  /** The first sample is copied exactly. */
  lemma FirstSampleCopied(s: Image)
    ensures Learned([s], |s|) == Some(ToReals(s))
  {
    assert [s][..0] == [];
  }

  /** Blending two legal grey levels with weight 0.5 gives a legal grey level. */
  lemma {:induction false} LearnedInRange(h: seq<Image>, size: nat)
    requires SameSize(h, size)
    ensures Learned(h, size).Some? ==> InRange(Learned(h, size).value)
    decreases |h|
  {
    if h != [] {
      var prior := h[..|h| - 1];
      LearnedInRange(prior, size);
    }
  }

  /** After the warm-up iterations the accumulator is frozen. */
  lemma {:induction false} LearnedFrozen(h: seq<Image>, size: nat)
    requires SameSize(h, size) && |h| >= WarmUpIterations
    ensures Learned(h, size) == Learned(h[..WarmUpIterations], size)
    decreases |h|
  {
    if |h| > WarmUpIterations {
      var prior := h[..|h| - 1];
      WarmUpExactlyFirstIterations(|prior|);
      LearnedFrozen(prior, size);
      assert prior[..WarmUpIterations] == h[..WarmUpIterations];
    } else {
      assert h[..WarmUpIterations] == h;
    }
  }

  /** A scene that never changes is learned exactly: the background equals it. */
  lemma {:induction false} ConstantSceneLearned(h: seq<Image>, scene: Image)
    requires h != [] && forall i :: 0 <= i < |h| ==> h[i] == scene
    ensures Learned(h, |scene|) == Some(ToReals(scene))
    decreases |h|
  {
    var prior := h[..|h| - 1];
    if prior != [] {
      ConstantSceneLearned(prior, scene);
      var acc := ToReals(scene);
      assert Accumulate(acc, scene) == acc;
    }
  }
}
