/**
 * The foreground test of a ready frame: the accumulator is cast to 8 bits
 * (`astype("uint8")`, which truncates), differenced with the blurred sample
 * (cv2.absdiff) and binarised with cv2.threshold(…, 21, 255, THRESH_BINARY).
 */
module Segmentation {
  import opened Background

  const Threshold: byte := 21
  const Foreground: byte := 255
  const Clear: byte := 0

  /** Truncation of an in-range accumulator value to an 8-bit pixel. */
  function Trunc(v: real): (b: byte)
    requires 0.0 <= v <= 255.0
    ensures b as real <= v < b as real + 1.0
  {
    v.Floor as byte
  }

  /** cv2.absdiff on two 8-bit pixels. */
  function AbsDiff(a: byte, b: byte): (d: byte)
    ensures d as int == a as int - b as int || d as int == b as int - a as int
  {
    if a >= b then a - b else b - a
  }

  /** THRESH_BINARY at 21 with maximum value 255: strictly above the threshold is set. */
  function Binarise(v: byte): byte {
    if v > Threshold then Foreground else Clear
  }

  /** One output pixel of the threshold image. */
  function ForegroundPixel(bg: real, px: byte): (m: byte)
    requires 0.0 <= bg <= 255.0
    ensures m == Clear || m == Foreground
    ensures m == Foreground <==> Trunc(bg) as int - px as int > 21 || px as int - Trunc(bg) as int > 21
  {
    Binarise(AbsDiff(Trunc(bg), px))
  }

  /** The thresholded difference image, before dilation and erosion. */
  function Segment(background: seq<real>, blur: Image): (mask: Image)
    requires |background| == |blur| && InRange(background)
    ensures |mask| == |blur|
    ensures forall i :: 0 <= i < |blur| ==> mask[i] == Clear || mask[i] == Foreground
    ensures forall i :: 0 <= i < |blur| ==>
              (mask[i] == Foreground <==>
                 Trunc(background[i]) as int - blur[i] as int > 21 || blur[i] as int - Trunc(background[i]) as int > 21)
  {
    seq(|blur|, i requires 0 <= i < |blur| => ForegroundPixel(background[i], blur[i]))
  }

  /** A difference of 22 grey levels, either way, marks the pixel as foreground. */
  lemma DifferenceOf22IsForeground(bg: real, px: byte)
    requires 0.0 <= bg <= 255.0
    requires px as int == Trunc(bg) as int + 22 || px as int == Trunc(bg) as int - 22
    ensures ForegroundPixel(bg, px) == Foreground
  {
  }

  /** A difference of 21 grey levels or less leaves the pixel clear. */
  lemma DifferenceOf21IsClear(bg: real, px: byte)
    requires 0.0 <= bg <= 255.0
    requires -21 <= px as int - Trunc(bg) as int <= 21
    ensures ForegroundPixel(bg, px) == Clear
  {
  }

  /** Only the integer part of the accumulator matters: 30.9 behaves as 30. */
  lemma FractionIgnored(bg: real, px: byte)
    requires 0.0 <= bg <= 255.0
    ensures ForegroundPixel(bg, px) == ForegroundPixel(bg.Floor as real, px)
  {
  }

  /**
   * A uniform background of grey level b against a uniform sample:
   * every pixel is foreground at b + 22 and every pixel is clear at b + 21.
   */
  lemma UniformScene(background: seq<real>, blur: Image, b: byte)
    requires |background| == |blur| && InRange(background)
    requires forall i :: 0 <= i < |background| ==> Trunc(background[i]) == b
    requires forall i, j :: 0 <= i < |blur| && 0 <= j < |blur| ==> blur[i] == blur[j]
    ensures blur != [] && blur[0] as int == b as int + 22 ==>
              forall i :: 0 <= i < |blur| ==> Segment(background, blur)[i] == Foreground
    ensures blur != [] && blur[0] as int == b as int + 21 ==>
              forall i :: 0 <= i < |blur| ==> Segment(background, blur)[i] == Clear
  {
  }
}
