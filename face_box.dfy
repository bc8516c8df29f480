/**
 * The integer part of the face locator in `detect_face_and_landmarks`: the detected box, already
 * in absolute pixel coordinates, is widened on every side by a tenth of its extent and clamped to
 * the frame. The detectors, the conversion from relative coordinates and the image operations
 * (crop, resize, enhancement, landmark drawing) are outside this model.
 */
module FaceBox {

  /** A box in absolute pixel coordinates: columns xMin..xMax, rows yMin..yMax. */
  datatype Box = Box(xMin: int, yMin: int, xMax: int, yMax: int)

  function Max(a: int, b: int): int { if a < b then b else a }

  function Min(a: int, b: int): int { if a < b then a else b }

  /** int(0.1 * d): a tenth of d, truncated toward zero as Python's int() truncates. */
  function Tenth(d: int): (t: int)
    ensures 0 <= d ==> 0 <= t && 10 * t <= d < 10 * t + 10
    ensures d < 0 ==> t <= 0 && 10 * t - 10 < d <= 10 * t
  {
    if d >= 0 then d / 10 else -((-d) / 10)
  }

  /**
   * Lines 138-141. The left and top sides move out by a tenth of the box's width and height;
   * the right and bottom sides then move out by a tenth of the distance from the ALREADY
   * widened left and top sides. Each side is clamped to the frame, [0, w] and [0, h].
   */
  function Expand(b: Box, w: int, h: int): (r: Box)
    ensures 0 <= r.xMin && 0 <= r.yMin && r.xMax <= w && r.yMax <= h
  {
    var xMin := Max(0, b.xMin - Tenth(b.xMax - b.xMin));
    var yMin := Max(0, b.yMin - Tenth(b.yMax - b.yMin));
    var xMax := Min(w, b.xMax + Tenth(b.xMax - xMin));
    var yMax := Min(h, b.yMax + Tenth(b.yMax - yMin));
    Box(xMin, yMin, xMax, yMax)
  }

  /** A box whose sides are ordered and lie inside a w-by-h frame. */
  predicate InFrame(b: Box, w: int, h: int) {
    0 <= b.xMin <= b.xMax <= w && 0 <= b.yMin <= b.yMax <= h
  }

  /** A box inside the frame only grows: the expanded box contains it and stays inside the frame. */
  lemma ExpandContains(b: Box, w: int, h: int)
    requires InFrame(b, w, h)
    ensures InFrame(Expand(b, w, h), w, h)
    ensures Expand(b, w, h).xMin <= b.xMin && b.xMax <= Expand(b, w, h).xMax
    ensures Expand(b, w, h).yMin <= b.yMin && b.yMax <= Expand(b, w, h).yMax
  {
  }

  /**
   * The four margins of a box inside the frame: the left and top margins are a tenth of the
   * original width and height, the right and bottom ones a tenth of the width and height
   * measured from the widened left and top sides; each is cut short by the frame's edge.
   */
  lemma ExpandMargins(b: Box, w: int, h: int)
    requires InFrame(b, w, h)
    ensures b.xMin - Expand(b, w, h).xMin == Min(b.xMin, (b.xMax - b.xMin) / 10)
    ensures b.yMin - Expand(b, w, h).yMin == Min(b.yMin, (b.yMax - b.yMin) / 10)
    ensures Expand(b, w, h).xMax - b.xMax == Min(w - b.xMax, (b.xMax - Expand(b, w, h).xMin) / 10)
    ensures Expand(b, w, h).yMax - b.yMax == Min(h - b.yMax, (b.yMax - Expand(b, w, h).yMin) / 10)
  {
  }

  /**
   * Because it is measured from the widened side, the right (bottom) margin is never smaller
   * than a tenth of the original width (height), unless the frame's edge cuts it.
   */
  lemma FarMarginAtLeastNearMargin(b: Box, w: int, h: int)
    requires InFrame(b, w, h)
    ensures Expand(b, w, h).xMax - b.xMax == w - b.xMax
      || Expand(b, w, h).xMax - b.xMax >= (b.xMax - b.xMin) / 10
    ensures Expand(b, w, h).yMax - b.yMax == h - b.yMax
      || Expand(b, w, h).yMax - b.yMax >= (b.yMax - b.yMin) / 10
  {
    var r := Expand(b, w, h);
    assert b.xMax - r.xMin >= b.xMax - b.xMin;
    assert b.yMax - r.yMin >= b.yMax - b.yMin;
  }

  /** A 100-pixel box in a large frame: 10 pixels are added on the left and 11 on the right. */
  lemma ExpandExample()
    ensures Expand(Box(100, 100, 200, 200), 1000, 1000) == Box(90, 90, 211, 211)
  {
  }

  /**
   * The detection loop, lines 129-145: every detection's box is expanded and the frame is
   * cropped to it and resized back to its own size, so later boxes are taken against the same
   * width and height. Returns the crops in the order they are applied to the frame; with no
   * detection there is no crop and the whole frame is kept.
   */
  method CropBoxes(detections: seq<Box>, w: int, h: int) returns (crops: seq<Box>)
    ensures |crops| == |detections|
    ensures forall i :: 0 <= i < |crops| ==> crops[i] == Expand(detections[i], w, h)
    ensures forall i :: 0 <= i < |crops| ==>
      0 <= crops[i].xMin && crops[i].xMax <= w && 0 <= crops[i].yMin && crops[i].yMax <= h
  {
    crops := [];
    var i := 0;
    while i < |detections|
      invariant 0 <= i <= |detections|
      invariant |crops| == i
      invariant forall k :: 0 <= k < i ==> crops[k] == Expand(detections[k], w, h)
    {
      var box := Expand(detections[i], w, h);
      crops := crops + [box];
      i := i + 1;
    }
  }
}
