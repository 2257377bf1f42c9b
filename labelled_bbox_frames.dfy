/**
 * `reshape_coordinates` of labelled_bbox_frames.py: a label box drawn on a
 * 1280 x 720 frame is carried to the 3840 x 2160 video frame by multiplying its
 * four coordinates by 3, in place.
 */
module LabelledBboxFrames {
  import opened MetricsReshape

  /** A box `[x1, y1, x2, y2, ...]` with its first four entries tripled. */
  function ScaleBox(b: seq<int>): (r: seq<int>)
    requires |b| >= 4
    ensures |r| == |b|
    ensures forall j :: 0 <= j < 4 ==> r[j] == 3 * b[j]
    ensures forall j :: 4 <= j < |b| ==> r[j] == b[j]
  {
    b[0 := 3 * b[0]][1 := 3 * b[1]][2 := 3 * b[2]][3 := 3 * b[3]]
  }

  /**
   * Overwrites `bbox[0..3]` with three times their old values and hands back the
   * same list; its length and any entry past the fourth stay as they were.
   */
  method ReshapeCoordinates(bbox: array<int>) returns (r: array<int>)
    requires bbox.Length >= 4
    modifies bbox
    ensures r == bbox
    ensures bbox[..] == ScaleBox(old(bbox[..]))
    ensures forall j :: 0 <= j < 4 ==> bbox[j] == 3 * old(bbox[j])
  {
    bbox[0] := bbox[0] * 3;
    bbox[1] := bbox[1] * 3;
    bbox[2] := bbox[2] * 3;
    bbox[3] := bbox[3] * 3;
    r := bbox;
  }

  /** A well-ordered box inside the label frame lands inside the detection frame, still well-ordered. */
  lemma ScaleBoxInFrame(b: seq<int>)
    requires |b| >= 4 && InFrame(b, LabelWidth, LabelHeight)
    ensures |ScaleBox(b)| == |b|
    ensures InFrame(ScaleBox(b), DetectionWidth, DetectionHeight)
  {
  }

  /** Scaling a label box up and then rounding it back down (metrics.py) gives the box back exactly. */
  lemma {:induction false} ShrinkScaleRoundTrip(b: seq<int>)
    requires |b| >= 4
    ensures ShrinkBox(ScaleBox(b)) == b
  {
    var s := ScaleBox(b);
    forall j | 0 <= j < 4
      ensures ToLabelSpace(s[j]) == b[j]
    {
      assert s[j] == 3 * b[j];
    }
  }

  /** Rounding a detection box down and scaling it back up moves each coordinate by at most one pixel. */
  lemma ScaleShrinkWithinOnePixel(b: seq<int>)
    requires |b| >= 4
    ensures |ScaleBox(ShrinkBox(b))| == |b|
    ensures forall j :: 0 <= j < 4 ==> -1 <= ScaleBox(ShrinkBox(b))[j] - b[j] <= 1
    ensures forall j :: 4 <= j < |b| ==> ScaleBox(ShrinkBox(b))[j] == b[j]
  {
  }
}
