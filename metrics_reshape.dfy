/**
 * `reshape_coordinates` of metrics.py: detection boxes, found on 3840 x 2160 frames,
 * are brought to the 1280 x 720 frames the labels were drawn on by replacing each of
 * the four coordinates x1, y1, x2, y2 of every box with round(c / 3), in place.
 */
module MetricsReshape {

  const DetectionWidth: int := 3840
  const DetectionHeight: int := 2160
  const LabelWidth: int := 1280
  const LabelHeight: int := 720

  /**
   * round(c / 3) for an integer pixel coordinate c. The quotient c / 3 has fractional
   * part 0, 1/3 or 2/3, never 1/2, so Python's round (which only differs from
   * "nearest integer" on ties) gives the integer nearest to c / 3, and that is
   * (c + 1) / 3 under floor division.
   */
  function ToLabelSpace(c: int): (r: int)
    ensures (c as real) / 3.0 - 0.5 < r as real < (c as real) / 3.0 + 0.5
    ensures 3 * r - 1 <= c <= 3 * r + 1
  {
    (c + 1) / 3
  }

  /** The rounding is monotone, so it keeps x1 <= x2 and y1 <= y2. */
  lemma ToLabelSpaceMonotone(a: int, b: int)
    requires a <= b
    ensures ToLabelSpace(a) <= ToLabelSpace(b)
  {
  }

  /** A box `[x1, y1, x2, y2, ...]` with its first four entries rounded to label space. */
  function ShrinkBox(b: seq<int>): (r: seq<int>)
    requires |b| >= 4
    ensures |r| == |b|
    ensures forall j :: 0 <= j < 4 ==> 3 * r[j] - 1 <= b[j] <= 3 * r[j] + 1
    ensures forall j :: 4 <= j < |b| ==> r[j] == b[j]
  {
    b[0 := ToLabelSpace(b[0])][1 := ToLabelSpace(b[1])][2 := ToLabelSpace(b[2])][3 := ToLabelSpace(b[3])]
  }

  /** Every box of a list shrunk to label space, list order kept. */
  function ShrinkAll(boxes: seq<seq<int>>): (r: seq<seq<int>>)
    requires forall i :: 0 <= i < |boxes| ==> |boxes[i]| >= 4
    ensures |r| == |boxes|
    ensures forall i :: 0 <= i < |boxes| ==> r[i] == ShrinkBox(boxes[i])
  {
    if boxes == [] then [] else [ShrinkBox(boxes[0])] + ShrinkAll(boxes[1..])
  }

  /** `0 <= x1 <= x2 <= width` and `0 <= y1 <= y2 <= height`. */
  predicate InFrame(b: seq<int>, width: int, height: int)
    requires |b| >= 4
  {
    0 <= b[0] <= b[2] <= width && 0 <= b[1] <= b[3] <= height
  }

  /** A well-ordered box inside the detection frame lands inside the label frame, still well-ordered. */
  lemma ShrinkBoxInFrame(b: seq<int>)
    requires |b| >= 4 && InFrame(b, DetectionWidth, DetectionHeight)
    ensures InFrame(ShrinkBox(b), LabelWidth, LabelHeight)
  {
    ToLabelSpaceMonotone(0, b[0]);
    ToLabelSpaceMonotone(b[0], b[2]);
    ToLabelSpaceMonotone(b[2], DetectionWidth);
    ToLabelSpaceMonotone(0, b[1]);
    ToLabelSpaceMonotone(b[1], b[3]);
    ToLabelSpaceMonotone(b[3], DetectionHeight);
  }

  /**
   * The loop of `reshape_coordinates`: every box of the list (each a list of its own,
   * as `tolist()` builds them) has positions 0..3 overwritten with the rounded third,
   * and the same list object is handed back.
   */
  method ReshapeCoordinates(xyxyList: array<array<int>>) returns (r: array<array<int>>)
    requires forall i :: 0 <= i < xyxyList.Length ==> xyxyList[i].Length >= 4
    requires forall i, j :: 0 <= i < j < xyxyList.Length ==> xyxyList[i] != xyxyList[j]
    modifies set i | 0 <= i < xyxyList.Length :: xyxyList[i]
    ensures r == xyxyList
    ensures forall i :: 0 <= i < xyxyList.Length ==> xyxyList[i][..] == ShrinkBox(old(xyxyList[i][..]))
  {
    for i := 0 to xyxyList.Length
      invariant forall k :: 0 <= k < i ==> xyxyList[k][..] == ShrinkBox(old(xyxyList[k][..]))
      invariant forall k :: i <= k < xyxyList.Length ==> xyxyList[k][..] == old(xyxyList[k][..])
    {
      var box := xyxyList[i];
      box[0] := ToLabelSpace(box[0]);
      box[1] := ToLabelSpace(box[1]);
      box[2] := ToLabelSpace(box[2]);
      box[3] := ToLabelSpace(box[3]);
    }
    r := xyxyList;
  }
}
