/**
 * `boxes_metrics` of metrics.py: the per-video detection score.
 *
 * Frame numbers are compared as multisets, one entry per labelled object and one per
 * detected object. Label entries that no detection entry matches are false negatives
 * (LF - DF); detection entries that no label entry matches are false positives
 * (DF - LF). Every frame that has both labels and detections goes to the greedy
 * matcher, after its detections are rounded to label space, and the matcher's counts
 * are added in. Precision is tp / (tp + fp) and recall is tp / (tp + fn); metrics.py
 * divides without a guard, so a zero denominator is the error ZeroDivisionError here.
 */
module BoxesMetrics {
  import opened Wrappers
  import opened MetricsReshape
  import opened IouMatcher
  import opened FrameCounter

  /** One row of a labels or boxes table: the frame number and the box `x1, y1, x2, y2`. */
  datatype Row = Row(frame: int, x1: int, y1: int, x2: int, y2: int)

  /** One video: its name, its label rows and its detection rows. */
  datatype Video = Video(name: string, labels: seq<Row>, detections: seq<Row>)

  datatype Confusion = Confusion(tp: nat, fp: nat, fn: nat)

  datatype Summary = Summary(tp: nat, fp: nat, fn: nat, precision: real, recall: real)

  datatype MetricsError = ZeroDivisionError

  function Xyxy(r: Row): seq<int>
  {
    [r.x1, r.y1, r.x2, r.y2]
  }

  /** `df["frame"].tolist()`. */
  function FrameColumn(rows: seq<Row>): (r: seq<int>)
    ensures |r| == |rows|
    ensures forall i :: 0 <= i < |rows| ==> r[i] == rows[i].frame
  {
    if rows == [] then [] else [rows[0].frame] + FrameColumn(rows[1..])
  }

  /** `df[df["frame"] == f][["x1", "y1", "x2", "y2"]].values.tolist()`: the boxes of frame f, in row order. */
  function BoxesAt(rows: seq<Row>, f: int): (r: seq<seq<int>>)
    ensures |r| <= |rows|
    ensures forall i :: 0 <= i < |r| ==> |r[i]| == 4
  {
    if rows == [] then []
    else (if rows[0].frame == f then [Xyxy(rows[0])] else []) + BoxesAt(rows[1..], f)
  }

  /** Frame f has one box per occurrence of f in the frame column. */
  lemma {:induction false} BoxesAtCount(rows: seq<Row>, f: int)
    ensures |BoxesAt(rows, f)| == multiset(FrameColumn(rows))[f]
  {
    if rows != [] {
      BoxesAtCount(rows[1..], f);
      assert FrameColumn(rows) == [rows[0].frame] + FrameColumn(rows[1..]);
    }
  }

  /** The boxes of frame f are exactly the corners of the rows whose frame is f. */
  lemma {:induction false} BoxesAtMembership(rows: seq<Row>, f: int, b: seq<int>)
    ensures b in BoxesAt(rows, f) <==> exists i :: 0 <= i < |rows| && rows[i].frame == f && b == Xyxy(rows[i])
  {
    if rows != [] {
      BoxesAtMembership(rows[1..], f, b);
      if exists i :: 0 <= i < |rows| - 1 && rows[1..][i].frame == f && b == Xyxy(rows[1..][i]) {
        var i :| 0 <= i < |rows| - 1 && rows[1..][i].frame == f && b == Xyxy(rows[1..][i]);
        assert rows[i + 1] == rows[1..][i];
      }
      if exists i :: 0 <= i < |rows| && rows[i].frame == f && b == Xyxy(rows[i]) {
        var i :| 0 <= i < |rows| && rows[i].frame == f && b == Xyxy(rows[i]);
        if i > 0 {
          assert rows[1..][i - 1] == rows[i];
        }
      }
    }
  }

  /** How many rows have their frame among `fs`. */
  function RowsIn(rows: seq<Row>, fs: seq<int>): (n: nat)
    ensures n <= |rows|
  {
    if rows == [] then 0 else (if rows[0].frame in fs then 1 else 0) + RowsIn(rows[1..], fs)
  }

  predicate Distinct(s: seq<int>)
  {
    forall i, j :: 0 <= i < j < |s| ==> s[i] != s[j]
  }

  /**
   * `set(boxes_frames_list) & set(labels_frames_list)`: the frames in both lists, each
   * once. `boxes_metrics` iterates a Python set, whose order is unspecified; here the frames
   * come in the order they first appear in the detections. Only sums over this
   * collection are used, and those do not depend on the order.
   */
  function CommonFrames(df: seq<int>, lf: seq<int>): (r: seq<int>)
    ensures Distinct(r)
    ensures forall f :: f in r <==> f in df && f in lf
  {
    if df == [] then []
    else
      var rest := CommonFrames(df[..|df| - 1], lf);
      var f := df[|df| - 1];
      assert df == df[..|df| - 1] + [f];
      if f in lf && f !in rest then rest + [f] else rest
  }

  /** What the matcher scores for frame f: its labels against its detections rounded to label space. */
  function FrameMatch(labels: seq<Row>, detections: seq<Row>, iou: (Box, Box) -> real, f: int): Counts
  {
    Matched(BoxesAt(labels, f), ShrinkAll(BoxesAt(detections, f)), iou)
  }

  /** The matcher's counts summed over the frames `fs`. */
  function MatchedOver(labels: seq<Row>, detections: seq<Row>, iou: (Box, Box) -> real, fs: seq<int>): (c: Counts)
    ensures (forall k :: 0 <= k < |fs| ==> BoxesAt(labels, fs[k]) == [] || BoxesAt(detections, fs[k]) == []) ==> c == Counts(0, 0)
  {
    if fs == [] then Counts(0, 0)
    else
      var rest := MatchedOver(labels, detections, iou, fs[..|fs| - 1]);
      var here := FrameMatch(labels, detections, iou, fs[|fs| - 1]);
      Counts(rest.tp + here.tp, rest.fp + here.fp)
  }

  lemma MatchedOverStep(labels: seq<Row>, detections: seq<Row>, iou: (Box, Box) -> real, fs: seq<int>, i: nat)
    requires i < |fs|
    ensures var before := MatchedOver(labels, detections, iou, fs[..i]);
      var here := FrameMatch(labels, detections, iou, fs[i]);
      MatchedOver(labels, detections, iou, fs[..i + 1]) == Counts(before.tp + here.tp, before.fp + here.fp)
  {
    assert fs[..i + 1][..i] == fs[..i];
  }

  /** TP, FP and FN of one video, before the division. */
  function VideoConfusion(labels: seq<Row>, detections: seq<Row>, iou: (Box, Box) -> real): (c: Confusion)
    ensures c.fn == |multiset(FrameColumn(labels)) - multiset(FrameColumn(detections))|
    ensures c.fp >= |multiset(FrameColumn(detections)) - multiset(FrameColumn(labels))|
    ensures c.tp + (c.fp - |multiset(FrameColumn(detections)) - multiset(FrameColumn(labels))|) <= |labels|
  {
    MatchedOverWithinLabels(labels, detections, iou, CommonFrames(FrameColumn(detections), FrameColumn(labels)));
    var lf := multiset(FrameColumn(labels));
    var df := multiset(FrameColumn(detections));
    var m := MatchedOver(labels, detections, iou, CommonFrames(FrameColumn(detections), FrameColumn(labels)));
    Confusion(m.tp, |df - lf| + m.fp, |lf - df|)
  }

  /**
   * `tp / (tp + misses)`, the shape of both precision (misses = fp) and recall
   * (misses = fn); a zero denominator raises.
   */
  function Ratio(tp: nat, misses: nat): (r: Result<real, MetricsError>)
    ensures r.Failure? <==> tp + misses == 0
  {
    if tp + misses == 0 then Failure(ZeroDivisionError) else Success(tp as real / (tp + misses) as real)
  }

  /**
   * A defined ratio lies in [0, 1], is the fraction tp of tp + misses, is 1 exactly when
   * there are no misses and 0 exactly when there are no true positives.
   */
  lemma RatioMeaning(tp: nat, misses: nat)
    requires tp + misses > 0
    ensures Ratio(tp, misses).Success?
    ensures 0.0 <= Ratio(tp, misses).value <= 1.0
    ensures Ratio(tp, misses).value * (tp + misses) as real == tp as real
    ensures Ratio(tp, misses).value == 1.0 <==> misses == 0
    ensures Ratio(tp, misses).value == 0.0 <==> tp == 0
  {
    var d := (tp + misses) as real;
    var v := tp as real / d;
    assert v * d == tp as real;
    if v == 1.0 {
      assert tp as real == d;
    }
  }

  /** The column `boxes_metrics` writes for one video, or the error that stops it. */
  function VideoMetrics(labels: seq<Row>, detections: seq<Row>, iou: (Box, Box) -> real): Result<Summary, MetricsError>
  {
    SummaryOf(VideoConfusion(labels, detections, iou))
  }

  /** Precision, then recall, of the counts; the first zero denominator raises. */
  function SummaryOf(c: Confusion): (r: Result<Summary, MetricsError>)
    ensures r.Success? <==> c.tp + c.fp > 0 && c.tp + c.fn > 0
    ensures r.Success? ==> r.value.tp == c.tp && r.value.fp == c.fp && r.value.fn == c.fn
    ensures r.Success? ==> r.value.precision * (c.tp + c.fp) as real == c.tp as real
    ensures r.Success? ==> r.value.recall * (c.tp + c.fn) as real == c.tp as real
  {
    match Ratio(c.tp, c.fp)
    case Failure(e) => Failure(e)
    case Success(precision) =>
      match Ratio(c.tp, c.fn)
      case Failure(e) => Failure(e)
      case Success(recall) => Success(Summary(c.tp, c.fp, c.fn, precision, recall))
  }

  /**
   * `frame_detections_xyxy = reshape_coordinates(frame_detections_xyxy)`: the rows are
   * turned into fresh lists, as `tolist()` does, and rounded in place.
   */
  method ReshapeFrameDetections(boxes: seq<seq<int>>) returns (r: seq<seq<int>>)
    requires forall i :: 0 <= i < |boxes| ==> |boxes[i]| >= 4
    ensures r == ShrinkAll(boxes)
  {
    var rows: seq<array<int>> := [];
    for i := 0 to |boxes|
      invariant |rows| == i
      invariant forall k :: 0 <= k < i ==> fresh(rows[k]) && rows[k][..] == boxes[k]
      invariant forall a, b :: 0 <= a < b < i ==> rows[a] != rows[b]
    {
      var box := boxes[i];
      var row := new int[|box|](j requires 0 <= j < |box| => box[j]);
      rows := rows + [row];
    }
    var xyxyList := new array<int>[|rows|](i requires 0 <= i < |rows| => rows[i]);
    xyxyList := MetricsReshape.ReshapeCoordinates(xyxyList);
    r := [];
    for i := 0 to xyxyList.Length
      invariant |r| == i
      invariant forall k :: 0 <= k < i ==> r[k] == ShrinkBox(boxes[k])
    {
      r := r + [xyxyList[i][..]];
    }
  }

  /**
   * `counter = Counter(left); counter.subtract(right); len(list(counter.elements()))`:
   * the entries of `left` that no entry of `right` cancels, that is, the sum over each
   * frame of max(0, its count in left - its count in right).
   */
  method UnmatchedCount(left: seq<int>, right: seq<int>) returns (n: nat)
    ensures n == |multiset(left) - multiset(right)|
  {
    var counter := new Counter(left);
    counter.Subtract(right);
    var elements := counter.Elements();
    forall f
      ensures multiset(elements)[f] == (multiset(left) - multiset(right))[f]
    {
    }
    assert multiset(elements) == multiset(left) - multiset(right);
    n := |elements|;
  }

  /**
   * `for frame in IoU_frames`: each frame's labels and detections are picked out of the
   * tables, the detections rounded to label space, and the matcher's counts added up.
   */
  method MatchFrames(labels: seq<Row>, detections: seq<Row>, iou: (Box, Box) -> real, iouFrames: seq<int>)
    returns (tp: nat, fp: nat)
    ensures Counts(tp, fp) == MatchedOver(labels, detections, iou, iouFrames)
  {
    tp, fp := 0, 0;
    for i := 0 to |iouFrames|
      invariant Counts(tp, fp) == MatchedOver(labels, detections, iou, iouFrames[..i])
    {
      var frame := iouFrames[i];
      var frameLabels := BoxesAt(labels, frame);
      var frameDetections := BoxesAt(detections, frame);
      frameDetections := ReshapeFrameDetections(frameDetections);
      var tpDelta, fpDelta := CalculateIoU(frameLabels, frameDetections, iou);
      MatchedOverStep(labels, detections, iou, iouFrames, i);
      tp := tp + tpDelta;
      fp := fp + fpDelta;
    }
    assert iouFrames[..|iouFrames|] == iouFrames;
  }

  /**
   * One iteration of the loop in `boxes_metrics`: the two Counter reconciliations, the
   * matcher over the shared frames, then precision and recall.
   */
  method VideoBoxesMetrics(labels: seq<Row>, detections: seq<Row>, iou: (Box, Box) -> real)
    returns (res: Result<Summary, MetricsError>)
    ensures res == VideoMetrics(labels, detections, iou)
  {
    var labelsFrames := FrameColumn(labels);
    var boxesFrames := FrameColumn(detections);

    var tp: nat := 0;

    // The frames present in labels, but not in boxes: the false negatives.
    var fn := UnmatchedCount(labelsFrames, boxesFrames);
    // The frames present in boxes, but not in labels: the false positives.
    var fp := UnmatchedCount(boxesFrames, labelsFrames);

    var iouFrames := CommonFrames(boxesFrames, labelsFrames);
    var tpSum, fpSum := MatchFrames(labels, detections, iou, iouFrames);
    tp := tp + tpSum;
    fp := fp + fpSum;
    assert Confusion(tp, fp, fn) == VideoConfusion(labels, detections, iou);

    res := Summarize(Confusion(tp, fp, fn));
  }

  method Summarize(c: Confusion) returns (res: Result<Summary, MetricsError>)
    ensures res == SummaryOf(c)
  {
    var tp, fp, fn := c.tp, c.fp, c.fn;
    if tp + fp == 0 {
      return Failure(ZeroDivisionError);
    }
    var precision := tp as real / (tp + fp) as real;
    if tp + fn == 0 {
      return Failure(ZeroDivisionError);
    }
    var recall := tp as real / (tp + fn) as real;
    res := Success(Summary(tp, fp, fn, precision, recall));
  }

  /** How one video is scored: its column, or the error that stops the run. */
  function ScoreWith(iou: (Box, Box) -> real): Video -> Result<Summary, MetricsError>
  {
    (v: Video) => VideoMetrics(v.labels, v.detections, iou)
  }

  /**
   * The table a loop over the videos writes: one column per video name. Assigning a
   * column that already exists replaces it, so a later video with the same name wins; the
   * first video whose score fails stops the whole run.
   */
  function Tabulate(videos: seq<Video>, score: Video -> Result<Summary, MetricsError>): (r: Result<map<string, Summary>, MetricsError>)
    ensures r.Success? ==> |r.value.Keys| <= |videos|
  {
    if videos == [] then Success(map[])
    else
      match Tabulate(videos[..|videos| - 1], score)
      case Failure(e) => Failure(e)
      case Success(table) =>
        var v := videos[|videos| - 1];
        match score(v)
        case Failure(e) => Failure(e)
        case Success(summary) => Success(table[v.name := summary])
  }

  /** The table `boxes_metrics` writes. */
  function MetricsTable(videos: seq<Video>, iou: (Box, Box) -> real): Result<map<string, Summary>, MetricsError>
  {
    Tabulate(videos, ScoreWith(iou))
  }

  /** Once a prefix of the videos fails, the whole run fails with that error. */
  lemma {:induction false} TabulateFailurePersists(videos: seq<Video>, score: Video -> Result<Summary, MetricsError>, i: nat)
    requires i <= |videos| && Tabulate(videos[..i], score).Failure?
    ensures Tabulate(videos, score) == Tabulate(videos[..i], score)
  {
    if i < |videos| {
      var init := videos[..|videos| - 1];
      assert init[..i] == videos[..i];
      TabulateFailurePersists(init, score, i);
    } else {
      assert videos[..i] == videos;
    }
  }

  lemma TabulateStep(videos: seq<Video>, score: Video -> Result<Summary, MetricsError>, i: nat)
    requires i < |videos|
    ensures var v := videos[i];
      Tabulate(videos[..i + 1], score) ==
        match Tabulate(videos[..i], score)
        case Failure(e) => Failure(e)
        case Success(table) =>
          match score(v)
          case Failure(e) => Failure(e)
          case Success(summary) => Success(table[v.name := summary])
  {
    assert videos[..i + 1][..i] == videos[..i];
  }

  /** The table is produced exactly when every video is scored without error. */
  lemma {:induction false} TabulateSucceeds(videos: seq<Video>, score: Video -> Result<Summary, MetricsError>)
    ensures Tabulate(videos, score).Success? <==> forall i :: 0 <= i < |videos| ==> score(videos[i]).Success?
  {
    if videos != [] {
      var init := videos[..|videos| - 1];
      TabulateSucceeds(init, score);
      assert forall i :: 0 <= i < |init| ==> init[i] == videos[i];
    }
  }

  /** The columns of the table are the names of the videos. */
  lemma {:induction false} TabulateColumns(videos: seq<Video>, score: Video -> Result<Summary, MetricsError>)
    requires Tabulate(videos, score).Success?
    ensures forall name :: name in Tabulate(videos, score).value <==> exists i :: 0 <= i < |videos| && videos[i].name == name
  {
    if videos != [] {
      var init := videos[..|videos| - 1];
      TabulateColumns(init, score);
      assert forall i :: 0 <= i < |init| ==> init[i] == videos[i];
    }
  }

  /** Each column holds the score of the last video with that name. */
  lemma {:induction false} TabulateLastWins(videos: seq<Video>, score: Video -> Result<Summary, MetricsError>, i: nat)
    requires Tabulate(videos, score).Success?
    requires i < |videos| && forall j :: i < j < |videos| ==> videos[j].name != videos[i].name
    ensures score(videos[i]).Success? && videos[i].name in Tabulate(videos, score).value
    ensures Tabulate(videos, score).value[videos[i].name] == score(videos[i]).value
  {
    if i < |videos| - 1 {
      var init := videos[..|videos| - 1];
      TabulateLastWins(init, score, i);
    }
  }

  /**
   * The loop of `boxes_metrics` over the boxes tables: each video scored and its column
   * written into the summary table.
   */
  method BoxesMetricsTable(videos: seq<Video>, iou: (Box, Box) -> real)
    returns (res: Result<map<string, Summary>, MetricsError>)
    ensures res == MetricsTable(videos, iou)
  {
    var summary: map<string, Summary> := map[];
    for i := 0 to |videos|
      invariant Tabulate(videos[..i], ScoreWith(iou)) == Success(summary)
    {
      var video := videos[i];
      var column := VideoBoxesMetrics(video.labels, video.detections, iou);
      TabulateStep(videos, ScoreWith(iou), i);
      if column.Failure? {
        TabulateFailurePersists(videos, ScoreWith(iou), i + 1);
        return Failure(column.error);
      }
      summary := summary[video.name := column.value];
    }
    assert videos[..|videos|] == videos;
    res := Success(summary);
  }

  // ---------------------------------------------------------------------------
  // Properties of the reconciliation and of the counts

  /**
   * The two frame-level counts differ by exactly the difference in row counts: every
   * label entry is either cancelled by a detection entry or a false negative, and every
   * detection entry is either cancelled by a label entry or a false positive.
   */
  lemma FrameCountsBalance(lf: seq<int>, df: seq<int>)
    ensures |multiset(lf) - multiset(df)| + |multiset(df)| == |multiset(df) - multiset(lf)| + |multiset(lf)|
    ensures |multiset(lf) - multiset(df)| - |multiset(df) - multiset(lf)| == |lf| - |df|
  {
    var l, d := multiset(lf), multiset(df);
    assert (l - d) + (l * d) == l;
    assert (d - l) + (l * d) == d;
  }

  /** labels in frames [1, 1, 2] and detections in frames [1, 3]: FN 2, frame-level FP 1, only frame 1 is matched. */
  lemma FrameCountsExample()
    ensures |multiset([1, 1, 2]) - multiset([1, 3])| == 2
    ensures |multiset([1, 3]) - multiset([1, 1, 2])| == 1
    ensures CommonFrames([1, 3], [1, 1, 2]) == [1]
  {
    assert multiset([1, 1, 2]) - multiset([1, 3]) == multiset{1, 2};
    assert multiset([1, 3]) - multiset([1, 1, 2]) == multiset{3};
    assert [1, 3][..1] == [1];
  }

  lemma {:induction false} RowsInSnoc(rows: seq<Row>, fs: seq<int>, f: int)
    requires f !in fs
    ensures RowsIn(rows, fs + [f]) == RowsIn(rows, fs) + |BoxesAt(rows, f)|
  {
    if rows != [] {
      RowsInSnoc(rows[1..], fs, f);
    }
  }

  /**
   * Summed over distinct frames, the matcher's true and false positives together are at
   * most the label rows of those frames.
   */
  lemma {:induction false} MatchedOverWithinLabels(labels: seq<Row>, detections: seq<Row>, iou: (Box, Box) -> real, fs: seq<int>)
    requires Distinct(fs)
    ensures MatchedOver(labels, detections, iou, fs).tp + MatchedOver(labels, detections, iou, fs).fp <= RowsIn(labels, fs)
  {
    if fs != [] {
      var init := fs[..|fs| - 1];
      var f := fs[|fs| - 1];
      assert fs == init + [f];
      MatchedOverWithinLabels(labels, detections, iou, init);
      RowsInSnoc(labels, init, f);
    }
  }

  /** A video with labels and no detections: no true or false positives, every label row a false negative. */
  lemma NoDetections(labels: seq<Row>, iou: (Box, Box) -> real)
    ensures VideoConfusion(labels, [], iou) == Confusion(0, 0, |labels|)
  {
    assert multiset(FrameColumn(labels)) - multiset(FrameColumn([])) == multiset(FrameColumn(labels));
    assert CommonFrames(FrameColumn([]), FrameColumn(labels)) == [];
  }

  /**
   * A summary's precision and recall lie in [0, 1]; precision is 1 exactly when there
   * are no false positives and recall is 1 exactly when there are no false negatives.
   */
  lemma SummaryOfMeaning(c: Confusion)
    requires SummaryOf(c).Success?
    ensures 0.0 <= SummaryOf(c).value.precision <= 1.0 && 0.0 <= SummaryOf(c).value.recall <= 1.0
    ensures SummaryOf(c).value.precision == 1.0 <==> c.fp == 0
    ensures SummaryOf(c).value.recall == 1.0 <==> c.fn == 0
  {
    RatioMeaning(c.tp, c.fp);
    RatioMeaning(c.tp, c.fn);
  }
}
