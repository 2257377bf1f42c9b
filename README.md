# Detection metrics of the frame-by-frame pipeline, in Dafny

The pipeline detects objects in video frames and compares the detections with hand-made
labels, frame by frame. This project models the core of that comparison:

- **Coordinate rescaling.** The detector sees 3840 x 2160 frames and the labels were drawn
  on 1280 x 720 frames.
  - `reshape_coordinates` of `metrics.py` divides the first four entries of every detection
    box by 3 and rounds them, in place. This is `MetricsReshape`.
  - `reshape_coordinates` of `labelled_bbox_frames.py` multiplies the first four entries of
    one label box by 3, in place. This is `LabelledBboxFrames`.
- **Box matching in one frame.** `calculate_IoU` computes the IoU (intersection over union)
  of every label/detection pair and sorts the values from largest to smallest. It then
  looks at the top `len(labels)` values:
  - a value of at least 0.5 is a true positive;
  - a smaller value is a false positive, but only when the frame has as many detections as
    labels.

  This is `IouMatcher`. The IoU itself is a parameter. The module proves that the loop
  computes a closed form: `tp = min(#labels, #pairs passing)`, with `fp` the rest of the top
  values when the sizes agree.
- **Frame bookkeeping of one video.** This part of `boxes_metrics` is `FrameCounter` and
  `BoxesMetrics`.
  - False negatives are the label frames left over after subtracting the detection frames
    with `collections.Counter`. False positives start as the detection frames left over the
    other way.
  - The frames present on both sides are then matched box by box, after rescaling the
    detections.
  - Precision and recall are `tp / (tp + fp)` and `tp / (tp + fn)`. A zero denominator is
    the error `ZeroDivisionError`, as in Python.
  - `Counter` is a class with a signed count per frame and its keys in insertion order.
- **The summary table.** The loop over videos fills a table keyed by video name, and the
  first division error stops it.
- **File selection.** The loop of `get_boxes_speeds_filenames` sends a name containing
  `"boxes.csv"` to the boxes list. Otherwise a name containing `"speeds.csv"` goes to the
  speeds list. Every other name is dropped. This is `Filenames`.

The imperative parts are methods proved against functions on values:
- the in-place rescaling, on arrays;
- the pair loop, the counting loop and the frame loop;
- the Counter class;
- the video loop and the filename loop.

The properties of the pipeline are lemmas about those functions.

## Model

| member | source | states |
|---|---|---|
| MetricsReshape.ToLabelSpace | metrics.py:122-125 | the rounded third of a coordinate is the integer nearest to c/3: strictly within half a pixel, so within one unit of c after tripling back |
| MetricsReshape.ToLabelSpaceMonotone | metrics.py:122-125 | rescaling keeps the order of coordinates, so x1 <= x2 stays x1 <= x2 |
| MetricsReshape.ShrinkBox | metrics.py:122-125 | the first four entries become the nearest integers to their thirds; any later entry is left as it was |
| MetricsReshape.ShrinkAll | metrics.py:121-127 | every box of the list is rescaled, and the list keeps its length |
| MetricsReshape.ShrinkBoxInFrame | metrics.py:115-118 | a box inside the 3840 x 2160 detection frame lands inside the 1280 x 720 label frame |
| MetricsReshape.ReshapeCoordinates | metrics.py:110-127 | each box array is rescaled in place, and the same list object is returned |
| LabelledBboxFrames.ScaleBox | labelled_bbox_frames.py:29-32 | the first four entries are tripled and the rest are kept, with the same length |
| LabelledBboxFrames.ReshapeCoordinates | labelled_bbox_frames.py:18-34 | the first four entries of the box are tripled in place, the rest are unchanged, and the same box object is returned |
| LabelledBboxFrames.ScaleBoxInFrame | labelled_bbox_frames.py:23-26 | a box inside the 1280 x 720 label frame lands inside the 3840 x 2160 detection frame |
| LabelledBboxFrames.ShrinkScaleRoundTrip | labelled_bbox_frames.py:29-32 | tripling a label box and rounding its thirds gives the label box back exactly |
| LabelledBboxFrames.ScaleShrinkWithinOnePixel | labelled_bbox_frames.py:29-32 | rounding the thirds of a detection box and tripling them moves each coordinate by at most one pixel |
| IouMatcher.RowIoU | metrics.py:148-152 | the inner loop yields one IoU per detection, in detection order |
| IouMatcher.PairwiseIoU | metrics.py:147-152 | the nested loop yields one IoU per label/detection pair |
| IouMatcher.PairwiseIoUAt | metrics.py:147-152 | entry i * len(detections) + j of the pair list is the IoU of label i with detection j, so the labels form the outer loop and the detections the inner one |
| IouMatcher.CollectIoUs | metrics.py:145-152 | the nested loop builds, label by label and detection by detection, the list of all pair IoUs |
| IouMatcher.CountPassingAppend | metrics.py:159-161 | the passing values of two lists placed end to end add up |
| IouMatcher.Insert | metrics.py:155 | inserting into a list sorted largest first keeps it sorted and adds one value |
| IouMatcher.SortDescending | metrics.py:155 | the sorted list is ordered from largest to smallest, with the same length and the same passing values |
| IouMatcher.SortDescendingPermutes | metrics.py:155 | sorting only reorders: same values, each as often |
| IouMatcher.TopCountPassing | metrics.py:157-161 | in a list sorted largest first, the top k values hold min(k, all passing values) passing values |
| IouMatcher.NonePassingBelow | metrics.py:159-160 | when the largest value misses the threshold, no value passes |
| IouMatcher.Matched | metrics.py:157-165 | tp + fp never exceeds the number of labels; fp is non-zero only when the frame has as many detections as labels, and then tp + fp equals the number of labels; an empty side gives (0, 0) |
| IouMatcher.GreedyTopIsMatched | metrics.py:155-165 | counting the top len(labels) sorted values gives the closed-form tp and fp |
| IouMatcher.CalculateIoU | metrics.py:129-167 | the procedure returns the closed-form (tp, fp) for every pair of box lists and every IoU |
| IouMatcher.AllPassingCounted | metrics.py:160-161 | when every value passes, each one is counted |
| IouMatcher.PairwiseAllPassing | metrics.py:147-161 | when every pair passes, all len(labels) x len(detections) values pass |
| IouMatcher.AllPairsMatch | metrics.py:157-165 | with as many detections as labels and every pair passing, every label is a true positive and there is no false positive |
| IouMatcher.SingleMiss | metrics.py:164-165 | one label and one detection that overlap too little give one false positive and no true positive |
| IouMatcher.OneDetectionCountedTwice | metrics.py:157-161 | one detection that overlaps two labels well gives two true positives, because pairs are counted rather than matched one to one |
| IouMatcher.AllPairsPassTp | metrics.py:157-161 | with at least one detection and every pair passing, each label counts as a true positive |
| FrameCounter.Counter.constructor | metrics.py:191 | a new Counter holds each frame number as often as the list holds it |
| FrameCounter.Counter.Subtract | metrics.py:192 | subtracting a list lowers each count by its occurrences in the list, possibly below zero, and keeps the key order consistent |
| FrameCounter.Counter.Elements | metrics.py:194 | the elements repeat each key as often as its count when the count is positive, and never otherwise |
| BoxesMetrics.FrameColumn | metrics.py:184-185 | the frame column has one entry per row, in row order |
| BoxesMetrics.BoxesAt | metrics.py:206-211 | the boxes of one frame are at most the rows, four coordinates each |
| BoxesMetrics.BoxesAtMembership | metrics.py:206-211 | a box is among frame f's boxes exactly when some row of frame f has those corners |
| BoxesMetrics.BoxesAtCount | metrics.py:206-211 | frame f has as many boxes as the frame column has occurrences of f |
| BoxesMetrics.UnmatchedCount | metrics.py:189-201 | building a Counter, subtracting and counting its elements gives the size of the multiset difference of the two frame columns |
| BoxesMetrics.FrameCountsBalance | metrics.py:189-201 | FN minus the frame-level FP equals the number of label rows minus the number of detection rows |
| BoxesMetrics.FrameCountsExample | metrics.py:189-203 | label frames [1, 1, 2] and detection frames [1, 3] give FN 2, frame-level FP 1 and common frames [1] |
| BoxesMetrics.CommonFrames | metrics.py:203 | the common frames are exactly the frames on both sides, each once |
| BoxesMetrics.MatchedOver | metrics.py:205-218 | the per-frame matcher counts summed over the frames; frames without labels or without detections add nothing |
| BoxesMetrics.MatchedOverStep | metrics.py:205-218 | the running totals grow by the frame's own (tp, fp) at each step |
| BoxesMetrics.MatchFrames | metrics.py:205-218 | the frame loop adds up the per-frame (tp, fp) of the common frames, rescaling each frame's detections first |
| BoxesMetrics.ReshapeFrameDetections | metrics.py:210-213 | the frame's detection boxes are copied into arrays, rescaled in place and read back: every box rescaled |
| BoxesMetrics.Ratio | metrics.py:220-221 | the division fails exactly when the denominator is zero |
| BoxesMetrics.RatioMeaning | metrics.py:220-221 | a ratio lies in [0, 1], times the denominator gives tp, is 1 exactly when there are no misses and is 0 exactly when tp is 0 |
| BoxesMetrics.Summarize | metrics.py:220-221 | precision and recall are computed from the confusion counts, and a zero denominator fails |
| BoxesMetrics.SummaryOf | metrics.py:220-223 | the summary exists exactly when both denominators are non-zero; it then carries the counts unchanged, with precision times (tp + fp) equal to tp and recall times (tp + fn) equal to tp |
| BoxesMetrics.SummaryOfMeaning | metrics.py:220-221 | precision and recall lie in [0, 1]; precision is 1 exactly when there are no false positives and recall is 1 exactly when there are no false negatives |
| BoxesMetrics.VideoBoxesMetrics | metrics.py:181-221 | the body of the video loop yields the summary of the counts: FN from the Counter, FP from the Counter plus the matched frames, TP from the matched frames |
| BoxesMetrics.RowsInSnoc | metrics.py:205-211 | adding a new frame adds that frame's label rows |
| BoxesMetrics.MatchedOverWithinLabels | metrics.py:205-218 | over distinct frames, the matcher's true and false positives together never exceed the label rows of those frames |
| BoxesMetrics.VideoConfusion | metrics.py:187-218 | FN is the frame-level FN; FP is at least the frame-level FP; TP plus the FP the matcher adds is at most the number of label rows |
| BoxesMetrics.NoDetections | metrics.py:187-218 | a video without detections has no TP and no FP, and every label row is an FN |
| BoxesMetrics.Tabulate | metrics.py:177-223 | the loop over videos writes each video's column into the table, stops at the first error, and has at most one column per video |
| BoxesMetrics.TabulateFailurePersists | metrics.py:181-223 | once a video fails to divide, the run stops with that error whatever videos follow |
| BoxesMetrics.TabulateSucceeds | metrics.py:181-223 | the table is produced exactly when every video's precision and recall divide |
| BoxesMetrics.TabulateColumns | metrics.py:223 | the columns of the table are exactly the names of the videos |
| BoxesMetrics.TabulateLastWins | metrics.py:223 | each column holds the summary of the last video with that name |
| BoxesMetrics.BoxesMetricsTable | metrics.py:169-223 | the video loop builds the table of summaries, or stops at the first division error |
| Filenames.ContainsIffOccurs | metrics.py:52-54 | `pattern in name` holds exactly when the pattern occurs at some position of the name |
| Filenames.Route | metrics.py:52-55 | a name goes to the boxes list exactly when "boxes.csv" occurs in it, and to the speeds list exactly when "boxes.csv" does not occur in it and "speeds.csv" does |
| Filenames.Routed | metrics.py:51-55 | each list holds at most as many names as the listing |
| Filenames.GetBoxesSpeedsFilenames | metrics.py:37-57 | the loop returns the boxes names and the speeds names, in listing order |
| Filenames.RoutedMembership | metrics.py:51-55 | a name is in a list exactly when it was listed and routed there |
| Filenames.BoxesBeforeSpeeds | metrics.py:52-55 | a name containing "boxes.csv" is a boxes name even when it also contains "speeds.csv"; a name containing neither is in no list |
| Filenames.RoutedPartition | metrics.py:51-55 | counted with multiplicity, the boxes list, the speeds list and the dropped names together are exactly the listing |
| Filenames.RoutedPartitionAt | metrics.py:51-55 | for each name, its count in the boxes list, the speeds list and the dropped names adds up to its count in the listing |
| Filenames.RoutedPositions | metrics.py:51-55 | each list keeps the listing's relative order: its entries sit at increasing positions of the listing |

## Left out

- The IoU formula (`bbox_iou` of the detector library on float tensors) is a parameter `iou` of the matcher. Any real-valued function may be passed, so NaN is not modelled, and `elif iou < 0.5` is the same as `else`.
- `speeds_metrics` (minimum, maximum, mean, median and total of float speeds) is not modelled, because it is floating-point statistics.
- `round(..., 4)` of precision and recall is not modelled: both are exact rationals.
- Box coordinates are integers, as in the label files; fractional detection coordinates (rounded to the nearest integer, ties to even) are not modelled.
- File and folder I/O is not modelled:
  - `create_output_folders`, `get_data_dfs` (CSV reading), `get_labels_df` (label files sorted and concatenated) and `df_summary.to_json` are left out;
  - the directory listing and the label and detection rows are inputs;
  - the video name taken from the file name (`split("_")[0]`) is a field of each input video.
- Rows carry only frame and corner columns. The class and confidence columns of the detection files play no part in the metrics.
- `IoU_frames` is a Python set, whose iteration order is not specified. The model visits the common frames in order of first appearance in the detection frames. The totals are sums, so they do not depend on the order.
- FrameCounter.Counter.Elements: the order in which keys come out is not stated, only how often each key appears.
- BoxesMetrics.BoxesMetricsTable: the table is a map from video name to summary, so the column order of the data frame is not modelled. A later video with the same name replaces the earlier column, as assigning a data-frame column does.
- `list.sort(reverse=True)` is the value-level sort `SortDescending`. It is specified to be sorted and a permutation, and equal reals are indistinguishable, so stability does not matter.
- `write_frames` of `labelled_bbox_frames.py` (video decoding and drawing) is not modelled. `model.py` and `predicted_bbox_frames.py` (running the detector) are not part of this model.
