/**
 * `calculate_IoU` of metrics.py: the greedy matcher that scores one frame. It takes
 * the IoU of every (label, detection) pair, sorts those values from largest to
 * smallest, and looks at the first len(labels) of them: a value of at least 0.5 is a
 * true positive; a smaller one is a false positive, but only when the frame has as
 * many detections as labels.
 *
 * The IoU itself comes from a third-party routine over float tensors; here it is
 * the parameter `iou`, about which nothing is assumed.
 */
module IouMatcher {

  const IouThreshold: real := 0.5

  /** A box `[x1, y1, x2, y2]`. */
  type Box = seq<int>

  /** True positives and false positives of one frame or one video. */
  datatype Counts = Counts(tp: nat, fp: nat)

  function Min(a: nat, b: nat): nat
  {
    if a <= b then a else b
  }

  /** The IoU of `labelBox` with each detection, in detection order. */
  function RowIoU(labelBox: Box, detections: seq<Box>, iou: (Box, Box) -> real): (r: seq<real>)
    ensures |r| == |detections|
    ensures forall j :: 0 <= j < |detections| ==> r[j] == iou(labelBox, detections[j])
  {
    if detections == [] then []
    else RowIoU(labelBox, detections[..|detections| - 1], iou) + [iou(labelBox, detections[|detections| - 1])]
  }

  /** The IoU of every (label, detection) pair, in the order of the nested loops (labels outermost). */
  function PairwiseIoU(labels: seq<Box>, detections: seq<Box>, iou: (Box, Box) -> real): (r: seq<real>)
    ensures |r| == |labels| * |detections|
  {
    if labels == [] then []
    else
      var r := PairwiseIoU(labels[..|labels| - 1], detections, iou) + RowIoU(labels[|labels| - 1], detections, iou);
      assert |r| == (|labels| - 1) * |detections| + |detections|;
      r
  }

  /** Entry i * |detections| + j of the pair list is the IoU of label i with detection j. */
  lemma {:induction false} PairwiseIoUAt(labels: seq<Box>, detections: seq<Box>, iou: (Box, Box) -> real, i: nat, j: nat)
    requires i < |labels| && j < |detections|
    ensures i * |detections| + j < |PairwiseIoU(labels, detections, iou)|
    ensures PairwiseIoU(labels, detections, iou)[i * |detections| + j] == iou(labels[i], detections[j])
  {
    var init := labels[..|labels| - 1];
    var front := PairwiseIoU(init, detections, iou);
    var row := RowIoU(labels[|labels| - 1], detections, iou);
    AppendRowEntry(front, row, |labels| - 1, |detections|, i, j);
    if i < |labels| - 1 {
      PairwiseIoUAt(init, detections, iou, i, j);
    }
  }

  /**
   * Entry (i, j) of an n x m table laid out row by row, followed by one more row of
   * length m: it lies in the table for i < n and in the new row for i == n.
   */
  lemma AppendRowEntry(front: seq<real>, row: seq<real>, n: nat, m: nat, i: nat, j: nat)
    requires |front| == n * m && |row| == m && i <= n && j < m
    ensures i * m + j < |front + row|
    ensures i < n ==> i * m + j < |front| && (front + row)[i * m + j] == front[i * m + j]
    ensures i == n ==> (front + row)[i * m + j] == row[j]
  {
    if i < n {
      assert (i + 1) * m <= n * m;
    }
  }

  lemma RowIoUStep(labelBox: Box, detections: seq<Box>, iou: (Box, Box) -> real, j: nat)
    requires j < |detections|
    ensures RowIoU(labelBox, detections[..j + 1], iou) == RowIoU(labelBox, detections[..j], iou) + [iou(labelBox, detections[j])]
  {
    assert detections[..j + 1][..j] == detections[..j];
  }

  lemma PairwiseIoUStep(labels: seq<Box>, detections: seq<Box>, iou: (Box, Box) -> real, i: nat)
    requires i < |labels|
    ensures PairwiseIoU(labels[..i + 1], detections, iou) == PairwiseIoU(labels[..i], detections, iou) + RowIoU(labels[i], detections, iou)
  {
    assert labels[..i + 1][..i] == labels[..i];
  }

  /** How many values reach the threshold. */
  function CountPassing(s: seq<real>): nat
  {
    if s == [] then 0 else (if s[0] >= IouThreshold then 1 else 0) + CountPassing(s[1..])
  }

  lemma {:induction false} CountPassingAppend(a: seq<real>, b: seq<real>)
    ensures CountPassing(a + b) == CountPassing(a) + CountPassing(b)
  {
    if a != [] {
      assert (a + b)[1..] == a[1..] + b;
      CountPassingAppend(a[1..], b);
    } else {
      assert a + b == b;
    }
  }

  lemma CountPassingStep(s: seq<real>, k: nat)
    requires k < |s|
    ensures CountPassing(s[..k + 1]) == CountPassing(s[..k]) + (if s[k] >= IouThreshold then 1 else 0)
  {
    assert s[..k + 1] == s[..k] + [s[k]];
    CountPassingAppend(s[..k], [s[k]]);
  }

  lemma CountPassingBound(s: seq<real>)
    ensures CountPassing(s) <= |s|
  {
  }

  predicate Descending(s: seq<real>)
  {
    forall i, j :: 0 <= i < j < |s| ==> s[i] >= s[j]
  }

  /** One value put in front of the first smaller-or-equal value of a descending list. */
  function Insert(x: real, s: seq<real>): (r: seq<real>)
    requires Descending(s)
    ensures Descending(r)
    ensures CountPassing(r) == CountPassing(s) + CountPassing([x])
    ensures |r| == |s| + 1
    ensures r != [] && (r[0] == x || (s != [] && r[0] == s[0]))
  {
    if s == [] || x >= s[0] then
      assert ([x] + s)[1..] == s;
      [x] + s
    else
      var t := Insert(x, s[1..]);
      assert s == [s[0]] + s[1..];
      assert ([s[0]] + t)[1..] == t;
      [s[0]] + t
  }

  /**
   * `list.sort(reverse = True)`: the same values, largest first. The library sort is
   * stable, but values that compare equal are equal reals, so the sorted list is the same.
   */
  function SortDescending(s: seq<real>): (r: seq<real>)
    ensures Descending(r)
    ensures CountPassing(r) == CountPassing(s)
    ensures |r| == |s|
  {
    if s == [] then []
    else
      var t := SortDescending(s[1..]);
      assert s == [s[0]] + s[1..];
      CountPassingAppend([s[0]], s[1..]);
      Insert(s[0], t)
  }

  lemma {:induction false} InsertPermutes(x: real, s: seq<real>)
    requires Descending(s)
    ensures multiset(Insert(x, s)) == multiset(s) + multiset{x}
  {
    if s != [] && x < s[0] {
      InsertPermutes(x, s[1..]);
      MultisetCons(s);
      MultisetCons(Insert(x, s));
    }
  }

  /** Splitting off the head of a sequence splits off one occurrence of it. */
  lemma MultisetCons<T>(s: seq<T>)
    requires s != []
    ensures multiset(s) == multiset{s[0]} + multiset(s[1..])
  {
    assert s == [s[0]] + s[1..];
  }

  /** The sort only reorders: the sorted list holds the same values, each as often. */
  lemma {:induction false} SortDescendingPermutes(s: seq<real>)
    ensures multiset(SortDescending(s)) == multiset(s)
  {
    if s != [] {
      SortDescendingPermutes(s[1..]);
      InsertPermutes(s[0], SortDescending(s[1..]));
      MultisetCons(s);
    }
  }

  /**
   * In a list sorted from largest to smallest, the first k values hold as many passing
   * values as fit: min(k, all passing values). This is why taking the top len(labels)
   * values counts the passing pairs, capped at the number of labels.
   */
  lemma {:induction false} TopCountPassing(s: seq<real>, k: nat)
    requires Descending(s) && k <= |s|
    ensures CountPassing(s[..k]) == Min(k, CountPassing(s))
  {
    if k > 0 {
      assert s[..k][1..] == s[1..][..k - 1];
      TopCountPassing(s[1..], k - 1);
      if s[0] < IouThreshold {
        NonePassingBelow(s);
        NonePassingBelow(s[..k]);
      }
    }
  }

  /** A descending list whose head misses the threshold has no passing value. */
  lemma {:induction false} NonePassingBelow(s: seq<real>)
    requires Descending(s) && s != [] && s[0] < IouThreshold
    ensures CountPassing(s) == 0
  {
    if |s| > 1 {
      NonePassingBelow(s[1..]);
    }
  }

  lemma AtLeastFactor(a: nat, b: nat)
    requires b >= 1
    ensures a <= a * b
  {
  }

  /**
   * What the greedy rule yields for one frame, stated without sorting:
   * tp = min(len(labels), number of pairs with IoU >= 0.5); fp = len(labels) - tp when
   * the frame has as many detections as labels, and 0 otherwise.
   */
  function Matched(labels: seq<Box>, detections: seq<Box>, iou: (Box, Box) -> real): (c: Counts)
    ensures c.tp + c.fp <= |labels|
    ensures c.tp <= |labels| * |detections|
    ensures c.fp > 0 ==> |labels| == |detections|
    ensures |labels| == |detections| ==> c.tp + c.fp == |labels|
    ensures labels == [] || detections == [] ==> c == Counts(0, 0)
  {
    var tp := Min(|labels|, CountPassing(PairwiseIoU(labels, detections, iou)));
    CountPassingBound(PairwiseIoU(labels, detections, iou));
    Counts(tp, if |labels| == |detections| then |labels| - tp else 0)
  }

  /** The counts of the sorted top len(labels) IoUs are those `Matched` states. */
  lemma GreedyTopIsMatched(labels: seq<Box>, detections: seq<Box>, iou: (Box, Box) -> real, top: seq<real>)
    requires var sorted := SortDescending(PairwiseIoU(labels, detections, iou));
      top == sorted[..Min(|labels|, |sorted|)]
    ensures CountPassing(top) == Matched(labels, detections, iou).tp
    ensures |labels| == |detections| ==> |top| - CountPassing(top) == Matched(labels, detections, iou).fp
  {
    var pairs := PairwiseIoU(labels, detections, iou);
    var sorted := SortDescending(pairs);
    TopCountPassing(sorted, |top|);
    if |labels| == |detections| && |labels| > 0 {
      AtLeastFactor(|labels|, |detections|);
    }
  }

  /** The nested loops of `calculate_IoU`: the IoU of each label with each detection, appended in turn. */
  method CollectIoUs(labels: seq<Box>, detections: seq<Box>, iou: (Box, Box) -> real) returns (iouList: seq<real>)
    ensures iouList == PairwiseIoU(labels, detections, iou)
  {
    iouList := [];
    for i := 0 to |labels|
      invariant iouList == PairwiseIoU(labels[..i], detections, iou)
    {
      for j := 0 to |detections|
        invariant iouList == PairwiseIoU(labels[..i], detections, iou) + RowIoU(labels[i], detections[..j], iou)
      {
        RowIoUStep(labels[i], detections, iou, j);
        iouList := iouList + [iou(labels[i], detections[j])];
      }
      PairwiseIoUStep(labels, detections, iou, i);
    }
    assert labels[..|labels|] == labels;
  }

  /**
   * `calculate_IoU`: collects the pairwise IoUs, sorts them largest first, and walks
   * the first len(labels) entries counting true and false positives.
   */
  method CalculateIoU(labels: seq<Box>, detections: seq<Box>, iou: (Box, Box) -> real)
    returns (tp: nat, fp: nat)
    ensures Counts(tp, fp) == Matched(labels, detections, iou)
  {
    tp, fp := 0, 0;
    var iouList := CollectIoUs(labels, detections, iou);
    iouList := SortDescending(iouList);

    var top := iouList[..Min(|labels|, |iouList|)];
    for k := 0 to |top|
      invariant tp == CountPassing(top[..k])
      invariant fp == if |labels| == |detections| then k - tp else 0
    {
      CountPassingStep(top, k);
      if top[k] >= IouThreshold {
        tp := tp + 1;
      } else if top[k] < IouThreshold && |labels| == |detections| {
        fp := fp + 1;
      }
    }
    assert top[..|top|] == top;
    GreedyTopIsMatched(labels, detections, iou, top);
  }

  /** A list whose every value reaches the threshold counts every value. */
  lemma {:induction false} AllPassingCounted(s: seq<real>)
    requires forall k :: 0 <= k < |s| ==> s[k] >= IouThreshold
    ensures CountPassing(s) == |s|
  {
    if s != [] {
      AllPassingCounted(s[1..]);
    }
  }

  lemma {:induction false} RowIoUAllPassing(labelBox: Box, detections: seq<Box>, iou: (Box, Box) -> real)
    requires forall d :: d in detections ==> iou(labelBox, d) >= IouThreshold
    ensures CountPassing(RowIoU(labelBox, detections, iou)) == |detections|
  {
    AllPassingCounted(RowIoU(labelBox, detections, iou));
  }

  lemma MulSucc(n: nat, m: nat)
    ensures (n + 1) * m == n * m + m
  {
  }

  lemma {:induction false} PairwiseAllPassing(labels: seq<Box>, detections: seq<Box>, iou: (Box, Box) -> real)
    requires forall l, d :: l in labels && d in detections ==> iou(l, d) >= IouThreshold
    ensures CountPassing(PairwiseIoU(labels, detections, iou)) == |labels| * |detections|
  {
    if labels != [] {
      var init := labels[..|labels| - 1];
      PairwiseAllPassing(init, detections, iou);
      RowIoUAllPassing(labels[|labels| - 1], detections, iou);
      CountPassingAppend(PairwiseIoU(init, detections, iou), RowIoU(labels[|labels| - 1], detections, iou));
      MulSucc(|init|, |detections|);
    }
  }

  /** As many detections as labels and every pair overlapping enough: every label is a true positive, no false positive. */
  lemma AllPairsMatch(labels: seq<Box>, detections: seq<Box>, iou: (Box, Box) -> real)
    requires |labels| == |detections|
    requires forall l, d :: l in labels && d in detections ==> iou(l, d) >= IouThreshold
    ensures Matched(labels, detections, iou) == Counts(|labels|, 0)
  {
    PairwiseAllPassing(labels, detections, iou);
    if |labels| > 0 {
      AtLeastFactor(|labels|, |detections|);
    }
  }

  /** One label, one detection, too little overlap: a false positive and no true positive. */
  lemma SingleMiss(labelBox: Box, detection: Box, iou: (Box, Box) -> real)
    requires iou(labelBox, detection) < IouThreshold
    ensures Matched([labelBox], [detection], iou) == Counts(0, 1)
  {
    assert [labelBox][..0] == [] && [detection][..0] == [];
    assert RowIoU(labelBox, [detection], iou) == [iou(labelBox, detection)];
    assert PairwiseIoU([labelBox], [detection], iou) == [iou(labelBox, detection)];
    assert CountPassing([iou(labelBox, detection)]) == 0;
  }

  /**
   * The greedy rule does not pair labels and detections one to one: two labels that both
   * overlap a single detection enough are both counted as true positives.
   */
  lemma OneDetectionCountedTwice(l1: Box, l2: Box, detection: Box, iou: (Box, Box) -> real)
    requires iou(l1, detection) >= IouThreshold && iou(l2, detection) >= IouThreshold
    ensures Matched([l1, l2], [detection], iou) == Counts(2, 0)
  {
    AllPairsPassTp([l1, l2], [detection], iou);
  }

  lemma AllPairsPassTp(labels: seq<Box>, detections: seq<Box>, iou: (Box, Box) -> real)
    requires |detections| > 0
    requires forall l, d :: l in labels && d in detections ==> iou(l, d) >= IouThreshold
    ensures Matched(labels, detections, iou).tp == |labels|
  {
    PairwiseAllPassing(labels, detections, iou);
    AtLeastFactor(|labels|, |detections|);
  }
}
