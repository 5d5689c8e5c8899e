/** Decoding one inference of the browser detector: each output row is a box
    (centre x, centre y, width, height in model-input pixels), an objectness and
    K class scores. A row becomes a detection on the display canvas when its best
    class is positive, objectness times that score reaches the threshold, and the
    un-letterboxed box, clipped to the canvas, is more than one pixel wide and tall. */
module Decoder {
  import opened Numeric
  import opened Letterbox
  import opened Boxes
  import opened Suppression
  import opened OutputLayout

  datatype Option<T> = None | Some(value: T)

  /** The class loop's running best: index -1 and score 0 until a score beats it. */
  datatype Best = Best(index: int, score: real)

  /** The best class of a list of scores: the running best after the last one. */
  function BestClass(scores: seq<real>): (b: Best)
    ensures -1 <= b.index < |scores|
  {
    if scores == [] then Best(-1, 0.0)
    else
      var earlier := BestClass(scores[..|scores| - 1]);
      if scores[|scores| - 1] > earlier.score then Best(|scores| - 1, scores[|scores| - 1])
      else earlier
  }

  /** The best class is the first index of the strictly largest positive score, and
      -1 with score 0 when no score is positive. */
  lemma {:induction false} BestClassIsFirstMaximum(scores: seq<real>)
    ensures var b := BestClass(scores);
            && (b.index == -1 <==> forall i :: 0 <= i < |scores| ==> scores[i] <= 0.0)
            && (b.index == -1 ==> b.score == 0.0)
            && (b.index >= 0 ==> 0.0 < b.score == scores[b.index])
            && (forall i :: 0 <= i < |scores| ==> scores[i] <= b.score)
            && (forall i :: 0 <= i < b.index ==> scores[i] < b.score)
  {
    if scores != [] {
      var front := scores[..|scores| - 1];
      BestClassIsFirstMaximum(front);
      assert forall i :: 0 <= i < |front| ==> front[i] == scores[i];
    }
  }

  lemma BestClassAppend(s: seq<real>, x: real)
    ensures BestClass(s + [x]) == if x > BestClass(s).score then Best(|s|, x) else BestClass(s)
  {
    assert (s + [x])[..|s|] == s;
  }

  /** The `count` entries from index `from` on, cut short at the end of the buffer:
      reading a typed array past its end gives undefined, which never compares
      greater than anything, so those reads drop out. */
  function Scores(data: seq<real>, from: nat, count: nat): (t: seq<real>)
    ensures |t| <= count
    ensures from + count <= |data| ==> |t| == count
    ensures |t| > 0 ==> from + |t| <= |data|
    ensures forall i :: 0 <= i < |t| ==> t[i] == data[from + i]
  {
    if count == 0 then []
    else
      var earlier := Scores(data, from, count - 1);
      if from + count - 1 < |data| then
        assert |earlier| == count - 1;
        earlier + [data[from + count - 1]]
      else earlier
  }

  /** The K class scores the loop reads for the row that starts `tail`: they come
      after the row's five box and objectness entries and, when a row has fewer
      than K + 5 entries, run on into the next row, as the loop's indexing does. */
  function ClassScores(tail: seq<real>, classCount: nat): seq<real>
  {
    Scores(tail, 5, classCount)
  }

  /** What every emitted detection satisfies. */
  predicate Accepted(d: Detection, classCount: nat, threshold: real, canvasW: nat, canvasH: nat)
  {
    && 0 <= d.cls < classCount
    && d.conf >= threshold
    && 0.0 <= d.x && d.x + d.w <= canvasW as real && 1.0 < d.w
    && 0.0 <= d.y && d.y + d.h <= canvasH as real && 1.0 < d.h
  }

  /** A row's confidence: its objectness times its best class score. */
  function Confidence(objectness: real, score: real): real
  {
    objectness * score
  }

  /** A box as a top-left corner and a size. */
  datatype Rect = Rect(x: real, y: real, w: real, h: real)

  /** A row's box in source pixels: its centre mapped back through the letterbox
      and its size divided by the scale factor, as a top-left corner and a size. */
  function SourceBox(cx: real, cy: real, w: real, h: real, box: Meta): Rect
    requires box.r > 0.0
  {
    var width, height := w / box.r, h / box.r;
    var xCenter, yCenter := FromModel(cx, box.dw, box.r), FromModel(cy, box.dh, box.r);
    Rect(xCenter - width / 2.0, yCenter - height / 2.0, width, height)
  }

  /** Mapping the source box forward through the letterbox gives back the row's
      centre and size in model-input pixels. */
  lemma SourceBoxInverts(cx: real, cy: real, w: real, h: real, box: Meta)
    requires box.r > 0.0
    ensures var b := SourceBox(cx, cy, w, h, box);
            && ToModel(b.x + b.w / 2.0, box.dw, box.r) == cx
            && ToModel(b.y + b.h / 2.0, box.dh, box.r) == cy
            && b.w * box.r == w && b.h * box.r == h
  {
    var b := SourceBox(cx, cy, w, h, box);
    assert b.x + b.w / 2.0 == FromModel(cx, box.dw, box.r);
    assert b.y + b.h / 2.0 == FromModel(cy, box.dh, box.r);
  }

  /** The clamp to the canvas: the corner is moved up to 0, the size is cut at the
      right and bottom edges; nothing when the corner is off the canvas or less
      than a pixel remains either way. */
  function Clamp(b: Rect, canvasW: nat, canvasH: nat): (o: Option<Rect>)
    ensures o.Some? ==>
              && 0.0 <= o.value.x && o.value.x + o.value.w <= canvasW as real && 1.0 < o.value.w
              && 0.0 <= o.value.y && o.value.y + o.value.h <= canvasH as real && 1.0 < o.value.h
    ensures && 0.0 <= b.x && b.x + b.w <= canvasW as real && 1.0 < b.w
            && 0.0 <= b.y && b.y + b.h <= canvasH as real && 1.0 < b.h
            ==> o == Some(b)
  {
    var x := Max(0.0, b.x);
    var y := Max(0.0, b.y);
    if x >= canvasW as real || y >= canvasH as real then None
    else
      var w := Min(b.w, canvasW as real - x);
      var h := Min(b.h, canvasH as real - y);
      if w <= 1.0 || h <= 1.0 then None
      else Some(Rect(x, y, w, h))
  }

  /** A box sticking out past the canvas's left edge is moved to x = 0 with its
      width kept (cut only at the right edge), so when it fits the canvas its right
      edge ends up further right than the box's own. */
  lemma ClampLeftEdge(b: Rect, canvasW: nat, canvasH: nat)
    requires b.x < 0.0 && Clamp(b, canvasW, canvasH).Some?
    ensures Clamp(b, canvasW, canvasH).value.x == 0.0
    ensures Clamp(b, canvasW, canvasH).value.w == Min(b.w, canvasW as real)
    ensures b.w <= canvasW as real ==> Clamp(b, canvasW, canvasH).value.w > b.x + b.w
  {
  }

  /** The class loop's running best after its first `count` steps over the scores
      that start at `from`: a score replaces the best when it is strictly larger;
      entries past the end of the buffer are skipped. */
  function RunningBest(s: seq<real>, from: nat, count: nat): (b: Best)
    ensures -1 <= b.index < count
  {
    if count == 0 then Best(-1, 0.0)
    else
      var earlier := RunningBest(s, from, count - 1);
      if from + count - 1 < |s| && s[from + count - 1] > earlier.score
      then Best(count - 1, s[from + count - 1])
      else earlier
  }

  /** The running best is the best class of the scores it has seen. */
  lemma {:induction false} RunningBestIsBestClass(s: seq<real>, from: nat, count: nat)
    ensures RunningBest(s, from, count) == BestClass(Scores(s, from, count))
  {
    if count > 0 {
      RunningBestIsBestClass(s, from, count - 1);
      if from + count - 1 < |s| {
        BestClassAppend(Scores(s, from, count - 1), s[from + count - 1]);
      }
    }
  }

  /** The running best over a suffix is the running best further along. */
  lemma {:induction false} RunningBestShift(s: seq<real>, start: nat, from: nat, count: nat)
    requires start <= |s|
    ensures RunningBest(s[start..], from, count) == RunningBest(s, start + from, count)
  {
    if count > 0 {
      RunningBestShift(s, start, from, count - 1);
    }
  }

  /** The decoder's verdict on the row that starts `tail`, the rest of the output
      buffer from that row on, in a buffer with `cols` entries per row. */
  function DecodeRow(tail: seq<real>, cols: nat, classCount: nat, threshold: real,
                     box: Meta, canvasW: nat, canvasH: nat): (o: Option<Detection>)
    requires cols <= |tail| && box.r > 0.0
    ensures cols < 6 ==> o == None
    ensures o.Some? ==> Accepted(o.value, classCount, threshold, canvasW, canvasH)
  {
    if cols < 6 then None
    else
      var best := RunningBest(tail, 5, classCount);
      var conf := Confidence(tail[4], best.score);
      if conf < threshold || best.index < 0 then None
      else
        match Clamp(SourceBox(tail[0], tail[1], tail[2], tail[3], box), canvasW, canvasH)
        case None => None
        case Some(c) => Some(Detection(c.x, c.y, c.w, c.h, best.index, conf))
  }

  /** A row without a positive class score emits nothing; an emitted detection
      carries the row's best class and its objectness times that class's score. */
  lemma DecodeRowClass(tail: seq<real>, cols: nat, classCount: nat, threshold: real,
                       box: Meta, canvasW: nat, canvasH: nat)
    requires cols <= |tail| && box.r > 0.0
    ensures var o, best := DecodeRow(tail, cols, classCount, threshold, box, canvasW, canvasH),
                           BestClass(ClassScores(tail, classCount));
            && (best.index == -1 ==> o == None)
            && (o.Some? ==> cols >= 6 && o.value.cls == best.index && o.value.conf == Confidence(tail[4], best.score))
  {
    RunningBestIsBestClass(tail, 5, classCount);
  }

  /** A row that passes the class and confidence tests and whose box, mapped back
      through the letterbox, lies inside the canvas is emitted unclipped: its
      centre maps back to the row's centre in model-input pixels and its size
      scaled by r is the row's size. */
  lemma DecodeRowInside(tail: seq<real>, cols: nat, classCount: nat, threshold: real,
                        box: Meta, canvasW: nat, canvasH: nat)
    requires 6 <= cols <= |tail| && box.r > 0.0
    requires BestClass(ClassScores(tail, classCount)).index >= 0
    requires Confidence(tail[4], BestClass(ClassScores(tail, classCount)).score) >= threshold
    requires
      var b := SourceBox(tail[0], tail[1], tail[2], tail[3], box);
      && 0.0 <= b.x && b.x + b.w <= canvasW as real && 1.0 < b.w
      && 0.0 <= b.y && b.y + b.h <= canvasH as real && 1.0 < b.h
    ensures
      var o := DecodeRow(tail, cols, classCount, threshold, box, canvasW, canvasH);
      && o.Some?
      && ToModel(o.value.x + o.value.w / 2.0, box.dw, box.r) == tail[0]
      && ToModel(o.value.y + o.value.h / 2.0, box.dh, box.r) == tail[1]
      && o.value.w * box.r == tail[2]
      && o.value.h * box.r == tail[3]
  {
    RunningBestIsBestClass(tail, 5, classCount);
    SourceBoxInverts(tail[0], tail[1], tail[2], tail[3], box);
  }

  /** Where row r starts in a buffer with `cols` entries per row. */
  function RowStart(r: nat, cols: nat): nat
  {
    if r == 0 then 0 else RowStart(r - 1, cols) + cols
  }

  /** Row r starts at r times the row length. */
  lemma {:induction false} RowStartProduct(r: nat, cols: nat)
    ensures RowStart(r, cols) == r * cols
  {
    if r > 0 {
      RowStartProduct(r - 1, cols);
      MulSucc(r - 1, cols);
    }
  }

  /** The next row starts `cols` entries later, and the rows before a fitting row fit. */
  lemma {:induction false} RowStartStep(r: nat, rows: nat, cols: nat)
    requires r < rows
    ensures RowStart(r + 1, cols) == RowStart(r, cols) + cols
    ensures RowStart(r + 1, cols) <= RowStart(rows, cols)
  {
    if r + 1 < rows {
      RowStartStep(r, rows - 1, cols);
    }
  }

  /** The detections of the first `rows` rows, in row order. */
  function Decoded(data: seq<real>, rows: nat, cols: nat, classCount: nat, threshold: real,
                   box: Meta, canvasW: nat, canvasH: nat): (dets: seq<Detection>)
    requires RowStart(rows, cols) <= |data| && box.r > 0.0
    ensures |dets| <= rows
    ensures forall d :: d in dets ==> Accepted(d, classCount, threshold, canvasW, canvasH)
    ensures cols < 6 ==> dets == []
  {
    if rows == 0 then []
    else
      RowStartStep(rows - 1, rows, cols);
      Decoded(data, rows - 1, cols, classCount, threshold, box, canvasW, canvasH)
        + Emitted(DecodeRow(data[RowStart(rows - 1, cols)..], cols, classCount, threshold, box, canvasW, canvasH))
  }

  /** The detections of a row, as a sequence of zero or one. */
  function Emitted(o: Option<Detection>): seq<Detection>
  {
    match o
    case Some(d) => [d]
    case None => []
  }

  /** The class loop of one row: the running best over the K scores from `from` on. */
  method ScanClasses(data: seq<real>, from: nat, classCount: nat) returns (bestIndex: int, bestScore: real)
    ensures Best(bestIndex, bestScore) == RunningBest(data, from, classCount)
  {
    bestIndex, bestScore := -1, 0.0;
    for c := 0 to classCount
      invariant Best(bestIndex, bestScore) == RunningBest(data, from, c)
    {
      if from + c < |data| {
        var score := data[from + c];
        if score > bestScore {
          bestScore := score;
          bestIndex := c;
        }
      }
    }
  }

  /** The body of the decoding loop for the row starting at `base`: each `continue`
      of the loop is a return of None here. */
  method DecodeRowAt(data: seq<real>, base: nat, cols: nat, classCount: nat, threshold: real,
                     box: Meta, canvasW: nat, canvasH: nat) returns (o: Option<Detection>)
    requires base + cols <= |data| && box.r > 0.0
    ensures o == DecodeRow(data[base..], cols, classCount, threshold, box, canvasW, canvasH)
  {
    ghost var tail := data[base..];
    if cols < 6 {
      return None;
    }
    var rowX, rowY, rowW, rowH, obj := data[base], data[base + 1], data[base + 2], data[base + 3], data[base + 4];
    var bestIndex, bestScore := ScanClasses(data, base + 5, classCount);
    RunningBestShift(data, base, 5, classCount);
    var conf := Confidence(obj, bestScore);
    if conf < threshold {
      return None;
    }
    if bestIndex < 0 {
      return None;
    }
    var b := SourceBox(rowX, rowY, rowW, rowH, box);
    assert b == SourceBox(tail[0], tail[1], tail[2], tail[3], box);
    var x := Max(0.0, b.x);
    var y := Max(0.0, b.y);
    if x >= canvasW as real || y >= canvasH as real {
      return None;
    }
    var clampedW := Min(b.w, canvasW as real - x);
    var clampedH := Min(b.h, canvasH as real - y);
    if clampedW <= 1.0 || clampedH <= 1.0 {
      return None;
    }
    o := Some(Detection(x, y, clampedW, clampedH, bestIndex, conf));
  }

  /** The decoding loop over the rows: the detections of all rows, in row order. */
  method DecodeRows(data: seq<real>, rows: nat, cols: nat, classCount: nat, threshold: real,
                    box: Meta, canvasW: nat, canvasH: nat) returns (detections: seq<Detection>)
    requires RowStart(rows, cols) <= |data| && box.r > 0.0
    ensures detections == Decoded(data, rows, cols, classCount, threshold, box, canvasW, canvasH)
  {
    detections := [];
    for r := 0 to rows
      invariant RowStart(r, cols) <= RowStart(rows, cols)
      invariant detections == Decoded(data, r, cols, classCount, threshold, box, canvasW, canvasH)
    {
      RowStartStep(r, rows, cols);
      RowStartProduct(r, cols);
      var base := r * cols;
      var o := DecodeRowAt(data, base, cols, classCount, threshold, box, canvasW, canvasH);
      assert base == RowStart(r, cols);
      assert Decoded(data, r + 1, cols, classCount, threshold, box, canvasW, canvasH)
          == Decoded(data, r, cols, classCount, threshold, box, canvasW, canvasH) + Emitted(o);
      if o.Some? {
        detections := detections + [o.value];
      }
    }
  }

  /** The detections one frame yields: the output laid out row-major by the
      detector's layout step as written, decoded row by row, then non-maximum
      suppression at IoU 0.45. */
  function FrameResult(data: seq<real>, dims: seq<nat>, classCount: nat, threshold: real,
                       box: Meta, canvasW: nat, canvasH: nat): seq<Detection>
    requires Shaped(data, dims) && box.r > 0.0
  {
    var l := DetectorLayoutAsWritten(data, dims, classCount);
    RowStartProduct(l.rows, l.cols);
    NmsResult(Decoded(l.data, l.rows, l.cols, classCount, threshold, box, canvasW, canvasH), DefaultIouThreshold)
  }

  /** The same frame with the corrected orientation test of the layout step. */
  function FrameResultCorrected(data: seq<real>, dims: seq<nat>, classCount: nat, threshold: real,
                                box: Meta, canvasW: nat, canvasH: nat): seq<Detection>
    requires Shaped(data, dims) && box.r > 0.0
  {
    var l := DetectorLayout(data, dims, classCount);
    RowStartProduct(l.rows, l.cols);
    NmsResult(Decoded(l.data, l.rows, l.cols, classCount, threshold, box, canvasW, canvasH), DefaultIouThreshold)
  }

  /** Decoding and suppression of a laid-out buffer: at most one detection per row,
      each accepted, inside the canvas, in descending confidence, none overlapping
      another by more than the suppression threshold. */
  method DecodeAndSuppress(out: seq<real>, rows: nat, cols: nat, classCount: nat, threshold: real,
                           box: Meta, canvasW: nat, canvasH: nat) returns (keep: seq<Detection>)
    requires rows * cols <= |out| && box.r > 0.0
    ensures RowStart(rows, cols) <= |out|
    ensures keep == NmsResult(Decoded(out, rows, cols, classCount, threshold, box, canvasW, canvasH), DefaultIouThreshold)
    ensures |keep| <= rows
    ensures NonIncreasing(keep)
    ensures forall d :: d in keep ==> Accepted(d, classCount, threshold, canvasW, canvasH)
    ensures forall p, q :: 0 <= p < |keep| && 0 <= q < |keep| && p != q ==> Iou(keep[p], keep[q]) <= DefaultIouThreshold
  {
    RowStartProduct(rows, cols);
    var detections := DecodeRows(out, rows, cols, classCount, threshold, box, canvasW, canvasH);
    var dets := new Detection[|detections|](i requires 0 <= i < |detections| => detections[i]);
    assert dets[..] == detections;
    keep := Nms(dets, DefaultIouThreshold);
    NmsResultProperties(detections, DefaultIouThreshold);
  }

  /** Post-processing of one inference as the detector does it: the layout step as
      written, then decoding and suppression. */
  method ProcessOutput(data: seq<real>, dims: seq<nat>, classCount: nat, threshold: real,
                       box: Meta, canvasW: nat, canvasH: nat) returns (keep: seq<Detection>)
    requires Shaped(data, dims) && box.r > 0.0
    ensures keep == FrameResult(data, dims, classCount, threshold, box, canvasW, canvasH)
    ensures |keep| <= DetectorLayoutAsWritten(data, dims, classCount).rows
    ensures NonIncreasing(keep)
    ensures forall d :: d in keep ==> Accepted(d, classCount, threshold, canvasW, canvasH)
    ensures forall p, q :: 0 <= p < |keep| && 0 <= q < |keep| && p != q ==> Iou(keep[p], keep[q]) <= DefaultIouThreshold
  {
    var rows, cols, out := NormalizeLayoutAsWritten(data, dims, classCount);
    keep := DecodeAndSuppress(out, rows, cols, classCount, threshold, box, canvasW, canvasH);
  }

  /** The same post-processing with the corrected layout step. */
  method ProcessOutputCorrected(data: seq<real>, dims: seq<nat>, classCount: nat, threshold: real,
                                box: Meta, canvasW: nat, canvasH: nat) returns (keep: seq<Detection>)
    requires Shaped(data, dims) && box.r > 0.0
    ensures keep == FrameResultCorrected(data, dims, classCount, threshold, box, canvasW, canvasH)
    ensures |keep| <= DetectorLayout(data, dims, classCount).rows
    ensures NonIncreasing(keep)
    ensures forall d :: d in keep ==> Accepted(d, classCount, threshold, canvasW, canvasH)
    ensures forall p, q :: 0 <= p < |keep| && 0 <= q < |keep| && p != q ==> Iou(keep[p], keep[q]) <= DefaultIouThreshold
  {
    var rows, cols, out := NormalizeLayout(data, dims, classCount);
    keep := DecodeAndSuppress(out, rows, cols, classCount, threshold, box, canvasW, canvasH);
  }
}
