# YOLO pre- and post-processing, modelled in Dafny

This project models the image pre-processing and the output post-processing of two YOLO object-detection
clients in one repository:

- the browser detector `components/DetectorONNX.tsx`, which letterboxes camera frames and packs them into
  a planar float tensor, runs the ONNX model, reads the output tensor in one of its layouts, decodes
  every row into a detection on the display canvas, and keeps the detections that greedy non-maximum
  suppression (NMS) lets through; plus its two small pieces of state, the class-colour cache and the
  frame-stride gate;
- the Node script `tmp/test.js`, which letterboxes an image onto a square RGB canvas, converts it to
  floats, reads the output in its own layout convention (K + 4 entries per row, no objectness), and counts
  the rows whose best sigmoid class score reaches 0.4, per class.

Coordinates, scores and pixel values are `real`; bytes are `Numeric.Byte` (0 .. 255). Each loop of the
source is a method with a `for` loop. The method is either proved equal to a recursive function, with
the properties the program relies on proved as lemmas about that function, or its contract gives the full
contents of what it writes. The state the detector keeps
between calls lives in classes: the colour map and the frame counter.

Modules, one per file:

| file | module | what it models |
|---|---|---|
| numeric.dfy | Numeric | `Math.min`/`max`/`round`, byte `/ 255`, row-major cells and transposition |
| letterbox.dfy | Letterbox | `letterbox` and its inverse mapping |
| boxes.dfy | Boxes | `Detection`, `iou` |
| suppression.dfy | Suppression | `nms`: stable in-place sort and greedy walk |
| packing.dfy | Packing | the RGBA-to-planar packing loop |
| layout.dfy | OutputLayout | the detector's reading of the output shape and its transposition |
| decoder.dfy | Decoder | the detector's row decoder and the whole post-processing of a frame |
| presentation.dfy | Presentation | `colorFor` and the frame-stride gate |
| script_preprocess.dfy | ScriptPreprocess | the script's `preprocess` |
| script_decode.dfy | ScriptDecode | the script's layout detection and counting loop |

## Model

| member | source | states |
|---|---|---|
| Letterbox.Letterbox | components/DetectorONNX.tsx:48-60 | r is the smaller of nw/w and nh/h; ow and oh are w * r and h * r rounded to the nearest integer, fit the target and fill it along one side; the padding is nonnegative and splits the slack evenly between both sides |
| Letterbox.ScaledSideFits | components/DetectorONNX.tsx:52-54 | a side scaled by a factor at most n/len rounds to at most n, and to exactly n for the factor n/len |
| Letterbox.FromModel | components/DetectorONNX.tsx:382-383 | un-letterboxing a coordinate is the inverse of the forward map `v * r + pad` |
| Letterbox.FromModelInvertsToModel | components/DetectorONNX.tsx:382-383 | un-letterboxing gives back a source coordinate that the letterbox placed |
| Boxes.Overlap | components/DetectorONNX.tsx:74-79 | the overlap length of two intervals is nonnegative, at most either length when positive, and 0 for separated intervals |
| Boxes.IntersectionWithinBoth | components/DetectorONNX.tsx:74-80 | the intersection area is nonnegative and, when positive, no larger than either box's area |
| Boxes.Iou | components/DetectorONNX.tsx:64-86 | iou lies in [0, 1] and is 0 exactly when the intersection is 0 |
| Boxes.IouSymmetric | components/DetectorONNX.tsx:64-86 | iou(a, b) == iou(b, a) |
| Boxes.IouSelf | components/DetectorONNX.tsx:64-86 | a box of positive area has iou 1 with itself |
| Boxes.IouDisjoint | components/DetectorONNX.tsx:78-81 | boxes separated along either axis, or a box without area, give iou 0 |
| Suppression.SortByConf | components/DetectorONNX.tsx:90 | the sorted order is a permutation of the input and non-increasing in confidence |
| Suppression.InsertMultiset | components/DetectorONNX.tsx:90 | an insertion step of the sort adds exactly the inserted detection |
| Suppression.InsertNonIncreasing | components/DetectorONNX.tsx:90 | an insertion step keeps the order non-increasing |
| Suppression.SortStable | components/DetectorONNX.tsx:90 | the sort is stable: detections of equal confidence keep their relative order |
| Suppression.SortByConfFixpoint | components/DetectorONNX.tsx:90 | a sequence already in descending order is left unchanged |
| Suppression.InsertAt | components/DetectorONNX.tsx:90 | one pass of the in-place insertion sort places a[i] among the sorted a[..i] and leaves the rest alone |
| Suppression.SortInPlace | components/DetectorONNX.tsx:90 | the array's new contents are the stable descending sort of its old contents |
| Suppression.SuppressesAppend | components/DetectorONNX.tsx:96-100 | keeping one more detection suppresses exactly what it overlaps beyond the threshold, plus what was suppressed before |
| Suppression.GreedySubsequence | components/DetectorONNX.tsx:92-102 | the walk keeps a subsequence of its input |
| Suppression.SubsequenceMembers | components/DetectorONNX.tsx:92-102 | a subsequence is no longer than the sequence and has only its members |
| Suppression.SubsequenceNonIncreasing | components/DetectorONNX.tsx:92-102 | a subsequence of a descending sequence is descending |
| Suppression.GreedyPrefix | components/DetectorONNX.tsx:92-102 | what the walk keeps of a prefix is a prefix of what it keeps of the whole |
| Suppression.GreedyKeepsFirst | components/DetectorONNX.tsx:92-95 | the first, most confident detection is always kept |
| Suppression.GreedyNoOverlap | components/DetectorONNX.tsx:92-101 | no two kept detections have iou above the threshold, whatever their classes |
| Suppression.GreedyDropsOnlySuppressed | components/DetectorONNX.tsx:92-101 | every dropped detection has iou above the threshold with a detection kept before it |
| Suppression.GreedyFixpoint | components/DetectorONNX.tsx:92-101 | a walk over pairwise non-overlapping detections keeps all of them |
| Suppression.NmsResultProperties | components/DetectorONNX.tsx:88-104 | the result is no longer than the input, is made of input detections, is in descending confidence, is empty exactly when the input is, starts with a most confident detection, and has no pair overlapping above the threshold |
| Suppression.NmsIdempotent | components/DetectorONNX.tsx:88-104 | running nms on its own output changes nothing |
| Suppression.MarkSuppressed | components/DetectorONNX.tsx:96-101 | the inner loop marks exactly the later detections that a overlaps above the threshold, and leaves other marks alone |
| Suppression.Nms | components/DetectorONNX.tsx:88-104 | the array is sorted in place, and the returned detections are those of the greedy walk over the sorted order |
| Packing.PackPlanar | components/DetectorONNX.tsx:305-313 | red, green and blue of pixel i go to buf[i], buf[i + size] and buf[i + 2 size], each byte over 255; alpha is dropped; every value lies in [0, 1] |
| OutputLayout.DetectorLayoutAsWritten | components/DetectorONNX.tsx:328-353 | the layout as written; the buffer keeps its length and the rows fit it |
| OutputLayout.DetectorLayout | components/DetectorONNX.tsx:328-353 | the layout with the corrected orientation test; a rank-3 output gives at least as many rows as columns |
| OutputLayout.TransposeAttributeMajor | components/DetectorONNX.tsx:336-341 | cell (r, c) of the result is cell (c, r) of the attribute-major input; the result is the transpose |
| OutputLayout.NormalizeLayoutAsWritten | components/DetectorONNX.tsx:328-353 | the layout step as written yields DetectorLayoutAsWritten |
| OutputLayout.NormalizeLayout | components/DetectorONNX.tsx:328-353 | the corrected layout step yields DetectorLayout |
| OutputLayout.DetectorLayoutOrientation | components/DetectorONNX.tsx:332-346 | with the corrected test, both exports of a head ([1, N, A] and [1, A, N]) decode to the same N rows of A attributes |
| OutputLayout.DetectorLayoutAsWrittenSwapsRows | components/DetectorONNX.tsx:332-346 | the test as written reads both exports of such a head as A rows of N entries |
| OutputLayout.DetectorLayoutAsWrittenCounterexample | components/DetectorONNX.tsx:333 | a [1, 20, 12] candidate-major output is read as 12 rows as written and as 20 rows when corrected |
| Numeric.Unit | components/DetectorONNX.tsx:310-312 | a byte over 255 lies in [0, 1], is 0 only for 0 and 1 only for 255 |
| Numeric.TransposedCell | components/DetectorONNX.tsx:339 | cell (r, c) of the transpose is cell (c, r) of the original |
| Numeric.TransposeInvolution | components/DetectorONNX.tsx:336-342 | transposing twice gives back the buffer |
| Numeric.CellExtensionality | components/DetectorONNX.tsx:336-342 | two buffers of one shape that agree on every cell are equal |
| Numeric.FlatSplit | components/DetectorONNX.tsx:339 | every offset of a rows-by-cols buffer is the offset of some cell |
| Numeric.FlatDistinct | components/DetectorONNX.tsx:339 | distinct cells have distinct flat offsets |
| Decoder.BestClass | components/DetectorONNX.tsx:369-377 | the index of the class loop's running best is -1 or a class index |
| Decoder.BestClassIsFirstMaximum | components/DetectorONNX.tsx:369-377 | the best class is -1 with score 0 exactly when no score is positive; otherwise it is the first index of the largest score, and that score is positive |
| Decoder.RunningBestIsBestClass | components/DetectorONNX.tsx:371-377 | the class loop over the buffer computes the best class of the row's scores |
| Decoder.SourceBoxInverts | components/DetectorONNX.tsx:382-385 | the un-letterboxed box maps forward to the row's centre, and its size times r is the row's size |
| Decoder.Clamp | components/DetectorONNX.tsx:386-391 | a clamped box lies on the canvas and is more than one pixel wide and tall; a box already inside is kept unchanged |
| Decoder.ClampLeftEdge | components/DetectorONNX.tsx:386-389 | a box sticking out on the left is moved to x = 0 with its width cut only at the right edge |
| Decoder.DecodeRow | components/DetectorONNX.tsx:361-393 | a row with fewer than 6 entries emits nothing; an emitted detection has a class index, conf >= threshold, and lies on the canvas more than 1 pixel wide and tall |
| Decoder.DecodeRowClass | components/DetectorONNX.tsx:369-380 | a row without a positive score emits nothing; an emitted detection has the row's best class and conf = obj * best score |
| Decoder.DecodeRowInside | components/DetectorONNX.tsx:378-392 | a passing row whose box lies inside the canvas is emitted unclipped, and maps back to the row's own box |
| Decoder.ScanClasses | components/DetectorONNX.tsx:369-377 | the class loop leaves the running best over the row's K scores |
| Decoder.DecodeRowAt | components/DetectorONNX.tsx:362-392 | the loop body for the row at base yields DecodeRow on the buffer from base on |
| Decoder.Decoded | components/DetectorONNX.tsx:361-393 | the decoded detections are at most one per row, each accepted, and none when rows have fewer than 6 entries |
| Decoder.DecodeRows | components/DetectorONNX.tsx:355-393 | the decoding loop pushes the detections of all rows, in row order |
| Decoder.RowStartProduct | components/DetectorONNX.tsx:362 | row r starts at r * cols |
| Decoder.DecodeAndSuppress | components/DetectorONNX.tsx:355-395 | decoding a laid-out buffer then nms at 0.45 gives at most one detection per row, each accepted and on the canvas, in descending confidence, no pair overlapping above 0.45 |
| Decoder.ProcessOutput | components/DetectorONNX.tsx:328-395 | one frame as the detector does it, with the layout step as written: the result of FrameResult, at most one detection per row of that layout, each accepted and on the canvas, in descending confidence, no pair overlapping above 0.45 |
| Decoder.ProcessOutputCorrected | components/DetectorONNX.tsx:328-395 | the same frame with the corrected orientation test, with the same guarantees over the rows of the corrected layout |
| Presentation.ColorCache.ColorFor | components/DetectorONNX.tsx:31-38 | a class already seen keeps its colour and the map is unchanged; a new class gets palette entry n mod 7, n the number of classes seen, and is added; no colour already handed out ever changes |
| Presentation.ColorForIsStable | components/DetectorONNX.tsx:31-38 | asking twice for a class with another request in between gives the same colour, the palette entry of its first-seen rank |
| Presentation.FrameGate.Tick | components/DetectorONNX.tsx:294-299 | the counter goes up by one and the frame is processed exactly when the counter is a multiple of max(1, stride) |
| Presentation.EffectiveStride | components/DetectorONNX.tsx:295 | the stride used is at least 1 and at least the setting, and is the setting when that is positive |
| Presentation.ProcessedCount | components/DetectorONNX.tsx:294-299 | of the frames numbered 1 .. n, floor(n / s) pass the test `counter % s == 0` |
| Presentation.RunFrames | components/DetectorONNX.tsx:286-299 | after a reset, n ticks of the gate at a fixed stride setting process floor(n / max(1, stride)) frames |
| ScriptPreprocess.Place | tmp/test.js:18-22 | newW and newH are width * ratio and height * ratio rounded to the nearest integer; the resized image fits the canvas at the floored offsets, fills one side, and sits at most half a pixel off the centred position |
| ScriptPreprocess.PixelIndexDistinct | tmp/test.js:34 | different canvas pixels or channels have different byte offsets |
| ScriptPreprocess.WritePixel | tmp/test.js:35-37 | the three bytes of one canvas pixel are written and no other pixel changes |
| ScriptPreprocess.PlaceOnCanvas | tmp/test.js:28-39 | every canvas byte is the resized image's byte inside the placed rectangle (blue falling back to channel 0 for at most two channels) and 0 outside |
| ScriptPreprocess.ToFloatInterleaved | tmp/test.js:40-46 | the conversion as written: input[k] is canvas byte k over 255 for every k |
| ScriptPreprocess.InterleavedIsNotPlanar | tmp/test.js:40-46 | a 2-by-2 canvas on which the conversion as written puts the wrong value in a planar slot |
| ScriptPreprocess.ToFloatPlanar | tmp/test.js:40-46 | the corrected conversion puts channel ch of each pixel in plane ch, as a value in [0, 1] |
| ScriptPreprocess.Preprocess | tmp/test.js:14-48 | as written: returns the placement's ratio and offsets, and an input holding each placed canvas byte over 255 (0 in the padding) at its interleaved canvas offset ((y * size + x) * 3 + ch) |
| ScriptPreprocess.PreprocessPlanar | tmp/test.js:14-48 | with the corrected conversion: the same values at their planar offsets (ch * size * size + y * size + x) |
| ScriptDecode.ScriptLayout | tmp/test.js:65-90 | a rank-3 output gets K + 4 columns or is used as is; other ranks than 2 and 3 give no rows; the buffer keeps its length and the rows fit it |
| ScriptDecode.ScriptLayoutOrientation | tmp/test.js:68-82 | both exports of a head of N candidates, N not K + 4, read as the same N rows in candidate-major order |
| ScriptDecode.TransposeBoxMajor | tmp/test.js:76-82 | the box-by-box transposition loop yields the transpose |
| ScriptDecode.DetectLayout | tmp/test.js:65-90 | the layout block yields ScriptLayout |
| ScriptDecode.RunningSigmoidBestIsBestClass | tmp/test.js:97-106 | the class loop computes the best class of the row's sigmoid scores |
| ScriptDecode.RowVote | tmp/test.js:97-107 | a row votes for a class index or for nothing (-1) |
| ScriptDecode.RowVoteMeaning | tmp/test.js:97-107 | a row is counted exactly when a sigmoid score reaches 0.4, and then for the first index of its largest score |
| ScriptDecode.ScanSigmoidScores | tmp/test.js:97-106 | the class loop leaves the running best of the sigmoid scores |
| ScriptDecode.RowVoteOf | tmp/test.js:95-107 | the loop body for row r yields that row's vote |
| ScriptDecode.KeptIsSumOfCounts | tmp/test.js:92-110 | every kept row is counted for exactly one class, so kept is the sum of the counts |
| ScriptDecode.CountDetections | tmp/test.js:92-110 | counts[i] is the number of rows voting for class i, kept the number of rows voting at all, kept == sum(counts) <= rows |

## Left out

- React state, the start/stop lifecycle, the JSX markup and canvas drawing (labels, `drawImage`, `fillRect`): user interface, not computation.
- Camera, file and model I/O (`getUserMedia`, `fetch`, `sharp` decoding and resizing, `onnxruntime` sessions): the pixel buffers and the output `(data, dims)` are parameters.
- The FPS counter and `performance.now`: timing.
- IEEE floating point (NaN, infinities, rounding in `/ 255` and in the scale factor): values are `real`.
- `Math.exp` in `sigmoid`: the sigmoid is a function parameter, so nothing depends on its shape.
- The unused `clsScores` array of the script's counting loop: nothing reads it.
- OutputLayout.DetectorLayoutAsWritten: the fallback row count `data.length / (K + 5)` is taken as integer division; in JavaScript it may be fractional, and the loop then also decodes a final partial row.
- ScriptDecode.ScriptLayout: the same for `data.length / (K + 4)`.
- Decoder.DecodeRow: reads of a row's box and objectness past the end of the buffer (undefined in JavaScript) are ruled out by requiring the rows to fit the buffer. A class score read past the end never wins, and is skipped.
- ScriptDecode.CountDetections: the `counts` array is a sequence local reassigned one entry at a time, not an array updated in place.
- The packing loop writing each input position exactly once is not stated; the contract states that every position ends up with its value.

## Findings

| source | as written | input that shows it | evidently intended | confidence | as-written member | corrected member |
|---|---|---|---|---|---|---|
| components/DetectorONNX.tsx:333 | `shape[1] > shape[2]` treats an output with more candidates than attributes as attribute-major and transposes it, and leaves an attribute-major one as it is | a candidate-major `[1, 20, 12]` output (20 candidates, 5 + 7 attributes) is read as 12 rows of 20 | transpose when `shape[1] < shape[2]`, so that both exports read as 20 rows of 12 | not executed | OutputLayout.DetectorLayoutAsWrittenCounterexample | OutputLayout.DetectorLayout |
| tmp/test.js:40-46 | `input[i + plane] = canvas[i + plane] / 255` copies the interleaved RGB canvas element by element, so the `[1, 3, size, size]` tensor is not planar | a 2-by-2 canvas whose only lit byte is the green of pixel (0, 0): planar slot 4 (green of pixel (0, 0)) gets 0 instead of 1 | channel ch of pixel i goes to `input[i + ch * plane]`, as in the detector's packing loop | not executed | ScriptPreprocess.InterleavedIsNotPlanar | ScriptPreprocess.PreprocessPlanar |
