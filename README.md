# Detection decoding, modelled in Dafny

Two scripts run an SSD-style TFLite detector on camera frames and draw the results.
`detection_pi.py` uses an embedded camera and `detection_pc.py` uses a webcam. After
inference, both run the same step: they decode the detector's four parallel outputs
(`boxes`, `labels`, `scores`, `nums`) into boxes and labels drawn on the frame.

For each index below `int(nums[0])`, in order, that step keeps an entry only if its
score is strictly above 0.5. It then maps the class id to a name from the label table,
falling back to `"unknown"` when the id is out of range. It reads the normalised box in
`[ymin, xmin, ymax, xmax]` order and scales x by the frame's width and y by its height,
truncating each product to an integer pixel. The label text goes ten rows above the box:

- the embedded-camera script does not clamp it;
- the webcam script clamps it to row 15.

This project models that step and the shapes of frame preparation.

- `truncation.dfy` (`Truncation`): Python's `int()` on a float, as truncation toward zero.
- `label_table.dfy` (`LabelTable`): the bounded label lookup with its `"unknown"` sentinel.
- `preprocess.dfy` (`Preprocess`): frame preparation, at the level of array dimensions only.
- `decoder.dfy` (`Decoder`): the pure specification `Decode`, parameterised by the anchor rule. It comes with a reference definition, `KeptIndices` (the passing indices in increasing order), and the lemmas that tie `Decode` to it.
- `detection_pi.py` and `detection_pc.py` (modules `DetectionPi`, `DetectionPc` in `detection_pi.dfy`, `detection_pc.dfy`): each script's drawing loop, as a `while` loop that appends the drawn detection to a sequence. Each loop is proved equal to `Decode` with that script's anchor rule. The embedded-camera loop also computes the `found_something` flag.

Modelling choices:
- Scores, class ids, `nums[0]` and normalised coordinates are `real`, an abstraction of the float32 values.
- The class ids and the count are truncated with `Trunc`, as `int(labels[0][i])` and `int(nums[0])` do.
- A negative count visits no index, as `range` does.
- The detector output arrays stand for the batch-0 slices.
- The shape rules of `cv2.cvtColor`, `cv2.resize`, NumPy's `reshape` and the detector's `set_tensor` follow those libraries' behaviour on the shapes these scripts can pass them, with the limits listed under "## Left out". `Preprocess` states them as definitions; the libraries' code is not part of this model.
- A `Detection` records the arguments of one `rectangle`/`putText` pair: the name, the score, the pixel box and the text anchor.

Points where the behaviour is easy to misread, with the lemmas that state them:
- The pixel box is truncated toward zero with `int()`, not floored. The two
  differ for negative products: `int(-0.5)` is 0 while the floor is -1.
  This is stated by `Truncation.TruncIsFloorIff` and
  `Truncation.TruncDiffersFromFloorBelowZero`.
- Only the webcam script clamps the label anchor to row 15, at
  `detection_pc.py:61`. The embedded-camera script writes `y0 - 10` unclamped
  at `detection_pi.py:73`, so the anchor goes negative for a box near the top
  (`Decoder.UnclampedAnchor`).
- Truncation keeps `x0 <= x1` whenever `xmin <= xmax`, and a box with
  distinct normalised sides can still collapse to `x0 == x1`. This is stated by
  `Decoder.DenormaliseProperties` and `Decoder.BoxCanCollapse`.
- Neither script checks `int(nums[0])` against the array lengths
  (`detection_pi.py:60`, `detection_pc.py:42`). The model makes this an explicit
  precondition, `Decoder.CountFits`, rather than clamping the count.

## Model

| member | source | states |
|---|---|---|
| Truncation.Trunc | detection_pi.py:68-69 | definition of `int()` on a float: the floor for a non-negative value, minus the floor of the negation otherwise |
| LabelTable.InRange | detection_pi.py:63 | definition of the guard `0 <= class_id < len(LABELMAP)` |
| Decoder.Count | detection_pi.py:60 | definition of `int(nums[0])` |
| Decoder.Examined | detection_pc.py:42 | definition of how many indices `range(int(nums[0]))` visits: the count, or none when it is negative |
| Decoder.CountFits | detection_pi.py:60 | definition of the caller's obligation that the count does not exceed any of the three arrays' lengths |
| Decoder.Passes | detection_pi.py:61 | definition of the strict `score > 0.5` test |
| Decoder.Scale | detection_pc.py:45-48 | definition of `int(v * side)` for one coordinate |
| Decoder.Denormalise | detection_pi.py:66-69 | definition of the pixel box: x from `xmin`, `xmax` scaled by the width, y from `ymin`, `ymax` scaled by the height |
| Decoder.TextAnchor | detection_pc.py:61 | definition of the `putText` origin: `(x0, y0 - 10)` unclamped, `(x0, max(15, y0 - 10))` clamped |
| Decoder.DecodeEntry | detection_pi.py:62-73 | definition of the detection drawn for one passing entry: looked-up name, score, pixel box and anchor |
| Decoder.DecodePrefix | detection_pi.py:60-77 | definition of the detections drawn while visiting the first `n` indices, appended in index order |
| Decoder.Decode | detection_pc.py:42-62 | the specification both drawing loops are proved equal to: `DecodePrefix` over all visited indices |
| Decoder.KeptIndices | detection_pi.py:60-61 | reference definition: the visited indices whose score passes, in increasing order |
| Preprocess.Dims | detection_pi.py:67 | definition of `frame.shape`: height, width, channels |
| Preprocess.CvtColor | detection_pi.py:55 | definition of colour conversion on shapes: a non-empty 3- or 4-channel source gives a 3-channel frame of the same size; anything else raises |
| Preprocess.Resize | detection_pc.py:30 | definition of `cv2.resize` with size `(w, h)` on shapes: `h` rows, `w` columns and the source's channels, or a 2-D `h x w` array for one channel; a source that is empty or has no channels, or an empty size, raises |
| Preprocess.Reshape | detection_pc.py:31 | definition of `reshape`: the target shape when the element counts agree, otherwise an error |
| Preprocess.PcPrepare | detection_pc.py:29-31 | definition of the webcam preparation: conversion, resize to 300x300, reshape to `1x300x300x3` |
| Preprocess.PiPrepare | detection_pi.py:41-42 | definition of the embedded-camera preparation: resize to 300x300, then the batch axis |
| Preprocess.AcceptsInput | detection_pi.py:45 | definition of what `set_tensor` accepts: only the declared `1x300x300x3` shape |
| Truncation.TruncBounds | detection_pi.py:68-69 | `int()` of a non-negative value is the largest integer not above it; of a negative value, the smallest integer not below it |
| Truncation.TruncTowardZero | detection_pc.py:45-48 | truncation never increases the magnitude, keeps the sign, and loses strictly less than one unit |
| Truncation.TruncIsFloorIff | detection_pc.py:45-48 | `int()` equals the floor exactly when the value is non-negative or integral |
| Truncation.TruncDiffersFromFloorBelowZero | detection_pi.py:68-69 | `int(-0.5)` is 0 while the floor is -1 |
| Truncation.TruncMonotone | detection_pi.py:68-69 | `int()` preserves the order of its arguments |
| LabelTable.LabelFor | detection_pi.py:62-63 | the name is the table entry for an id in `0 .. len-1` and `"unknown"` otherwise; it is always a table entry or the sentinel, so the lookup never goes out of range |
| LabelTable.UnknownIffOutOfRange | detection_pc.py:50-56 | for a table with no entry `"unknown"`, the name is `"unknown"` iff the id is negative or at least the table length |
| LabelTable.TwoEntryTableExample | detection_pc.py:53-56 | with `["person","car"]`, ids 0 and 1 name their entries; ids 2, 99 and -1 give `"unknown"` |
| Preprocess.ExpandDims0 | detection_pi.py:42 | adding the batch axis prepends a 1 and keeps the element count |
| Preprocess.ResizeElementCount | detection_pc.py:30 | resizing a non-empty source that has channels succeeds, and gives `h * w` pixels of the source's channel count, whatever the source's size |
| Preprocess.PcPrepareShape | detection_pc.py:29-31 | every non-empty 3- or 4-channel frame is prepared into a `1x300x300x3` input |
| Preprocess.PcPrepareFailsIff | detection_pc.py:29-31 | the webcam preparation raises exactly on an empty frame or one with other than 3 or 4 channels |
| Preprocess.PiPrepareShape | detection_pi.py:41-42 | the embedded-camera preparation raises exactly on an empty frame or one without channels. Otherwise it gives `1x300x300xc`, or `1x300x300` for one channel, and the detector accepts it exactly when `c == 3` |
| Preprocess.DisplayKeepsSize | detection_pi.py:55-67 | the converted copy of a non-empty 3- or 4-channel frame has its height and width and three channels, and a 3-channel frame's copy has exactly its dimensions |
| Decoder.KeptIndicesExact | detection_pi.py:60-61 | an index is kept iff it is below the count and its score is strictly above 0.5; kept indices are strictly increasing |
| Decoder.DecodePrefixIsKeptEntries | detection_pi.py:60-77 | after visiting `n` indices, the drawn list is the entry decoding of exactly the kept indices below `n`, in order |
| Decoder.DecodeIsKeptEntries | detection_pc.py:42-62 | `Decode` lists the decoded entries of exactly the visited indices whose score is above 0.5, in the detector's index order, with nothing re-sorted, merged or dropped |
| Decoder.DecodePrefixNonEmptyIff | detection_pi.py:57-77 | something is drawn among the first `n` indices iff one of them passes the threshold |
| Decoder.DecodeNonEmptyIff | detection_pi.py:57-77 | `Decode` is non-empty iff some visited entry scores above 0.5 |
| Decoder.DecodeEmptyWithoutCount | detection_pi.py:60 | a count of 0 or less draws nothing, whatever the arrays hold |
| Decoder.DecodePrefixDependsOnlyOnPrefix | detection_pi.py:60 | the first `n` steps depend only on the first `n` entries of each array |
| Decoder.EntriesBeyondCountIgnored | detection_pc.py:42 | entries at or beyond `int(nums[0])`, and the arrays' lengths, never affect the result, for any two outputs with the same `int(nums[0])` |
| Decoder.VariantsDifferOnlyInAnchor | detection_pc.py:61 | both scripts draw the same detections in the same order, with equal names, scores and boxes; the clamped anchor is the unclamped one raised to at least 15 |
| Decoder.ScaleProperties | detection_pc.py:45-48 | a scaled coordinate is within one pixel of the exact product, is its floor for non-negative inputs, and stays in `0 .. side` for inputs in [0, 1] |
| Decoder.ScaleMonotone | detection_pi.py:68-69 | scaling preserves the order of two coordinates |
| Decoder.DenormaliseProperties | detection_pi.py:66-69 | the box is read in `[ymin, xmin, ymax, xmax]` order, x is scaled by the width and y by the height, each corner is within one pixel of the product, and the corners keep the normalised order |
| Decoder.BoxCanCollapse | detection_pi.py:68-69 | `xmin = 0.1` and `xmax = 0.1005` on a 640-wide frame both truncate to pixel 64 |
| Decoder.ClampedAnchor | detection_pc.py:61 | the clamped anchor's y is at least 15, and equals `y0 - 10` iff `y0 >= 25` |
| Decoder.UnclampedAnchor | detection_pi.py:73 | the unclamped anchor is `(x0, y0 - 10)`, negative iff `y0 < 10` |
| Decoder.ScenarioPerson | detection_pc.py:42-62 | a 640x480 frame with box `[0.1,0.2,0.5,0.6]`, class 0 and score 0.91 decodes to `person` at `(128,48,384,240)`, anchor `(128,38)` |
| Decoder.ScenarioBelowThreshold | detection_pc.py:43 | the same entry with score 0.4, or exactly 0.5, draws nothing |
| Decoder.ScenarioUnknownClass | detection_pc.py:50-56 | class id 99 with a two-entry table is drawn as `"unknown"` |
| DetectionPi.DrawEntry | detection_pi.py:62-73 | one passing entry's label, box and unclamped anchor, equal to the specification's entry decoding |
| DetectionPi.DrawDetections | detection_pi.py:57-77 | the loop draws exactly `Decode` with the unclamped anchor; `found_something` is true iff some visited score is above 0.5, iff something was drawn |
| DetectionPi.ProcessFrame | detection_pi.py:38-90 | preparation fails exactly on an empty capture or one without channels. Otherwise the input is `1x300x300xc`, or `1x300x300` for one channel. The frame goes through exactly when it is non-empty with three channels: the boxes scaled by the display copy then equal `Decode` on the captured frame's size, and `found_something` is set iff something is drawn. Otherwise the error is caught, the loop ends, and nothing is drawn |
| DetectionPc.DrawEntry | detection_pc.py:44-61 | one passing entry's box, label and clamped anchor, equal to the specification's entry decoding; the anchor is at least 15 and equals `y0 - 10` iff `y0 >= 25` |
| DetectionPc.DrawDetections | detection_pc.py:42-62 | the loop draws exactly `Decode` with the clamped anchor, and every anchor is at row 15 or below |
| DetectionPc.ProcessFrame | detection_pc.py:28-62 | preparation succeeds iff the frame is non-empty with 3 or 4 channels, giving the `1x300x300x3` input. The boxes are then `Decode` on the frame's own size. A failed preparation draws nothing |

## Left out

- Camera acquisition (`Picamera2`, `cv2.VideoCapture`, `cap.read` and its retry on a missing frame): device I/O. The captured frame is a parameter, described by its dimensions.
- Model loading and inference (`Interpreter`, `allocate_tensors`, `set_tensor`, `invoke`, `get_tensor`): foreign calls. Their outputs are the decoder's inputs.
- Pixel values: colour conversion, resize interpolation and the rasterisation of `rectangle` and `putText` are OpenCV calls and are not modelled. Frames are modelled by dimensions only.
- `imshow` and `waitKey`: display I/O and not modelled.
- Main-loop control: the `q`/ESC key checks, `KeyboardInterrupt`, the catch-all `except` and resource release. This is I/O and process plumbing.
- Reading the label file at import time: file I/O. The table is a given `seq<string>`.
- Floating point: float32 rounding of `xmin * w` and similar products. Scores and coordinates are exact reals; NaN and infinities are not modelled.
- The `%.0f` / `%.1f` percentage text: not modelled. A `Detection` carries the raw score instead.
- `print` output, colours, fonts and line widths: cosmetic.
- DetectionPi.DrawDetections: OpenCV's Python binding rejects a box corner or text anchor outside the 32-bit C `int` range. The model treats `rectangle` and `putText` as accepting any integer, so a coordinate millions of times outside [0, 1] is recorded as drawn. The script would instead raise, and its catch-all clause would end the loop.
- DetectionPc.DrawDetections: the same 32-bit range check of `rectangle` and `putText` is not modelled. On such a coordinate the webcam script would raise and stop.
- Preprocess.AcceptsInput: `set_tensor` is a foreign call. Its rejection of any input whose shape differs from the declared `1x300x300x3` is taken as given, not derived.
- Preprocess.Resize: OpenCV's own upper limit on the channel count is not modelled. The captures here have three channels.
