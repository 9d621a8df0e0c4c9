/**
 * The webcam script: one iteration of `detect_from_camera` after inference.
 * The label anchor is clamped to row 15, and boxes are drawn directly onto
 * the captured frame.
 */
module DetectionPc {
  import opened Truncation
  import opened LabelTable
  import opened Preprocess
  import opened Decoder

  /**
   * The body of the drawing loop for an entry that passed the threshold:
   * the box scaled by the frame's `shape[1]` (width) and `shape[0]`
   * (height), then the label lookup, then the label text ten rows above the
   * box but never above row 15.
   */
  method DrawEntry(raw: RawOutputs, labelmap: seq<string>, frame: Frame, i: nat) returns (d: Detection)
    requires IndexFits(raw, i)
    ensures d == DecodeEntry(raw, labelmap, frame, Clamped, i)
    ensures d.name == LabelFor(labelmap, Trunc(raw.classes[i])) && d.score == raw.scores[i]
    ensures d.box == Denormalise(raw.boxes[i], frame)
    ensures d.anchor.x == d.box.x0 && d.anchor.y >= MinLabelY
    ensures d.anchor.y == d.box.y0 - LabelOffset <==> d.box.y0 >= MinLabelY + LabelOffset
  {
    var b := raw.boxes[i];
    var x0 := Trunc(b.xmin * frame.width as real);
    var y0 := Trunc(b.ymin * frame.height as real);
    var x1 := Trunc(b.xmax * frame.width as real);
    var y1 := Trunc(b.ymax * frame.height as real);
    var classId := Trunc(raw.classes[i]);
    var labelName;
    if 0 <= classId < |labelmap| {
      labelName := labelmap[classId];
    } else {
      labelName := Unknown;
    }
    var anchorY := if y0 - LabelOffset < MinLabelY then MinLabelY else y0 - LabelOffset;
    d := Detection(labelName, raw.scores[i], PixelBox(x0, y0, x1, y1), Point(x0, anchorY));
  }

  /**
   * The drawing loop over `range(int(nums[0]))`. `drawn` lists, in order,
   * the arguments of the `rectangle`/`putText` pairs drawn onto the frame.
   */
  method DrawDetections(raw: RawOutputs, labelmap: seq<string>, frame: Frame) returns (drawn: seq<Detection>)
    requires CountFits(raw)
    ensures drawn == Decode(raw, labelmap, frame, Clamped)
    ensures forall k :: 0 <= k < |drawn| ==> drawn[k].anchor.y >= MinLabelY
  {
    drawn := [];
    var count := Trunc(raw.num);
    var i := 0;
    while i < count
      invariant 0 <= i <= Examined(raw)
      invariant drawn == DecodePrefix(raw, labelmap, frame, Clamped, i)
      invariant forall k :: 0 <= k < |drawn| ==> drawn[k].anchor.y >= MinLabelY
    {
      if raw.scores[i] > Threshold {
        var d := DrawEntry(raw, labelmap, frame, i);
        drawn := drawn + [d];
      }
      i := i + 1;
    }
  }

  /**
   * One frame's pass through the loop body. The preparation raises on an
   * empty frame, or on one whose channel count colour conversion does not
   * accept. The script does not catch that error, so nothing is drawn.
   * Otherwise the detector input is `1x300x300x3` and the boxes are scaled
   * by the captured frame's own size.
   */
  method ProcessFrame(raw: RawOutputs, labelmap: seq<string>, frame: Frame)
    returns (input: Option<seq<nat>>, drawn: seq<Detection>)
    requires CountFits(raw)
    ensures input.Some? <==> NonEmpty(frame) && (frame.channels == 3 || frame.channels == 4)
    ensures input.Some? ==> input.value == InputShape && drawn == Decode(raw, labelmap, frame, Clamped)
    ensures input.None? ==> drawn == []
  {
    PcPrepareFailsIff(frame);
    input := PcPrepare(frame);
    if input.None? {
      return input, [];
    }
    PcPrepareShape(frame);
    drawn := DrawDetections(raw, labelmap, frame);
  }
}
