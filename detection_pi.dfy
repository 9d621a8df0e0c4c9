/**
 * The embedded-camera script: one iteration of `detect_from_camera` after
 * inference. The label anchor is not clamped, and the loop also sets
 * `found_something`.
 */
module DetectionPi {
  import opened Truncation
  import opened LabelTable
  import opened Preprocess
  import opened Decoder

  /**
   * The body of the drawing loop for an entry that passed the threshold:
   * label lookup, then the box scaled by the display copy's size, then the
   * label text ten rows above the box, with no clamping.
   */
  method DrawEntry(raw: RawOutputs, labelmap: seq<string>, display: Frame, i: nat) returns (d: Detection)
    requires IndexFits(raw, i)
    ensures d == DecodeEntry(raw, labelmap, display, Unclamped, i)
    ensures d.name == LabelFor(labelmap, Trunc(raw.classes[i])) && d.score == raw.scores[i]
    ensures d.box == Denormalise(raw.boxes[i], display)
    ensures d.anchor == Point(d.box.x0, d.box.y0 - LabelOffset)
  {
    var classId := Trunc(raw.classes[i]);
    var labelName := if 0 <= classId < |labelmap| then labelmap[classId] else Unknown;
    var b := raw.boxes[i];
    var h, w := display.height, display.width;
    var x0, y0 := Trunc(b.xmin * w as real), Trunc(b.ymin * h as real);
    var x1, y1 := Trunc(b.xmax * w as real), Trunc(b.ymax * h as real);
    d := Detection(labelName, raw.scores[i], PixelBox(x0, y0, x1, y1), Point(x0, y0 - LabelOffset));
  }

  /**
   * The drawing loop over `range(int(nums[0]))`. `drawn` lists, in order,
   * the arguments of the `rectangle`/`putText` pairs drawn onto the display
   * copy; `foundSomething` is the `found_something` flag after the loop.
   */
  method DrawDetections(raw: RawOutputs, labelmap: seq<string>, display: Frame)
    returns (drawn: seq<Detection>, foundSomething: bool)
    requires CountFits(raw)
    ensures drawn == Decode(raw, labelmap, display, Unclamped)
    ensures foundSomething <==> exists i :: 0 <= i < Examined(raw) && Passes(raw.scores[i])
    ensures foundSomething <==> |drawn| > 0
  {
    drawn := [];
    foundSomething := false;
    var count := Trunc(raw.num);
    var i := 0;
    while i < count
      invariant 0 <= i <= Examined(raw)
      invariant drawn == DecodePrefix(raw, labelmap, display, Unclamped, i)
      invariant foundSomething <==> exists j :: 0 <= j < i && Passes(raw.scores[j])
    {
      if raw.scores[i] > Threshold {
        var d := DrawEntry(raw, labelmap, display, i);
        drawn := drawn + [d];
        foundSomething := true;
      }
      i := i + 1;
    }
    DecodeNonEmptyIff(raw, labelmap, display, Unclamped);
  }

  /**
   * One frame's pass through the loop body. The input is prepared from the
   * captured RGB frame. `cv2.resize` raises on an empty frame or one
   * without channels, and `set_tensor` rejects an input that is not
   * `1x300x300x3`. Either error is caught by the catch-all `except`, which
   * ends the loop with nothing drawn. Otherwise boxes are drawn on the BGR display copy and scaled by
   * its size, which is the captured frame's. On the failure path the script
   * never reaches `found_something = False`, and nothing reads the flag
   * before the loop ends; there `foundSomething == false` stands for "not
   * set on this iteration".
   */
  method ProcessFrame(raw: RawOutputs, labelmap: seq<string>, captured: Frame)
    returns (input: Option<seq<nat>>, ok: bool, drawn: seq<Detection>, foundSomething: bool)
    requires CountFits(raw)
    ensures input.None? <==> !(NonEmpty(captured) && captured.channels > 0)
    ensures NonEmpty(captured) && captured.channels > 1 ==> input == Some([1, InputSide, InputSide, captured.channels])
    ensures NonEmpty(captured) && captured.channels == 1 ==> input == Some([1, InputSide, InputSide])
    ensures ok <==> NonEmpty(captured) && captured.channels == 3
    ensures ok ==> input == Some(InputShape)
    ensures ok ==> drawn == Decode(raw, labelmap, captured, Unclamped) && (foundSomething <==> |drawn| > 0)
    ensures !ok ==> drawn == [] && !foundSomething
  {
    input := PiPrepare(captured);
    PiPrepareShape(captured);
    if input.None? || !AcceptsInput(input.value) {
      return input, false, [], false;
    }
    var display := CvtColor(captured);
    DisplayKeepsSize(captured);
    drawn, foundSomething := DrawDetections(raw, labelmap, display.value);
    ok := true;
  }
}
