/**
 * The detection decoding step shared by both scripts: from the detector's
 * four parallel outputs and the display frame's size to the ordered list of
 * detections that get drawn. This module is the pure specification; the
 * drawing loops of the two scripts are proved equal to `Decode`.
 */
module Decoder {
  import opened Truncation
  import opened LabelTable
  import opened Preprocess

  /** An entry is drawn only when its score is strictly above this. */
  const Threshold: real := 0.5
  /** The label text sits this many pixels above the box's top edge. */
  const LabelOffset: int := 10
  /** The webcam script never puts the label's baseline above this row. */
  const MinLabelY: int := 15

  /** One row of `boxes[0]`, in the detector's `[ymin, xmin, ymax, xmax]` order, normalised to the frame. */
  datatype NormBox = NormBox(ymin: real, xmin: real, ymax: real, xmax: real)

  /**
   * The batch-0 slices of the four output tensors: `boxes[0]`, `labels[0]`
   * (class ids, as floats), `scores[0]` and `nums[0]`.
   */
  datatype RawOutputs = RawOutputs(boxes: seq<NormBox>, classes: seq<real>, scores: seq<real>, num: real)

  /** A box in pixels: top-left corner `(x0, y0)`, bottom-right corner `(x1, y1)`. */
  datatype PixelBox = PixelBox(x0: int, y0: int, x1: int, y1: int)

  datatype Point = Point(x: int, y: int)

  /** One drawn detection: what goes into the `rectangle` and `putText` calls. */
  datatype Detection = Detection(name: string, score: real, box: PixelBox, anchor: Point)

  /** Where the label text goes: the embedded-camera script does not clamp, the webcam script does. */
  datatype AnchorRule = Unclamped | Clamped

  /** `int(nums[0])`. */
  function Count(raw: RawOutputs): (n: int) {
    Trunc(raw.num)
  }

  /** How many indices `range(int(nums[0]))` visits: none when the count is negative. */
  function Examined(raw: RawOutputs): (n: nat) {
    if Count(raw) < 0 then 0 else Count(raw)
  }

  /**
   * The scripts index all three arrays with every visited index and do not
   * check the count against their lengths; a caller must supply that.
   */
  predicate CountFits(raw: RawOutputs) {
    Count(raw) <= |raw.boxes| && Count(raw) <= |raw.classes| && Count(raw) <= |raw.scores|
  }

  predicate IndexFits(raw: RawOutputs, i: nat) {
    i < |raw.boxes| && i < |raw.classes| && i < |raw.scores|
  }

  predicate Passes(score: real) {
    score > Threshold
  }

  /**
   * Denormalisation: x scales with the frame's width, y with its height,
   * each truncated to an integer pixel.
   */
  function Denormalise(b: NormBox, f: Frame): (p: PixelBox) {
    PixelBox(Scale(b.xmin, f.width), Scale(b.ymin, f.height), Scale(b.xmax, f.width), Scale(b.ymax, f.height))
  }

  /** `int(v * side)`: one normalised coordinate scaled to a frame side. */
  function Scale(v: real, side: nat): (n: int) {
    Trunc(v * side as real)
  }

  function Max(a: int, b: int): (m: int) {
    if a < b then b else a
  }

  /** The text origin handed to `putText`. */
  function TextAnchor(rule: AnchorRule, box: PixelBox): (p: Point) {
    match rule
    case Unclamped => Point(box.x0, box.y0 - LabelOffset)
    case Clamped => Point(box.x0, Max(MinLabelY, box.y0 - LabelOffset))
  }

  /** The detection drawn for entry `i` once it has passed the threshold. */
  function DecodeEntry(raw: RawOutputs, labelmap: seq<string>, f: Frame, rule: AnchorRule, i: nat): (d: Detection)
    requires IndexFits(raw, i)
  {
    var box := Denormalise(raw.boxes[i], f);
    Detection(LabelFor(labelmap, Trunc(raw.classes[i])), raw.scores[i], box, TextAnchor(rule, box))
  }

  /** The detections drawn while visiting indices `0 .. n-1`. */
  function DecodePrefix(raw: RawOutputs, labelmap: seq<string>, f: Frame, rule: AnchorRule, n: nat): (ds: seq<Detection>)
    requires n <= |raw.boxes| && n <= |raw.classes| && n <= |raw.scores|
  {
    if n == 0 then []
    else
      DecodePrefix(raw, labelmap, f, rule, n - 1)
      + (if Passes(raw.scores[n - 1]) then [DecodeEntry(raw, labelmap, f, rule, n - 1)] else [])
  }

  /** The whole decoding step for one frame. */
  function Decode(raw: RawOutputs, labelmap: seq<string>, f: Frame, rule: AnchorRule): (ds: seq<Detection>)
    requires CountFits(raw)
  {
    DecodePrefix(raw, labelmap, f, rule, Examined(raw))
  }

  /** Reference definition: the indices below `n` whose score passes, in increasing order. */
  function KeptIndices(scores: seq<real>, n: nat): (kept: seq<nat>)
    requires n <= |scores|
  {
    if n == 0 then []
    else KeptIndices(scores, n - 1) + (if Passes(scores[n - 1]) then [n - 1] else [])
  }

  /**
   * An index is kept iff it is below `n` and its score is strictly above the
   * threshold, and the kept indices are strictly increasing.
   */
  lemma {:induction false} KeptIndicesExact(scores: seq<real>, n: nat)
    requires n <= |scores|
    ensures forall i: nat :: i in KeptIndices(scores, n) <==> i < n && Passes(scores[i])
    ensures forall a, b :: 0 <= a < b < |KeptIndices(scores, n)| ==>
      KeptIndices(scores, n)[a] < KeptIndices(scores, n)[b]
  {
    if n > 0 {
      KeptIndicesExact(scores, n - 1);
      var k := KeptIndices(scores, n - 1);
      var tail: seq<nat> := if Passes(scores[n - 1]) then [n - 1] else [];
      assert KeptIndices(scores, n) == k + tail;
      assert forall i: nat :: i in k + tail <==> i in k || i in tail;
      forall a, b | 0 <= a < b < |k + tail|
        ensures (k + tail)[a] < (k + tail)[b]
      {
        if b >= |k| {
          assert (k + tail)[b] == n - 1;
          assert (k + tail)[a] == k[a];
          assert k[a] in k;
        }
      }
    }
  }

  /** The prefix decoding is the entry decoding of exactly the kept indices, in order. */
  lemma {:induction false} DecodePrefixIsKeptEntries(raw: RawOutputs, labelmap: seq<string>, f: Frame, rule: AnchorRule, n: nat)
    requires n <= |raw.boxes| && n <= |raw.classes| && n <= |raw.scores|
    ensures |DecodePrefix(raw, labelmap, f, rule, n)| == |KeptIndices(raw.scores, n)|
    ensures forall k :: 0 <= k < |KeptIndices(raw.scores, n)| ==>
      IndexFits(raw, KeptIndices(raw.scores, n)[k]) &&
      DecodePrefix(raw, labelmap, f, rule, n)[k] == DecodeEntry(raw, labelmap, f, rule, KeptIndices(raw.scores, n)[k])
  {
    if n > 0 {
      DecodePrefixIsKeptEntries(raw, labelmap, f, rule, n - 1);
      KeptIndicesExact(raw.scores, n - 1);
    }
  }

  /**
   * Main characterisation of `Decode`: the output lists, in the detector's
   * own index order, the entry decoding of exactly those visited indices
   * whose score is strictly above 0.5; nothing is re-sorted, merged or
   * suppressed.
   */
  lemma DecodeIsKeptEntries(raw: RawOutputs, labelmap: seq<string>, f: Frame, rule: AnchorRule)
    requires CountFits(raw)
    ensures var kept := KeptIndices(raw.scores, Examined(raw));
      && |Decode(raw, labelmap, f, rule)| == |kept|
      && (forall i: nat :: i in kept <==> i < Examined(raw) && Passes(raw.scores[i]))
      && (forall a, b :: 0 <= a < b < |kept| ==> kept[a] < kept[b])
      && (forall k :: 0 <= k < |kept| ==>
            IndexFits(raw, kept[k]) &&
            Decode(raw, labelmap, f, rule)[k] == DecodeEntry(raw, labelmap, f, rule, kept[k]))
  {
    DecodePrefixIsKeptEntries(raw, labelmap, f, rule, Examined(raw));
    KeptIndicesExact(raw.scores, Examined(raw));
  }

  /** Something is drawn iff some visited entry passes the threshold. */
  lemma {:induction false} DecodePrefixNonEmptyIff(raw: RawOutputs, labelmap: seq<string>, f: Frame, rule: AnchorRule, n: nat)
    requires n <= |raw.boxes| && n <= |raw.classes| && n <= |raw.scores|
    ensures |DecodePrefix(raw, labelmap, f, rule, n)| > 0 <==> exists i :: 0 <= i < n && Passes(raw.scores[i])
  {
    if n > 0 {
      DecodePrefixNonEmptyIff(raw, labelmap, f, rule, n - 1);
      if Passes(raw.scores[n - 1]) {
        assert 0 <= n - 1 < n && Passes(raw.scores[n - 1]);
      } else {
        assert forall i :: 0 <= i < n && Passes(raw.scores[i]) ==> i < n - 1;
      }
    }
  }

  lemma DecodeNonEmptyIff(raw: RawOutputs, labelmap: seq<string>, f: Frame, rule: AnchorRule)
    requires CountFits(raw)
    ensures |Decode(raw, labelmap, f, rule)| > 0 <==> exists i :: 0 <= i < Examined(raw) && Passes(raw.scores[i])
  {
    DecodePrefixNonEmptyIff(raw, labelmap, f, rule, Examined(raw));
  }

  /** A count of zero (or a negative one) draws nothing. */
  lemma DecodeEmptyWithoutCount(raw: RawOutputs, labelmap: seq<string>, f: Frame, rule: AnchorRule)
    requires Count(raw) <= 0
    ensures CountFits(raw) && Decode(raw, labelmap, f, rule) == []
  {
  }

  /** Two outputs that agree on their visited entries decode alike. */
  lemma {:induction false} DecodePrefixDependsOnlyOnPrefix(raw: RawOutputs, raw': RawOutputs, labelmap: seq<string>, f: Frame, rule: AnchorRule, n: nat)
    requires n <= |raw.boxes| && n <= |raw.classes| && n <= |raw.scores|
    requires n <= |raw'.boxes| && n <= |raw'.classes| && n <= |raw'.scores|
    requires raw.boxes[..n] == raw'.boxes[..n] && raw.classes[..n] == raw'.classes[..n] && raw.scores[..n] == raw'.scores[..n]
    ensures DecodePrefix(raw, labelmap, f, rule, n) == DecodePrefix(raw', labelmap, f, rule, n)
  {
    if n > 0 {
      assert raw.boxes[..n - 1] == raw.boxes[..n][..n - 1];
      assert raw'.boxes[..n - 1] == raw'.boxes[..n][..n - 1];
      assert raw.classes[..n - 1] == raw.classes[..n][..n - 1];
      assert raw'.classes[..n - 1] == raw'.classes[..n][..n - 1];
      assert raw.scores[..n - 1] == raw.scores[..n][..n - 1];
      assert raw'.scores[..n - 1] == raw'.scores[..n][..n - 1];
      DecodePrefixDependsOnlyOnPrefix(raw, raw', labelmap, f, rule, n - 1);
      assert raw.boxes[n - 1] == raw.boxes[..n][n - 1] == raw'.boxes[n - 1];
      assert raw.classes[n - 1] == raw.classes[..n][n - 1] == raw'.classes[n - 1];
      assert raw.scores[n - 1] == raw.scores[..n][n - 1] == raw'.scores[n - 1];
    }
  }

  /**
   * Entries at or beyond `int(nums[0])` never contribute: whatever they hold,
   * and however long the arrays are, the decoded list is the same.
   */
  lemma EntriesBeyondCountIgnored(raw: RawOutputs, raw': RawOutputs, labelmap: seq<string>, f: Frame, rule: AnchorRule)
    requires CountFits(raw) && CountFits(raw')
    requires Count(raw) == Count(raw')
    requires var n := Examined(raw);
      raw.boxes[..n] == raw'.boxes[..n] && raw.classes[..n] == raw'.classes[..n] && raw.scores[..n] == raw'.scores[..n]
    ensures Decode(raw, labelmap, f, rule) == Decode(raw', labelmap, f, rule)
  {
    DecodePrefixDependsOnlyOnPrefix(raw, raw', labelmap, f, rule, Examined(raw));
  }

  /**
   * The two scripts draw the same detections, in the same order, with the
   * same labels, scores and boxes; only the label anchor's y differs, and
   * the clamped one is the unclamped one raised to at least 15.
   */
  lemma {:induction false} VariantsDifferOnlyInAnchor(raw: RawOutputs, labelmap: seq<string>, f: Frame, n: nat)
    requires n <= |raw.boxes| && n <= |raw.classes| && n <= |raw.scores|
    ensures var u, c := DecodePrefix(raw, labelmap, f, Unclamped, n), DecodePrefix(raw, labelmap, f, Clamped, n);
      && |u| == |c|
      && forall k :: 0 <= k < |u| ==>
           && c[k].name == u[k].name && c[k].score == u[k].score && c[k].box == u[k].box
           && c[k].anchor == Point(u[k].anchor.x, Max(MinLabelY, u[k].anchor.y))
  {
    if n > 0 {
      VariantsDifferOnlyInAnchor(raw, labelmap, f, n - 1);
    }
  }

  /**
   * One scaled coordinate is within one pixel of the exact product, equals
   * its floor when the coordinate is non-negative, and stays inside
   * `0 .. side` when the coordinate is in [0, 1].
   */
  lemma ScaleProperties(v: real, side: nat)
    ensures -1.0 < v * side as real - Scale(v, side) as real < 1.0
    ensures v >= 0.0 ==> Scale(v, side) == (v * side as real).Floor
    ensures 0.0 <= v <= 1.0 ==> 0 <= Scale(v, side) <= side
  {
    var p := v * side as real;
    TruncTowardZero(p);
    if v >= 0.0 {
      NonNegativeProduct(v, side as real);
      TruncIsFloorIff(p);
    }
    if 0.0 <= v <= 1.0 {
      var s := side as real;
      assert s - p == (1.0 - v) * s;
      NonNegativeProduct(1.0 - v, s);
      TruncMonotone(p, side as real);
      TruncOfInt(side);
    }
  }

  lemma NonNegativeProduct(a: real, b: real)
    requires a >= 0.0 && b >= 0.0
    ensures a * b >= 0.0
  {
  }

  /** Scaling keeps the order of two coordinates. */
  lemma ScaleMonotone(a: real, b: real, side: nat)
    requires a <= b
    ensures Scale(a, side) <= Scale(b, side)
  {
    NonNegativeProduct(b - a, side as real);
    assert b * side as real - a * side as real == (b - a) * side as real;
    assert a * side as real <= b * side as real;
    TruncMonotone(a * side as real, b * side as real);
  }

  /**
   * The pixel box reads the normalised box in `[ymin, xmin, ymax, xmax]`
   * order and scales x by the frame's width and y by its height: each corner
   * coordinate lies within one pixel of the exact product (its floor for
   * non-negative coordinates), and the corners keep the normalised order.
   */
  lemma DenormaliseProperties(b: NormBox, f: Frame)
    ensures var p := Denormalise(b, f);
      && -1.0 < b.xmin * f.width as real - p.x0 as real < 1.0
      && -1.0 < b.ymin * f.height as real - p.y0 as real < 1.0
      && -1.0 < b.xmax * f.width as real - p.x1 as real < 1.0
      && -1.0 < b.ymax * f.height as real - p.y1 as real < 1.0
      && (b.xmin >= 0.0 ==> p.x0 == (b.xmin * f.width as real).Floor)
      && (b.ymin >= 0.0 ==> p.y0 == (b.ymin * f.height as real).Floor)
      && (b.xmax >= 0.0 ==> p.x1 == (b.xmax * f.width as real).Floor)
      && (b.ymax >= 0.0 ==> p.y1 == (b.ymax * f.height as real).Floor)
      && (0.0 <= b.xmin <= 1.0 ==> 0 <= p.x0 <= f.width)
      && (0.0 <= b.ymin <= 1.0 ==> 0 <= p.y0 <= f.height)
      && (b.xmin <= b.xmax ==> p.x0 <= p.x1)
      && (b.ymin <= b.ymax ==> p.y0 <= p.y1)
  {
    ScaleProperties(b.xmin, f.width);
    ScaleProperties(b.ymin, f.height);
    ScaleProperties(b.xmax, f.width);
    ScaleProperties(b.ymax, f.height);
    if b.xmin <= b.xmax {
      ScaleMonotone(b.xmin, b.xmax, f.width);
    }
    if b.ymin <= b.ymax {
      ScaleMonotone(b.ymin, b.ymax, f.height);
    }
  }

  /** A box whose normalised sides differ can still collapse to zero pixel width. */
  lemma BoxCanCollapse()
    ensures var p := Denormalise(NormBox(0.1, 0.1, 0.5, 0.1005), Frame(480, 640, 3));
      p.x0 == p.x1 == 64
  {
    assert 0.1 * 640.0 == 64.0;
    assert 0.1005 * 640.0 == 64.32;
  }

  /** The clamped anchor is never above row 15, and equals `y0 - 10` exactly when `y0 >= 25`. */
  lemma ClampedAnchor(box: PixelBox)
    ensures TextAnchor(Clamped, box).x == box.x0
    ensures TextAnchor(Clamped, box).y >= MinLabelY
    ensures TextAnchor(Clamped, box).y == box.y0 - LabelOffset <==> box.y0 >= MinLabelY + LabelOffset
  {
  }

  /** The unclamped anchor is always ten rows above the box, and so off the frame for a box near the top. */
  lemma UnclampedAnchor(box: PixelBox)
    ensures TextAnchor(Unclamped, box) == Point(box.x0, box.y0 - LabelOffset)
    ensures TextAnchor(Unclamped, box).y < 0 <==> box.y0 < LabelOffset
  {
  }

  /** The one-entry scenario: a 640x480 frame, box [0.1, 0.2, 0.5, 0.6], class 0, score 0.91. */
  function Scenario(score: real, classId: real): (raw: RawOutputs) {
    RawOutputs([NormBox(0.1, 0.2, 0.5, 0.6)], [classId], [score], 1.0)
  }

  lemma ScenarioPerson(rule: AnchorRule)
    ensures CountFits(Scenario(0.91, 0.0))
    ensures Decode(Scenario(0.91, 0.0), ["person", "car"], Frame(480, 640, 3), rule)
      == [Detection("person", 0.91, PixelBox(128, 48, 384, 240), Point(128, 38))]
  {
    assert 0.2 * 640.0 == 128.0 && 0.1 * 480.0 == 48.0;
    assert 0.6 * 640.0 == 384.0 && 0.5 * 480.0 == 240.0;
    assert Examined(Scenario(0.91, 0.0)) == 1;
  }

  /** The same entry with score 0.4, or exactly 0.5, is not drawn. */
  lemma ScenarioBelowThreshold(rule: AnchorRule)
    ensures Decode(Scenario(0.4, 0.0), ["person", "car"], Frame(480, 640, 3), rule) == []
    ensures Decode(Scenario(0.5, 0.0), ["person", "car"], Frame(480, 640, 3), rule) == []
  {
    assert Examined(Scenario(0.4, 0.0)) == 1;
    assert Examined(Scenario(0.5, 0.0)) == 1;
  }

  /** Class id 99 with a two-entry table is drawn as "unknown". */
  lemma ScenarioUnknownClass(rule: AnchorRule)
    ensures |Decode(Scenario(0.91, 99.0), ["person", "car"], Frame(480, 640, 3), rule)| == 1
    ensures Decode(Scenario(0.91, 99.0), ["person", "car"], Frame(480, 640, 3), rule)[0].name == Unknown
  {
    assert Examined(Scenario(0.91, 99.0)) == 1;
  }
}
