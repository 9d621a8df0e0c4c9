/**
 * Shape-level model of frame preparation. A frame is described by its
 * dimensions only (`frame.shape` in NumPy order: height, width, channels);
 * pixel values, colour conversion arithmetic and resize interpolation are
 * not modelled. The OpenCV and NumPy calls are given by the rules they apply
 * to shapes: which inputs they accept and what shape they return. A call
 * that raises gives `None`.
 */
module Preprocess {

  /** Side length of the detector's square input. */
  const InputSide: nat := 300

  /** The input tensor shape the detector declares: batch, height, width, channels. */
  const InputShape: seq<nat> := [1, InputSide, InputSide, 3]

  /** A captured frame: `height x width x channels`, as `frame.shape` reports it. */
  datatype Frame = Frame(height: nat, width: nat, channels: nat)

  datatype Option<T> = None | Some(value: T)

  /** `frame.shape`. */
  function Dims(f: Frame): (d: seq<nat>) {
    [f.height, f.width, f.channels]
  }

  /** Number of elements of an array with dimensions `d`. */
  function Product(d: seq<nat>): (n: nat) {
    if d == [] then 1 else d[0] * Product(d[1..])
  }

  /** A frame with at least one row and one column; OpenCV rejects an empty one. */
  predicate NonEmpty(f: Frame) {
    f.height > 0 && f.width > 0
  }

  /**
   * Definition of `cv2.cvtColor` with `COLOR_BGR2RGB` or `COLOR_RGB2BGR`,
   * on shapes: a non-empty source with three or four channels becomes a
   * three-channel frame of the same size; any other source makes it raise.
   */
  function CvtColor(f: Frame): (r: Option<Frame>) {
    if NonEmpty(f) && (f.channels == 3 || f.channels == 4) then Some(Frame(f.height, f.width, 3)) else None
  }

  /**
   * Definition of `cv2.resize(img, (w, h))` on shapes, giving the result's
   * `shape`. The size argument is given width first, so the result has `h`
   * rows and `w` columns with the source's channels. OpenCV's Python binding
   * returns a one-channel image as a two-dimensional array. A source that is
   * empty or has no channels makes the call raise, and so does an empty
   * target size.
   */
  function Resize(f: Frame, dsizeWidth: nat, dsizeHeight: nat): (r: Option<seq<nat>>) {
    if NonEmpty(f) && f.channels > 0 && dsizeWidth > 0 && dsizeHeight > 0 then
      Some(if f.channels == 1 then [dsizeHeight, dsizeWidth] else [dsizeHeight, dsizeWidth, f.channels])
    else None
  }

  /** `np.expand_dims(img, axis=0)`: a leading axis of length 1. */
  function ExpandDims0(d: seq<nat>): (e: seq<nat>)
    ensures |e| == |d| + 1 && e[0] == 1 && e[1..] == d
    ensures Product(e) == Product(d)
  {
    [1] + d
  }

  /**
   * Definition of `img.reshape(target)`: NumPy accepts a target with the
   * same number of elements and raises otherwise.
   */
  function Reshape(d: seq<nat>, target: seq<nat>): (r: Option<seq<nat>>) {
    if Product(d) == Product(target) then Some(target) else None
  }

  /**
   * The webcam script's preparation: BGR to RGB, resize to 300x300, reshape
   * to `1x300x300x3` and cast to uint8 (the cast keeps the shape).
   */
  function PcPrepare(f: Frame): (r: Option<seq<nat>>) {
    match CvtColor(f)
    case None => None
    case Some(rgb) =>
      match Resize(rgb, InputSide, InputSide)
      case None => None
      case Some(small) => Reshape(small, InputShape)
  }

  /** The embedded-camera script's preparation: resize to 300x300, then add the batch axis. */
  function PiPrepare(f: Frame): (r: Option<seq<nat>>) {
    match Resize(f, InputSide, InputSide)
    case None => None
    case Some(small) => Some(ExpandDims0(small))
  }

  /** `interpreter.set_tensor` accepts only an input of the detector's declared shape. */
  predicate AcceptsInput(shape: seq<nat>) {
    shape == InputShape
  }

  lemma ProductOfThree(a: nat, b: nat, c: nat)
    ensures Product([a, b, c]) == a * b * c
  {
    assert [a, b, c][1..] == [b, c];
    assert [b, c][1..] == [c];
    assert [c][1..] == [];
    assert Product([c]) == c;
    assert Product([b, c]) == b * c;
  }

  lemma InputShapeSize()
    ensures Product(InputShape) == 270000
  {
    assert InputShape[1..] == [InputSide, InputSide, 3];
    ProductOfThree(InputSide, InputSide, 3);
  }

  /**
   * Resizing keeps exactly the channels: the result holds `h * w` pixels of
   * the source's channel count, whatever the source's own size.
   */
  lemma ResizeElementCount(f: Frame, dsizeWidth: nat, dsizeHeight: nat)
    requires NonEmpty(f) && f.channels > 0 && dsizeWidth > 0 && dsizeHeight > 0
    ensures Resize(f, dsizeWidth, dsizeHeight).Some?
    ensures Product(Resize(f, dsizeWidth, dsizeHeight).value) == dsizeHeight * dsizeWidth * f.channels
  {
    if f.channels == 1 {
      assert [dsizeHeight, dsizeWidth][1..] == [dsizeWidth];
      assert [dsizeWidth][1..] == [];
      assert Product([dsizeWidth]) == dsizeWidth;
      assert Product([dsizeHeight, dsizeWidth]) == dsizeHeight * dsizeWidth;
    } else {
      ProductOfThree(dsizeHeight, dsizeWidth, f.channels);
    }
  }

  /**
   * Every non-empty three- or four-channel frame, whatever its height and
   * width, becomes a `1x300x300x3` input.
   */
  lemma PcPrepareShape(f: Frame)
    requires NonEmpty(f) && (f.channels == 3 || f.channels == 4)
    ensures PcPrepare(f) == Some(InputShape)
  {
    InputShapeSize();
    ProductOfThree(InputSide, InputSide, 3);
  }

  /**
   * The webcam preparation raises exactly on an empty frame or one whose
   * channel count colour conversion does not accept; the reshape itself
   * never fails once conversion and resizing have succeeded.
   */
  lemma PcPrepareFailsIff(f: Frame)
    ensures PcPrepare(f).None? <==> !(NonEmpty(f) && (f.channels == 3 || f.channels == 4))
  {
    if NonEmpty(f) && (f.channels == 3 || f.channels == 4) {
      PcPrepareShape(f);
    }
  }

  /**
   * The embedded-camera preparation raises exactly on an empty frame or one
   * without channels. Otherwise it adds the batch axis to the 300x300
   * resized frame: `1x300x300xc` for `c` channels, or `1x300x300` for a
   * single channel. The detector accepts the result exactly when the
   * capture has three channels.
   */
  lemma PiPrepareShape(f: Frame)
    ensures PiPrepare(f).None? <==> !(NonEmpty(f) && f.channels > 0)
    ensures NonEmpty(f) && f.channels > 1 ==> PiPrepare(f) == Some([1, InputSide, InputSide, f.channels])
    ensures NonEmpty(f) && f.channels == 1 ==> PiPrepare(f) == Some([1, InputSide, InputSide])
    ensures PiPrepare(f).Some? ==> (AcceptsInput(PiPrepare(f).value) <==> f.channels == 3)
  {
    if NonEmpty(f) && f.channels > 0 {
      var d := PiPrepare(f).value;
      if f.channels == 1 {
        assert d == [1, InputSide, InputSide];
        assert |d| != |InputShape|;
      } else {
        assert d == [1, InputSide, InputSide, f.channels];
        assert AcceptsInput(d) ==> d[3] == InputShape[3];
      }
    }
  }

  /**
   * The BGR display copy of a non-empty three-channel capture has exactly
   * the capture's dimensions, so boxes scaled by either land on the same
   * pixels; a four-channel source loses its fourth channel.
   */
  lemma DisplayKeepsSize(f: Frame)
    requires NonEmpty(f) && (f.channels == 3 || f.channels == 4)
    ensures CvtColor(f).Some?
    ensures CvtColor(f).value.height == f.height && CvtColor(f).value.width == f.width
    ensures Product(Dims(CvtColor(f).value)) == f.height * f.width * 3
    ensures f.channels == 3 ==> CvtColor(f) == Some(f)
  {
    ProductOfThree(f.height, f.width, 3);
  }
}
