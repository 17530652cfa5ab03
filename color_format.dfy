/**
 * The channel-order normalisation `ensure_correct_color_format` (Cogs/ai.py),
 * which looks at the third axis of a numpy image and converts it with OpenCV.
 */
module ColorFormat {
  import opened Wrappers

  /** One pixel: its channel values in memory order. */
  type Pixel = seq<int>

  /**
   * A decoded image as a numpy array: either two-dimensional (no channel axis,
   * so `img.shape[2]` raises) or three-dimensional with `channels` values per pixel.
   */
  datatype Image =
    | Planar(samples: seq<int>)
    | Channelled(channels: nat, pixels: seq<Pixel>)

  /** numpy's shape guarantee: every pixel of a 3-D array has the same number of channels. */
  ghost predicate WellFormed(img: Image) {
    img.Channelled? ==> forall p :: p in img.pixels ==> |p| == img.channels
  }

  /** COLOR_BGR2RGB on one pixel: the first and third channels trade places. */
  function SwapRedBlue(p: Pixel): Pixel
    requires |p| == 3
  {
    [p[2], p[1], p[0]]
  }

  /** COLOR_RGBA2RGB on one pixel: the alpha channel is dropped, the order is kept. */
  function DropAlpha(p: Pixel): Pixel
    requires |p| == 4
  {
    p[..3]
  }

  /**
   * `ensure_correct_color_format`: three channels are reordered BGR -> RGB,
   * four channels lose alpha, any other channel count is returned as it is.
   * A 2-D image raises IndexError at `img.shape[2]`, and `cv2.cvtColor`
   * raises on an empty three- or four-channel image.
   */
  function EnsureCorrectColorFormat(img: Image): (r: Result<Image>)
    requires WellFormed(img)
    ensures r.Failure? <==> img.Planar? || ((img.channels == 3 || img.channels == 4) && img.pixels == [])
    ensures r.Success? ==> r.value.Channelled? && WellFormed(r.value) && |r.value.pixels| == |img.pixels|
    ensures r.Success? ==>
      r.value.channels == (if img.channels == 3 || img.channels == 4 then 3 else img.channels)
    ensures r.Success? && img.channels == 3 ==>
      forall i, c :: 0 <= i < |img.pixels| && 0 <= c < 3 ==> r.value.pixels[i][c] == img.pixels[i][2 - c]
    ensures r.Success? && img.channels == 4 ==>
      forall i, c :: 0 <= i < |img.pixels| && 0 <= c < 3 ==> r.value.pixels[i][c] == img.pixels[i][c]
    ensures r.Success? && img.channels != 3 && img.channels != 4 ==> r.value == img
  {
    match img
    case Planar(_) => Failure("IndexError")
    case Channelled(n, px) =>
      if (n == 3 || n == 4) && px == [] then Failure("cv2.error: !_src.empty()")
      else if n == 3 then
        Success(Channelled(3, seq(|px|, i requires 0 <= i < |px| => SwapRedBlue(px[i]))))
      else if n == 4 then
        Success(Channelled(3, seq(|px|, i requires 0 <= i < |px| => DropAlpha(px[i]))))
      else
        Success(img)
  }

  /** COLOR_RGB2GRAY accepts non-empty three- or four-channel input and raises on anything else. */
  predicate GrayConvertible(img: Image) {
    img.Channelled? && (img.channels == 3 || img.channels == 4) && img.pixels != []
  }

  /**
   * Converting a three-channel image twice gives the original back (BGR -> RGB
   * is an involution); only an empty one is refused.
   */
  lemma {:induction false} SwapTwiceIsIdentity(img: Image)
    requires WellFormed(img) && img.Channelled? && img.channels == 3
    ensures EnsureCorrectColorFormat(img).Success? <==> img.pixels != []
    ensures img.pixels != [] ==>
      EnsureCorrectColorFormat(EnsureCorrectColorFormat(img).value) == Success(img)
  {
    if img.pixels != [] {
      var once := EnsureCorrectColorFormat(img).value;
      var twice := EnsureCorrectColorFormat(once).value;
      assert |twice.pixels| == |img.pixels|;
      forall i | 0 <= i < |img.pixels|
        ensures twice.pixels[i] == img.pixels[i]
      {
        assert |img.pixels[i]| == 3 by { assert img.pixels[i] in img.pixels; }
        assert once.pixels[i] in once.pixels;
      }
      assert twice.pixels == img.pixels;
    }
  }

  /**
   * After the conversion an image can go to grayscale exactly when it came
   * non-empty with three or four channels; every other shape makes the source raise.
   */
  lemma {:induction false} ConvertedIsGrayConvertible(img: Image)
    requires WellFormed(img)
    ensures (EnsureCorrectColorFormat(img).Success? && GrayConvertible(EnsureCorrectColorFormat(img).value))
            <==> (img.Channelled? && (img.channels == 3 || img.channels == 4) && img.pixels != [])
  {
  }
}
