/**
 * The size given to an image run: explicit width/height attributes, completed from the
 * intrinsic (natural) size when one or both are 0, then scaled down to at most 600 wide.
 * Sizes are reals; the intrinsic size is a parameter (the browser's image loading is not modelled).
 */
module ImageSizing {
  import opened Wrappers

  datatype Size = Size(width: real, height: real)

  /** The widest an image may be. */
  const MaxWidth: real := 600.0

  /** scale_down: a size at most maxWidth wide is kept; a wider one is scaled by maxWidth/width. */
  function ScaleDown(size: Size, maxWidth: real): (r: Size)
    requires maxWidth > 0.0
    ensures size.width <= maxWidth ==> r == size
  {
    if size.width <= maxWidth then size
    else
      var scale := maxWidth / size.width;
      Size(size.width * scale, size.height * scale)
  }

  /** A wider image ends up exactly maxWidth wide, with the same height-to-width ratio. */
  lemma ScaleDownWide(size: Size, maxWidth: real)
    requires maxWidth > 0.0 && size.width > maxWidth
    ensures ScaleDown(size, maxWidth).width == maxWidth
    ensures ScaleDown(size, maxWidth).height * size.width == size.height * maxWidth
    ensures ScaleDown(size, maxWidth).height / ScaleDown(size, maxWidth).width == size.height / size.width
  {
    var scale := maxWidth / size.width;
    assert scale * size.width == maxWidth;
    var r := ScaleDown(size, maxWidth);
    assert r.height * size.width == size.height * (scale * size.width);
    assert r.height / r.width == (size.height * scale) / (size.width * scale);
  }

  /** After scale_down no image is wider than maxWidth, and a non-negative width stays non-negative. */
  lemma ScaleDownBound(size: Size, maxWidth: real)
    requires maxWidth > 0.0
    ensures ScaleDown(size, maxWidth).width <= maxWidth
    ensures size.width >= 0.0 ==> ScaleDown(size, maxWidth).width >= 0.0
  {
    if size.width > maxWidth {
      ScaleDownWide(size, maxWidth);
    }
  }

  /**
   * The size of an IMG before scaling: both attributes 0 gives the intrinsic size, one of them 0 is
   * inferred from the intrinsic aspect ratio, otherwise the attributes stand. The ratio divides by an
   * intrinsic dimension; when that is 0 the JavaScript result is not a number, here None.
   */
  function InferSize(explicit: Size, intrinsic: Size): (r: Option<Size>)
    ensures explicit.width != 0.0 && explicit.height != 0.0 ==> r == Some(explicit)
    ensures explicit.width == 0.0 && explicit.height == 0.0 ==> r == Some(intrinsic)
  {
    if explicit.width == 0.0 && explicit.height == 0.0 then Some(intrinsic)
    else if explicit.width == 0.0 then
      if intrinsic.height == 0.0 then None
      else
        var factor := intrinsic.width / intrinsic.height;
        Some(Size(explicit.height * factor, explicit.height))
    else if explicit.height == 0.0 then
      if intrinsic.width == 0.0 then None
      else
        var factor := intrinsic.height / intrinsic.width;
        Some(Size(explicit.width, explicit.width * factor))
    else Some(explicit)
  }

  /** A missing width is inferred so that the image keeps its intrinsic aspect ratio and its explicit height. */
  lemma InferWidth(explicit: Size, intrinsic: Size)
    requires explicit.width == 0.0 && explicit.height != 0.0 && intrinsic.height != 0.0
    ensures InferSize(explicit, intrinsic).Some?
    ensures InferSize(explicit, intrinsic).value.height == explicit.height
    ensures InferSize(explicit, intrinsic).value.width * intrinsic.height == explicit.height * intrinsic.width
  {
    var factor := intrinsic.width / intrinsic.height;
    assert factor * intrinsic.height == intrinsic.width;
    assert explicit.height * factor * intrinsic.height == explicit.height * (factor * intrinsic.height);
  }

  /** A missing height is inferred so that the image keeps its intrinsic aspect ratio and its explicit width. */
  lemma InferHeight(explicit: Size, intrinsic: Size)
    requires explicit.height == 0.0 && explicit.width != 0.0 && intrinsic.width != 0.0
    ensures InferSize(explicit, intrinsic).Some?
    ensures InferSize(explicit, intrinsic).value.width == explicit.width
    ensures InferSize(explicit, intrinsic).value.height * intrinsic.width == explicit.width * intrinsic.height
  {
    var factor := intrinsic.height / intrinsic.width;
    assert factor * intrinsic.width == intrinsic.height;
    assert explicit.width * factor * intrinsic.width == explicit.width * (factor * intrinsic.width);
  }

  /** The transformation of an IMG run: the inferred size scaled down to MaxWidth. */
  function ImageTransformation(explicit: Size, intrinsic: Size): (r: Option<Size>)
    ensures r.Some? ==> r.value.width <= MaxWidth
  {
    match InferSize(explicit, intrinsic)
    case None => None
    case Some(s) => ScaleDownBound(s, MaxWidth); Some(ScaleDown(s, MaxWidth))
  }

  /** The size of a CANVAS snapshot: a width of 0 or none at all gives the intrinsic size, otherwise the image's own. */
  function CanvasSize(width: Option<real>, height: real, intrinsic: Size): (r: Size)
    ensures width.Some? && width.value != 0.0 ==> r == Size(width.value, height)
  {
    match width
    case None => intrinsic
    case Some(w) => if w == 0.0 then intrinsic else Size(w, height)
  }

  /** The transformation of a CANVAS run: its size scaled down to MaxWidth. */
  function CanvasTransformation(width: Option<real>, height: real, intrinsic: Size): (r: Size)
    ensures r.width <= MaxWidth
  {
    ScaleDownBound(CanvasSize(width, height, intrinsic), MaxWidth);
    ScaleDown(CanvasSize(width, height, intrinsic), MaxWidth)
  }
}
