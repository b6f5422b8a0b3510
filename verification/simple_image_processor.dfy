/**
 * `SimpleImageProcessor` of image_processor.py: output naming with the
 * extension as given, the min-ratio size of `resize_image`, the boxes of
 * `smart_crop`, the writer choice of `convert_format`, and the PNG output of
 * the mock `remove_background`.
 */
module SimpleImageProcessor {
  import opened Wrappers
  import opened Errors
  import opened Arith
  import Saving
  import opened Geometry
  import opened Imaging
  import opened Strings
  import opened Paths

  /** `_get_output_path`: `.<extension>` exactly as given, or the input's own extension when none is given. */
  function OutputPath(input: string, suffix: string, extension: string): string {
    Paths.OutputPath(input, suffix, if extension == [] then Extension(input) else "." + extension)
  }

  /**
   * `resize_image`: both sides scaled by `min(tw / ow, th / oh)` and floored,
   * then `resize`, which raises when a side came out zero. The side whose
   * ratio is the smaller one comes out at its target exactly.
   */
  function ResizeDims(o: ImageSize, t: Dims): (r: Result<Dims, Error>)
    ensures r.Failure? <==> DegenerateFit(o, t)
    ensures r.Failure? ==> r.error == ZeroSize
    ensures r.Success? ==> AspectFit(o, t, r.value) && r.value.width > 0 && r.value.height > 0
    ensures r.Success? && t.width * o.height <= t.height * o.width ==> r.value.width == t.width
    ensures r.Success? && t.width * o.height >= t.height * o.width ==> r.value.height == t.height
  {
    if t.width * o.height <= t.height * o.width then
      MulNonNegative(t.width, o.height);
      DivNonNegative(t.width * o.height, o.width);
      WidthLimitedFit(o, t);
      WidthLimitedZero(o, t);
      SameRatioFillsTarget(o, t);
      Saving.Resize(Dims(t.width, (t.width * o.height) / o.width))
    else
      MulNonNegative(t.height, o.width);
      DivNonNegative(t.height * o.width, o.height);
      HeightLimitedFit(o, t);
      HeightLimitedZero(o, t);
      Saving.Resize(Dims((t.height * o.width) / o.height, t.height))
  }

  /**
   * The `portrait` size: the height is the image's, or `16w/9` floored when
   * that is less, and the width is `9/16` of the height floored. The result
   * fits the image, has ratio 9:16 up to the floor, and a cut height leaves
   * at most one pixel of the width behind.
   */
  function PortraitDims(w: Pos, h: Pos): (d: Dims)
    ensures d.width <= w && d.height <= h
    ensures d.width * 16 <= d.height * 9 < (d.width + 1) * 16
    ensures d.height == h || d.height * 9 <= w * 16 < (d.height + 1) * 9
    ensures d.height < h ==> d.width >= w - 1
  {
    FloorBracket(w * 16, 9);
    var nh := Min(h, (w * 16) / 9);
    FloorBracket(nh * 9, 16);
    DivAtMost(nh * 9, w, 16);
    Dims((nh * 9) / 16, nh)
  }

  /**
   * The `landscape` size: the width is the image's, or `16h/9` floored when
   * that is less, and the height is `9/16` of the width floored. The result
   * fits the image, has ratio 16:9 up to the floor, and a cut width leaves
   * at most one pixel of the height behind.
   */
  function LandscapeDims(w: Pos, h: Pos): (d: Dims)
    ensures d.width <= w && d.height <= h
    ensures d.height * 16 <= d.width * 9 < (d.height + 1) * 16
    ensures d.width == w || d.width * 9 <= h * 16 < (d.width + 1) * 9
    ensures d.width < w ==> d.height >= h - 1
  {
    FloorBracket(h * 16, 9);
    var nw := Min(w, (h * 16) / 9);
    FloorBracket(nw * 9, 16);
    DivAtMost(nw * 9, h, 16);
    Dims(nw, (nw * 9) / 16)
  }

  /**
   * `smart_crop`: the centred 9:16 box for `portrait`, the centred 16:9 box
   * for `landscape`, and the centred `min(w, h)` square for `smart`,
   * `square` and every other mode; written under `cropped_<mode>`.
   */
  function SmartCrop(input: string, mode: string, w: Pos, h: Pos): (c: Crop)
    ensures Within(c.box, w, h) && Centred(c.box, w, h)
    ensures mode == "portrait" ==> c.box.Width() == PortraitDims(w, h).width && c.box.Height() == PortraitDims(w, h).height
    ensures mode == "landscape" ==> c.box.Width() == LandscapeDims(w, h).width && c.box.Height() == LandscapeDims(w, h).height
    ensures mode != "portrait" && mode != "landscape" ==> c.box.Width() == c.box.Height() == Min(w, h)
    ensures c.path == OutputPath(input, "cropped_" + mode, "")
  {
    var path := OutputPath(input, "cropped_" + mode, "");
    if mode == "portrait" then Crop(CentredBox(w, h, PortraitDims(w, h)), path)
    else if mode == "landscape" then Crop(CentredBox(w, h, LandscapeDims(w, h)), path)
    else Crop(CentredSquare(w, h), path)
  }

  /** `smart`, `square` and any mode but the two ratios cut the very same square. */
  lemma {:induction false} SquareModesAgree(input: string, mode: string, w: Pos, h: Pos)
    requires mode != "portrait" && mode != "landscape"
    ensures SmartCrop(input, mode, w, h).box == SmartCrop(input, "square", w, h).box
  {
    var b1, b2 := SmartCrop(input, mode, w, h).box, SmartCrop(input, "square", w, h).box;
    CentredStartUnique(w, b1.left, b1.Width());
    CentredStartUnique(w, b2.left, b2.Width());
    CentredStartUnique(h, b1.top, b1.Height());
    CentredStartUnique(h, b2.top, b2.Height());
  }

  /** What a save writes: the file, the mode of the image saved, and the writer named to `save`. */
  datatype Saved = Saved(path: string, mode: Mode, writer: SaveFormat)

  /** The writer `convert_format` names, chosen by the lower-cased format. */
  function Writer(format: string): (f: SaveFormat)
    ensures f == Jpeg <==> Lower(format) == "jpeg" || Lower(format) == "jpg"
    ensures f == Png <==> Lower(format) == "png"
    ensures f == Webp <==> Lower(format) == "webp"
  {
    var l := Lower(format);
    if l == "jpeg" || l == "jpg" then Jpeg
    else if l == "png" then Png
    else if l == "webp" then Webp
    else ByExtension
  }

  /**
   * `convert_format`: the output is named with the format string as its
   * extension; RGBA, LA and P are flattened to RGB for the JPEG writer only.
   */
  function ConvertFormat(input: string, m: Mode, format: string): (r: Saved)
    ensures r.path == OutputPath(input, "converted", format)
    ensures r.writer == Writer(format)
    ensures r.writer == Jpeg ==> r.mode == FlattenAlpha(m)
    ensures r.writer != Jpeg ==> r.mode == m
  {
    var path := OutputPath(input, "converted", format);
    if Writer(format) == Jpeg then Saved(path, FlattenAlpha(m), Jpeg)
    else Saved(path, m, Writer(format))
  }

  /** A given extension without dot or slash reads back as the output's extension, its case kept. */
  lemma OutputPathRoundTrip(input: string, suffix: string, extension: string)
    requires extension != [] && Lacks(suffix, '/') && Lacks(extension, '/') && Lacks(extension, '.')
    ensures Stem(OutputPath(input, suffix, extension)) == Stem(input) + "_" + suffix
    ensures Extension(OutputPath(input, suffix, extension)) == "." + extension
  {
    Paths.OutputPathRoundTrip(input, suffix, extension);
  }

  /** A format without dot or slash becomes the output's extension, its case kept. */
  lemma ConvertFormatNamesFormat(input: string, m: Mode, format: string)
    requires format != [] && Lacks(format, '/') && Lacks(format, '.')
    ensures Stem(ConvertFormat(input, m, format).path) == Stem(input) + "_" + "converted"
    ensures Extension(ConvertFormat(input, m, format).path) == "." + format
  {
    OutputPathRoundTrip(input, "converted", format);
  }

  /** The suffix and extension of the mock background removal's output. */
  const NoBgSuffix: string := "no_bg"
  const PngExtension: string := "png"

  /** `remove_background`: the image, turned RGBA when it is not already, saved under `<stem>_no_bg.png`. */
  function RemoveBackground(input: string, m: Mode): (r: Saved)
    ensures r.mode == RGBA
    ensures r.path == OutputPath(input, NoBgSuffix, PngExtension)
  {
    Saved(OutputPath(input, NoBgSuffix, PngExtension), RGBA, ByExtension)
  }

  /** Whatever the input's extension, the matted file is a `.png`. */
  lemma RemoveBackgroundWritesPng(input: string, m: Mode)
    ensures Stem(RemoveBackground(input, m).path) == Stem(input) + "_" + NoBgSuffix
    ensures Extension(RemoveBackground(input, m).path) == "." + PngExtension
  {
    assert Lacks(NoBgSuffix, '/') && Lacks(PngExtension, '/') && Lacks(PngExtension, '.');
    OutputPathRoundTrip(input, NoBgSuffix, PngExtension);
  }
}
