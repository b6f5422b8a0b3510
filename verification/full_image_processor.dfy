/**
 * `ImageProcessor` of deepseek_python_20251015_fc208f.py: output naming with
 * an optional lower-cased extension, the JPEG flattening rule of
 * `_save_image`, the sizes of `resize_image`, the boxes of `smart_crop` and
 * of the contour-driven `_smart_crop_auto`, the whitelist of
 * `convert_format`, and the colour ramp of `_create_gradient_background`.
 */
module FullImageProcessor {
  import opened Wrappers
  import opened Errors
  import opened Arith
  import opened Geometry
  import opened Imaging
  import opened Strings
  import opened Paths
  import opened Saving

  /** `supported_formats`. */
  predicate SupportedFormat(f: string) {
    f == "jpeg" || f == "jpg" || f == "png" || f == "webp"
  }

  /** `_get_output_path`: the given extension lower-cased after a dot, or the input's own when none is given. */
  function OutputPath(input: string, suffix: string, extension: string): string {
    Paths.OutputPath(input, suffix, if extension == [] then Extension(input) else "." + Lower(extension))
  }

  /** With an extension given, the file is named `<stem>_<suffix>.<extension lower-cased>`. */
  lemma OutputPathRoundTrip(input: string, suffix: string, extension: string)
    requires extension != [] && Lacks(suffix, '/') && Lacks(extension, '/') && Lacks(extension, '.')
    ensures Stem(OutputPath(input, suffix, extension)) == Stem(input) + "_" + suffix
    ensures Extension(OutputPath(input, suffix, extension)) == "." + Lower(extension)
  {
    LowerLacks(extension, '/');
    LowerLacks(extension, '.');
    Paths.OutputPathRoundTrip(input, suffix, Lower(extension));
  }

  /** Without one, the input's extension carries over whenever it has one. */
  lemma OutputPathKeepsExtension(input: string, suffix: string)
    requires Lacks(suffix, '/') && Extension(input) != []
    ensures Stem(OutputPath(input, suffix, "")) == Stem(input) + "_" + suffix
    ensures Extension(OutputPath(input, suffix, "")) == Extension(input)
  {
    OutputPathRoundTripWithDot(input, suffix, Extension(input));
  }

  /** `output_path.lower().endswith(('.jpg', '.jpeg'))` */
  predicate IsJpegPath(p: string) {
    EndsWith(Lower(p), ".jpg") || EndsWith(Lower(p), ".jpeg")
  }

  /** The mode `_save_image` writes: RGBA, LA and P flattened to RGB for a JPEG path, any mode kept otherwise. */
  function SaveMode(m: Mode, path: string): (r: Mode)
    ensures !IsJpegPath(path) ==> r == m
    ensures IsJpegPath(path) ==> !FlattenedForJpeg(r) && (FlattenedForJpeg(m) <==> r != m)
  {
    if IsJpegPath(path) then FlattenAlpha(m) else m
  }

  /**
   * `_save_image`: the image, flattened for a JPEG name, saved with the
   * writer registered for the name's extension; ValueError for an unknown
   * extension and OSError for a mode the writer does not take pass through.
   */
  function SaveImage(path: string, m: Mode): (r: Result<SaveFormat, Error>)
    ensures r.Success? ==> Accepts(r.value, SaveMode(m, path))
    ensures r.Success? ==> WriterOfExtension(Lower(Extension(path))) == Some(r.value)
    ensures WriterOfExtension(Lower(Extension(path))).None? ==> r == Failure(UnknownExtension(Extension(path)))
    ensures r.Failure? ==> SaveError(r.error)
  {
    Save(path, ByExtension, SaveMode(m, path))
  }

  /** An image of mode `m` can be stored under `path` by `_save_image`. */
  predicate Storable(path: string, m: Mode) {
    SaveImage(path, m).Success?
  }

  /** The suffix of `resize_image`'s output file. */
  function ResizeOutputPath(input: string, n: Dims): string {
    OutputPath(input, ResizeSuffix(n.width, n.height), "")
  }

  /**
   * The size `resize_image` resizes to. Keeping the aspect ratio, an image
   * wider than the target (`ow/oh > tw/th`) fills the target's width and any
   * other its height, the other side floored; a zero target height then
   * raises ZeroDivisionError. Without it the target is used as it is. A size
   * with a zero side makes `resize` raise.
   */
  function ResizeDims(o: ImageSize, t: Dims, maintainAspect: bool): (r: Result<Dims, Error>)
    ensures maintainAspect && t.height == 0 ==> r == Failure(ZeroDivisionError)
    ensures maintainAspect && t.height > 0 ==> (r.Failure? <==> DegenerateFit(o, t))
    ensures !maintainAspect ==> (r.Failure? <==> t.width == 0 || t.height == 0)
    ensures r.Failure? && !(maintainAspect && t.height == 0) ==> r.error == ZeroSize
    ensures r.Success? ==> r.value.width > 0 && r.value.height > 0
    ensures r.Success? && !maintainAspect ==> r.value == t
    ensures r.Success? && maintainAspect ==> AspectFit(o, t, r.value)
    ensures r.Success? && maintainAspect && o.width * t.height > t.width * o.height ==> r.value.width == t.width
    ensures r.Success? && maintainAspect && o.width * t.height < t.width * o.height ==> r.value.height == t.height
  {
    if !maintainAspect then Resize(t)
    else if t.height == 0 then Failure(ZeroDivisionError)
    else if o.width * t.height > t.width * o.height then
      WidthLimitedFit(o, t);
      WidthLimitedZero(o, t);
      Resize(Dims(t.width, (t.width * o.height) / o.width))
    else
      HeightLimitedFit(o, t);
      HeightLimitedZero(o, t);
      Resize(Dims((t.height * o.width) / o.height, t.height))
  }

  /**
   * `resize_image` as a whole: the image must open and the size be
   * computable; the resized image, in the image's mode, is then stored
   * under `<stem>_resized_<w>x<h><ext>`.
   */
  function ResizeImage(input: string, image: Option<Picture>, t: Dims, maintainAspect: bool): (r: Result<string, Error>)
    ensures image.None? ==> r == Failure(CannotOpen)
    ensures image.Some? && ResizeDims(image.value.size, t, maintainAspect).Failure? ==>
              r == Failure(ResizeDims(image.value.size, t, maintainAspect).error)
    ensures r.Success? ==>
              && image.Some? && ResizeDims(image.value.size, t, maintainAspect).Success?
              && r.value == ResizeOutputPath(input, ResizeDims(image.value.size, t, maintainAspect).value)
              && Storable(r.value, image.value.mode)
    ensures image.Some? && ResizeDims(image.value.size, t, maintainAspect).Success? ==>
              (r.Success? <==> Storable(ResizeOutputPath(input, ResizeDims(image.value.size, t, maintainAspect).value), image.value.mode))
    ensures r.Failure? && image.Some? && ResizeDims(image.value.size, t, maintainAspect).Success? ==> SaveError(r.error)
  {
    match image
    case None => Failure(CannotOpen)
    case Some(pic) =>
      match ResizeDims(pic.size, t, maintainAspect)
      case Failure(e) => Failure(e)
      case Success(n) =>
        var path := ResizeOutputPath(input, n);
        match SaveImage(path, pic.mode)
        case Success(_) => Success(path)
        case Failure(e) => Failure(e)
  }

  /** The file `resize_image` writes: its name records the size, so two sizes never share a name. */
  lemma ResizePathsDiffer(input: string, n1: Dims, n2: Dims)
    requires n1 != n2
    ensures ResizeOutputPath(input, n1) != ResizeOutputPath(input, n2)
  {
    if ResizeOutputPath(input, n1) == ResizeOutputPath(input, n2) {
      var e := Extension(input);
      var s1, s2 := ResizeSuffix(n1.width, n1.height), ResizeSuffix(n2.width, n2.height);
      PrefixCancel(ProcessedDir + "/", Stem(input) + "_" + s1 + e, Stem(input) + "_" + s2 + e);
      MiddleUnique(Stem(input) + "_", s1, s2, e);
      ResizeSuffixInjective(n1.width, n1.height, n2.width, n2.height);
    }
  }

  /** A rectangle `(x, y, w, h)` as `cv2.boundingRect` reports it. */
  datatype Rect = Rect(x: nat, y: nat, w: nat, h: nat)

  predicate RectInside(r: Rect, width: int, height: int) {
    r.x + r.w <= width && r.y + r.h <= height
  }

  /** What contour detection gave: no contour, the bounding box of the largest one, or an exception. */
  datatype Contours = NoContours | Largest(rect: Rect) | DetectionFailed

  /** The padding `_smart_crop_auto` adds around the subject on each side before clamping. */
  const Padding: nat := 20

  /**
   * The padded crop of `_smart_crop_auto`: the start moves back by the
   * padding but not below zero, the length grows by twice the padding but
   * not past the image's edge.
   */
  function PaddedBox(r: Rect, width: Pos, height: Pos): (b: Box)
    ensures b.left >= 0 && b.top >= 0 && b.right <= width && b.bottom <= height
    ensures b.Width() <= r.w + 2 * Padding && b.Height() <= r.h + 2 * Padding
    ensures RectInside(r, width, height) ==>
              && Within(b, width, height)
              && b.left <= r.x && r.x + r.w <= b.right
              && b.top <= r.y && r.y + r.h <= b.bottom
  {
    var x := Max(0, r.x - Padding);
    var y := Max(0, r.y - Padding);
    var w := Min(width - x, r.w + 2 * Padding);
    var h := Min(height - y, r.h + 2 * Padding);
    Box(x, y, x + w, y + h)
  }

  predicate KnownCropMode(mode: string) {
    mode == "smart" || mode == "square" || mode == "portrait" || mode == "landscape"
  }

  /** The `square` branch, also the fallback of `_smart_crop_auto`. */
  function SquareCrop(input: string, width: Pos, height: Pos): Crop {
    Crop(CentredSquare(width, height), OutputPath(input, "cropped_square", ""))
  }

  /**
   * The crop `smart_crop` plans: `smart` crops around the largest contour, or falls back to
   * the square crop when there is none or detection raised; `square` takes
   * the centred `min(w, h)` square; `portrait` and `landscape` take the
   * largest centred 9:16 and 16:9 boxes; any other mode raises ValueError.
   * The boundary test of contour detection keeps its rectangle inside the
   * image.
   */
  function CropPlan(input: string, mode: string, width: Pos, height: Pos, contours: Contours): (r: Result<Crop, Error>)
    requires contours.Largest? ==> RectInside(contours.rect, width, height)
    ensures r.Failure? <==> !KnownCropMode(mode)
    ensures r.Failure? ==> r.error == UnknownCropMode(mode)
    ensures r.Success? ==> Within(r.value.box, width, height)
    ensures mode == "square" || (mode == "smart" && !contours.Largest?) ==>
              r == Success(SquareCrop(input, width, height))
    ensures mode == "smart" && contours.Largest? ==>
              r == Success(Crop(PaddedBox(contours.rect, width, height), OutputPath(input, "cropped_smart", "")))
    ensures mode == "portrait" ==>
              r.Success? && RatioCrop(r.value.box, width, height, 9, 16)
              && r.value.path == OutputPath(input, "cropped_portrait", "")
    ensures mode == "landscape" ==>
              r.Success? && RatioCrop(r.value.box, width, height, 16, 9)
              && r.value.path == OutputPath(input, "cropped_landscape", "")
  {
    if mode == "smart" then
      match contours
      case Largest(rect) => Success(Crop(PaddedBox(rect, width, height), OutputPath(input, "cropped_smart", "")))
      case _ => Success(SquareCrop(input, width, height))
    else if mode == "square" then Success(SquareCrop(input, width, height))
    else if mode == "portrait" then Success(Crop(CropToRatio(width, height, 9, 16), OutputPath(input, "cropped_portrait", "")))
    else if mode == "landscape" then Success(Crop(CropToRatio(width, height, 16, 9), OutputPath(input, "cropped_landscape", "")))
    else Failure(UnknownCropMode(mode))
  }

  /**
   * `smart_crop` as a whole: the image must open; the planned crop is then
   * stored through `_save_image`. A failed store of the contour crop, like
   * any error inside `_smart_crop_auto`, is answered with the square crop,
   * whose own failure is raised.
   */
  function SmartCrop(input: string, mode: string, image: Option<Picture>, contours: Contours): (r: Result<Crop, Error>)
    requires image.Some? && contours.Largest? ==> RectInside(contours.rect, image.value.size.width, image.value.size.height)
    ensures image.None? ==> r == Failure(CannotOpen)
    ensures image.Some? && !KnownCropMode(mode) ==> r == Failure(UnknownCropMode(mode))
    ensures r.Success? ==>
              && image.Some?
              && Within(r.value.box, image.value.size.width, image.value.size.height)
              && Storable(r.value.path, image.value.mode)
    ensures image.Some? && KnownCropMode(mode) ==>
              var w, h := image.value.size.width, image.value.size.height;
              var plan := CropPlan(input, mode, w, h, contours).value;
              && (Storable(plan.path, image.value.mode) ==> r == Success(plan))
              && (!Storable(plan.path, image.value.mode) && mode == "smart" && contours.Largest? ==>
                    (r.Success? <==> Storable(SquareCrop(input, w, h).path, image.value.mode))
                    && (r.Success? ==> r.value == SquareCrop(input, w, h)))
              && (!Storable(plan.path, image.value.mode) && !(mode == "smart" && contours.Largest?) ==> r.Failure?)
              && (r.Failure? ==> SaveError(r.error))
  {
    match image
    case None => Failure(CannotOpen)
    case Some(pic) =>
      var plan := CropPlan(input, mode, pic.size.width, pic.size.height, contours);
      if plan.Failure? then plan
      else
        match SaveImage(plan.value.path, pic.mode)
        case Success(_) => plan
        case Failure(e) =>
          if mode == "smart" && contours.Largest? then
            var square := SquareCrop(input, pic.size.width, pic.size.height);
            match SaveImage(square.path, pic.mode)
            case Success(_) => Success(square)
            case Failure(e2) => Failure(e2)
          else Failure(e)
  }

  /** What a conversion writes: the file and the mode of the image saved to it. */
  datatype Saved = Saved(path: string, mode: Mode)

  /**
   * `convert_format`: a format outside the whitelist after lower-casing
   * raises ValueError before the image is opened; otherwise the image is
   * stored under the lower-cased format as extension, through `_save_image`.
   */
  function ConvertFormat(input: string, image: Option<Mode>, target: string): (r: Result<Saved, Error>)
    ensures !SupportedFormat(Lower(target)) ==> r == Failure(UnsupportedFormat(target))
    ensures SupportedFormat(Lower(target)) && image.None? ==> r == Failure(CannotOpen)
    ensures SupportedFormat(Lower(target)) && image.Some? ==>
              (r.Success? <==> Storable(OutputPath(input, "converted", Lower(target)), image.value))
    ensures r.Success? ==> image.Some? && r.value.path == OutputPath(input, "converted", Lower(target))
    ensures r.Success? ==> r.value.mode == SaveMode(image.value, r.value.path)
    ensures r.Failure? && SupportedFormat(Lower(target)) && image.Some? ==> SaveError(r.error)
  {
    var f := Lower(target);
    if !SupportedFormat(f) then Failure(UnsupportedFormat(target))
    else
      match image
      case None => Failure(CannotOpen)
      case Some(m) =>
        var path := OutputPath(input, "converted", f);
        match SaveImage(path, m)
        case Success(_) => Success(Saved(path, SaveMode(m, path)))
        case Failure(e) => Failure(e)
  }

  /** A path ending in `.<format>` passes the JPEG test exactly when the format is `jpg` or `jpeg`. */
  lemma JpegTestOfFormat(q: string, f: string)
    requires SupportedFormat(f) && EndsWith(q, "." + f)
    ensures (EndsWith(q, ".jpg") || EndsWith(q, ".jpeg")) <==> f == "jpg" || f == "jpeg"
  {
    // the last character but one tells the four formats and the two JPEG spellings apart
    var t := "." + f;
    var n := |q|;
    assert q[n - |t|..] == t;
    if f == "jpg" {
      assert EndsWith(q, ".jpg");
    } else if f == "jpeg" {
      assert EndsWith(q, ".jpeg");
    } else {
      var c := if f == "png" then 'n' else 'b';
      assert t[|t| - 2] == c;
      assert q[n - 2] == c;
      NotJpegEnding(q, c);
    }
  }

  /** A path whose last character but one is neither `p` nor `e` does not end in `.jpg` or `.jpeg`. */
  lemma NotJpegEnding(q: string, c: char)
    requires |q| >= 2 && q[|q| - 2] == c && c != 'p' && c != 'e'
    ensures !EndsWith(q, ".jpg") && !EndsWith(q, ".jpeg")
  {
    var n := |q|;
    assert n >= 4 ==> q[n - 4..][2] == q[n - 2];
    assert n >= 5 ==> q[n - 5..][3] == q[n - 2];
  }

  /** A supported format is a plain non-empty name: no slash, no dot. */
  lemma SupportedFormatPlain(f: string)
    requires SupportedFormat(f)
    ensures f != [] && Lacks(f, '/') && Lacks(f, '.')
  {
  }

  /** Lower-casing a path leaves a lower-case final extension as it is. */
  lemma LowerKeepsLowerExtension(pre: string, f: string)
    requires Lower(f) == f
    ensures EndsWith(Lower(pre + ("." + f)), "." + f)
  {
    LowerConcat(pre, "." + f);
    LowerConcat(".", f);
    assert Lower(".") == ".";
  }

  /** The converted file's name is `<stem>_converted.<format>`, and lower-casing it leaves the format alone. */
  lemma ConvertedPathShape(input: string, target: string)
    requires SupportedFormat(Lower(target))
    ensures var f := Lower(target);
            && Stem(OutputPath(input, "converted", f)) == Stem(input) + "_" + "converted"
            && Extension(OutputPath(input, "converted", f)) == "." + f
            && EndsWith(Lower(OutputPath(input, "converted", f)), "." + f)
  {
    var f := Lower(target);
    LowerIdempotent(target);
    SupportedFormatPlain(f);
    OutputPathRoundTrip(input, "converted", f);
    var dir, name := ProcessedDir + "/", Stem(input) + "_" + "converted";
    var pre := dir + name;
    Regroup(dir, name, "." + f);
    assert OutputPath(input, "converted", f) == pre + ("." + f);
    LowerKeepsLowerExtension(pre, f);
  }

  /** The writer registered for each accepted format's extension. */
  function FormatWriter(f: string): SaveFormat
    requires SupportedFormat(f)
  {
    if f == "png" then Png else if f == "webp" then Webp else Jpeg
  }

  /** Each accepted format's extension has its writer registered. */
  lemma WriterOfFormat(f: string)
    requires SupportedFormat(f)
    ensures WriterOfExtension("." + f) == Some(FormatWriter(f))
  {
  }

  /** The converted file's extension, lower-cased, is the accepted format after its dot. */
  lemma ConvertedExtension(input: string, target: string)
    requires SupportedFormat(Lower(target))
    ensures Lower(Extension(OutputPath(input, "converted", Lower(target)))) == "." + Lower(target)
  {
    var f := Lower(target);
    ConvertedPathShape(input, target);
    LowerIdempotent(target);
    LowerConcat(".", f);
    assert Lower(".") == ".";
  }

  /**
   * The converted file's name picks the writer of its format, and passes the
   * JPEG test exactly for `jpg` and `jpeg`.
   */
  lemma ConvertedWriter(input: string, target: string)
    requires SupportedFormat(Lower(target))
    ensures var path := OutputPath(input, "converted", Lower(target));
            && WriterOfExtension(Lower(Extension(path))) == Some(FormatWriter(Lower(target)))
            && (IsJpegPath(path) <==> Lower(target) == "jpg" || Lower(target) == "jpeg")
  {
    var f := Lower(target);
    var path := OutputPath(input, "converted", f);
    ConvertedPathShape(input, target);
    JpegTestOfFormat(Lower(path), f);
    ConvertedExtension(input, target);
    WriterOfFormat(f);
  }

  /** The mode an accepted format is stored in: flattened for the two JPEG spellings only. */
  function FormatMode(m: Mode, f: string): Mode {
    if f == "jpg" || f == "jpeg" then FlattenAlpha(m) else m
  }

  /** A name whose extension has a writer is storable exactly when that writer takes the `_save_image` mode. */
  lemma StorableByWriter(path: string, m: Mode, w: SaveFormat)
    requires WriterOfExtension(Lower(Extension(path))) == Some(w)
    ensures Storable(path, m) <==> Accepts(w, SaveMode(m, path))
  {
  }

  /** The writer and the mode of each accepted format, spelled out. */
  lemma FormatModes(m: Mode, f: string)
    requires SupportedFormat(f)
    ensures f == "jpg" || f == "jpeg" ==> FormatWriter(f) == Jpeg && FormatMode(m, f) == FlattenAlpha(m)
    ensures f == "png" ==> FormatWriter(f) == Png && FormatMode(m, f) == m
    ensures f == "webp" ==> FormatWriter(f) == Webp && FormatMode(m, f) == m
  {
  }

  /** An accepted conversion is stored exactly when its format's writer takes the mode `_save_image` hands it. */
  lemma ConvertStores(input: string, m: Mode, target: string)
    requires SupportedFormat(Lower(target))
    ensures ConvertFormat(input, Some(m), target).Success? <==> Accepts(FormatWriter(Lower(target)), FormatMode(m, Lower(target)))
    ensures ConvertFormat(input, Some(m), target).Success? ==>
              ConvertFormat(input, Some(m), target).value.mode == FormatMode(m, Lower(target))
  {
    var f := Lower(target);
    var path := OutputPath(input, "converted", f);
    ConvertedWriter(input, target);
    StorableByWriter(path, m, FormatWriter(f));
    assert SaveMode(m, path) == FormatMode(m, f);
  }

  /**
   * An accepted format is stored, for `jpg` and `jpeg`, exactly when the
   * JPEG writer takes the flattened mode (PA, I and F it does not); for
   * `png` the mode is kept and stored exactly when the PNG writer takes it
   * (CMYK it does not); for `webp` the mode is kept and always stored.
   */
  lemma ConvertFormatWrites(input: string, m: Mode, target: string)
    requires SupportedFormat(Lower(target))
    ensures var r := ConvertFormat(input, Some(m), target);
            && (Lower(target) == "jpg" || Lower(target) == "jpeg" ==>
                  (r.Success? <==> JpegWritable(FlattenAlpha(m))) && (r.Success? ==> r.value.mode == FlattenAlpha(m)))
            && (Lower(target) == "png" ==> (r.Success? <==> PngWritable(m)) && (r.Success? ==> r.value.mode == m))
            && (Lower(target) == "webp" ==> r.Success? && r.value.mode == m)
  {
    var r := ConvertFormat(input, Some(m), target);
    ConvertStores(input, m, target);
    FormatOutcome(r.Success?, if r.Success? then r.value.mode else m, m, Lower(target));
  }

  /** What a conversion stored exactly when its writer takes its mode means for each accepted format. */
  lemma FormatOutcome(ok: bool, mode: Mode, m: Mode, f: string)
    requires SupportedFormat(f)
    requires ok <==> Accepts(FormatWriter(f), FormatMode(m, f))
    requires ok ==> mode == FormatMode(m, f)
    ensures f == "jpg" || f == "jpeg" ==> (ok <==> JpegWritable(FlattenAlpha(m))) && (ok ==> mode == FlattenAlpha(m))
    ensures f == "png" ==> (ok <==> PngWritable(m)) && (ok ==> mode == m)
    ensures f == "webp" ==> ok && mode == m
  {
    FormatModes(m, f);
  }

  /** A stored conversion lands at `<stem>_converted.<format>`. */
  lemma ConvertFormatNames(input: string, m: Mode, target: string)
    requires SupportedFormat(Lower(target))
    ensures var r := ConvertFormat(input, Some(m), target);
            && (r.Success? ==> Stem(r.value.path) == Stem(input) + "_" + "converted")
            && (r.Success? ==> Extension(r.value.path) == "." + Lower(target))
  {
    ConvertedPathShape(input, target);
  }

  /** `int(c * y / height)`: the ramp value of row `y` for a channel reaching `c` at the bottom. */
  function Ramp(c: nat, y: nat, height: Pos): (v: nat)
    requires y <= height
    ensures v * height <= c * y < (v + 1) * height
    ensures v <= c
  {
    var a := c * y;
    MulNonNegative(c, y);
    DivNonNegative(a, height);
    ScaledDivAtMost(c, y, height);
    FloorBracket(a, height);
    a / height
  }

  /** Two floors of complementary fractions of 255 add up to 254 or 255. */
  lemma {:induction false} RampsAddUp(r: int, b: int, y: int, height: int)
    requires height > 0
    requires r * height <= 255 * y < (r + 1) * height
    requires b * height <= 255 * (height - y) < (b + 1) * height
    ensures r + b == 254 || r + b == 255
  {
    assert (r + b) * height == r * height + b * height;
    assert (r + b + 2) * height == (r + 1) * height + (b + 1) * height;
    assert 255 * y + 255 * (height - y) == 255 * height;
    MulLeCancel(r + b, 255, height);
    MulLessCancel(254, r + b + 1, height + 0) by {
      assert (r + b + 1) * height == (r + b + 2) * height - height;
    }
  }

  /**
   * The colour of row `y` of `_create_gradient_background`: red rising to
   * 255, green to 128, blue falling from 255; every channel is a channel
   * value and red and blue always add up to 254 or 255.
   */
  function GradientColour(y: nat, height: Pos): (c: Colour)
    requires y < height
    ensures c[0] * height <= 255 * y < (c[0] + 1) * height
    ensures c[1] * height <= 128 * y < (c[1] + 1) * height
    ensures c[2] * height <= 255 * (height - y) < (c[2] + 1) * height
    ensures c[0] as int + c[2] as int == 254 || c[0] as int + c[2] as int == 255
  {
    var r := Ramp(255, y, height);
    var g := Ramp(128, y, height);
    var b := Ramp(255, height - y, height);
    RampsAddUp(r, b, y, height);
    [r, g, b]
  }

  /** Going down the image, red and green never decrease and blue never increases. */
  lemma GradientMonotone(y1: nat, y2: nat, height: Pos)
    requires y1 <= y2 < height
    ensures GradientColour(y1, height)[0] <= GradientColour(y2, height)[0]
    ensures GradientColour(y1, height)[1] <= GradientColour(y2, height)[1]
    ensures GradientColour(y1, height)[2] >= GradientColour(y2, height)[2]
  {
    DivMonotone(255 * y1, 255 * y2, height);
    DivMonotone(128 * y1, 128 * y2, height);
    DivMonotone(255 * (height - y2), 255 * (height - y1), height);
  }

  /** The top row is pure blue and the ramp ends one step short of red at the bottom row. */
  lemma GradientEnds(height: Pos)
    ensures GradientColour(0, height) == [0, 0, 255]
  {
    DivUnique(255 * height, height, 255);
  }
}
