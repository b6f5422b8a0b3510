/**
 * `AIImageProcessor` of ai_apis.py: the output sizes of `resize_image` and
 * `enhance_quality_ai`, the crop boxes of `smart_crop` and `smart_crop_ai`,
 * the format dispatch of `convert_format`, `get_api_status`, and the choice
 * between a remote service and the local fallback. The pixel work of the
 * local fallbacks is in `LocalBackground`.
 */
module AiImageProcessor {
  import opened Wrappers
  import opened Errors
  import opened Arith
  import opened Geometry
  import opened Imaging
  import opened Strings
  import opened Saving

  /**
   * The size `resize_image` resizes to: the aspect fit of the image into the
   * requested box; a zero requested height raises ZeroDivisionError when the
   * two ratios are compared, and a fit that floors a side to zero makes
   * `resize` raise.
   */
  function ResizeDims(o: ImageSize, t: Dims): (r: Result<Dims, Error>)
    ensures t.height == 0 ==> r == Failure(ZeroDivisionError)
    ensures t.height > 0 ==> (r.Failure? <==> DegenerateFit(o, t))
    ensures t.height > 0 && r.Failure? ==> r.error == ZeroSize
    ensures r.Success? ==> AspectFit(o, t, r.value) && r.value.width > 0 && r.value.height > 0
    ensures r.Success? && t.width * o.height > o.width * t.height ==> r.value.height == t.height
    ensures r.Success? && t.width * o.height < o.width * t.height ==> r.value.width == t.width
  {
    if t.height == 0 then Failure(ZeroDivisionError)
    else
      FitInsideZero(o, t);
      Resize(FitInside(o, t))
  }

  /** The mode `resize_image` and `enhance_quality_ai` hand the JPEG writer: RGBA and P become RGB. */
  function JpegMode(m: Mode): (r: Mode)
    ensures r != RGBA && r != P
    ensures m != RGBA && m != P ==> r == m
  {
    if m == RGBA || m == P then RGB else m
  }

  /**
   * `resize_image` as a whole: the image must open, the size must be
   * computable, and the JPEG writer must take the mode left after RGBA and
   * P are flattened (LA, PA, I and F are not); the result is the new size.
   */
  function ResizeImage(image: Option<Picture>, t: Dims): (r: Result<Dims, Error>)
    ensures image.None? ==> r == Failure(CannotOpen)
    ensures image.Some? && ResizeDims(image.value.size, t).Failure? ==> r == ResizeDims(image.value.size, t)
    ensures image.Some? && ResizeDims(image.value.size, t).Success? ==>
              if JpegWritable(JpegMode(image.value.mode)) then r == ResizeDims(image.value.size, t)
              else r == Failure(CannotWrite(JpegMode(image.value.mode), Jpeg))
  {
    match image
    case None => Failure(CannotOpen)
    case Some(pic) =>
      var n := ResizeDims(pic.size, t);
      if n.Failure? then n
      else if JpegWritable(JpegMode(pic.mode)) then n
      else Failure(CannotWrite(JpegMode(pic.mode), Jpeg))
  }

  /** The keys of `resolution_map` other than the size-dependent `original`. */
  predicate FixedResolution(key: string) {
    key == "720p" || key == "1080p" || key == "4k" || key == "8k"
  }

  /**
   * The box `enhance_quality_ai` fits the image into: the fixed table sizes,
   * twice the image for `original`, and 1920x1080 for any other key.
   */
  function ResolutionTarget(key: string, o: ImageSize): (t: ImageSize)
    ensures key == "original" ==> t == Dims(2 * o.width, 2 * o.height)
    ensures !FixedResolution(key) && key != "original" ==> t == Dims(1920, 1080)
    ensures FixedResolution(key) ==> t.width * 9 == t.height * 16
  {
    if key == "720p" then Dims(1280, 720)
    else if key == "1080p" then Dims(1920, 1080)
    else if key == "4k" then Dims(3840, 2160)
    else if key == "8k" then Dims(7680, 4320)
    else if key == "original" then Dims(2 * o.width, 2 * o.height)
    else Dims(1920, 1080)
  }

  /**
   * The output size of `enhance_quality_ai`: the aspect fit into the
   * looked-up box, or the error `resize` raises when that floors a side to
   * zero.
   */
  function EnhanceDims(o: ImageSize, key: string): (r: Result<Dims, Error>)
    ensures r.Failure? <==> DegenerateFit(o, ResolutionTarget(key, o))
    ensures r.Failure? ==> r.error == ZeroSize
    ensures r.Success? ==> AspectFit(o, ResolutionTarget(key, o), r.value)
  {
    FitInsideZero(o, ResolutionTarget(key, o));
    Resize(FitInside(o, ResolutionTarget(key, o)))
  }

  /** `original` doubles both sides exactly: the doubled box has the image's own ratio. */
  lemma {:induction false} EnhanceOriginalDoubles(o: ImageSize)
    ensures EnhanceDims(o, "original") == Success(Dims(2 * o.width, 2 * o.height))
  {
    var t := ResolutionTarget("original", o);
    assert t.width * o.height == o.width * t.height;
    assert !DegenerateFit(o, t);
    FitInsideExactRatio(o, t);
  }

  /** An unknown key behaves exactly like `1080p`. */
  lemma UnknownResolutionIs1080p(o: ImageSize, key: string)
    requires !FixedResolution(key) && key != "original"
    ensures EnhanceDims(o, key) == EnhanceDims(o, "1080p")
  {
  }

  /**
   * The box of `smart_crop`: the centred `min(w, h)` square for `square`,
   * and the largest centred 3:4, 16:9 or golden-ratio (1.618:1) box for
   * `portrait`, `landscape` and every other style.
   */
  function CropBox(w: Pos, h: Pos, cropType: string): (b: Box)
    ensures Within(b, w, h) && Centred(b, w, h)
    ensures b.Width() == w || b.Height() == h
    ensures cropType == "square" ==> b.Width() == b.Height() == Min(w, h)
    ensures cropType == "portrait" ==> RatioCrop(b, w, h, 3, 4)
    ensures cropType == "landscape" ==> RatioCrop(b, w, h, 16, 9)
    ensures cropType != "square" && cropType != "portrait" && cropType != "landscape" ==>
              RatioCrop(b, w, h, 1618, 1000)
  {
    if cropType == "square" then CentredSquare(w, h)
    else if cropType == "portrait" then CropToRatio(w, h, 3, 4)
    else if cropType == "landscape" then CropToRatio(w, h, 16, 9)
    else CropToRatio(w, h, 1618, 1000)
  }

  /**
   * `smart_crop` as a whole: the image must open, and the crop is saved as
   * JPEG with no conversion first, so the JPEG writer must take the image's
   * own mode (RGBA, P, LA, PA, I and F it does not); the result is the box.
   */
  function SmartCrop(image: Option<Picture>, cropType: string): (r: Result<Box, Error>)
    ensures image.None? ==> r == Failure(CannotOpen)
    ensures image.Some? ==> (r.Success? <==> JpegWritable(image.value.mode))
    ensures image.Some? && !JpegWritable(image.value.mode) ==> r == Failure(CannotWrite(image.value.mode, Jpeg))
    ensures r.Success? ==> r.value == CropBox(image.value.size.width, image.value.size.height, cropType)
    ensures r.Success? ==> Within(r.value, image.value.size.width, image.value.size.height)
  {
    match image
    case None => Failure(CannotOpen)
    case Some(pic) =>
      if JpegWritable(pic.mode) then Success(CropBox(pic.size.width, pic.size.height, cropType))
      else Failure(CannotWrite(pic.mode, Jpeg))
  }

  /**
   * `int(n * 0.15)` and the like, for a percentage `p`: the floor of the
   * exact product `n * p / 100`.
   */
  function Percent(n: nat, p: nat): (k: nat)
    ensures k * 100 <= n * p < (k + 1) * 100
  {
    FloorBracket(n * p, 100);
    (n * p) / 100
  }

  /** A percentage of at most 100 is at most the whole. */
  lemma PercentAtMost(n: nat, p: nat)
    requires p <= 100
    ensures Percent(n, p) <= n
  {
    MulMonotone(p, 100, n);
    assert Percent(n, p) * 100 <= n * 100;
    MulLeCancel(Percent(n, p), n, 100);
  }

  /**
   * The box of `smart_crop_ai`: 15% cut from every edge for `smart`; the
   * centred 80%-wide, 70%-tall box starting 10% down for `face`; the centred
   * square of `min(w, h)` less a 10% padding on each side for `product`;
   * the centred `min(w, h)` square for every other style. Every box lies in
   * the image.
   */
  function CropBoxAi(w: Pos, h: Pos, style: string): (b: Box)
    ensures Within(b, w, h)
    ensures style == "smart" ==>
              && b.left == w - b.right && b.top == h - b.bottom
              && b.left * 100 <= w * 15 < (b.left + 1) * 100
              && b.top * 100 <= h * 15 < (b.top + 1) * 100
    ensures style == "face" ==>
              && CentredH(b, w)
              && b.top * 100 <= h * 10 < (b.top + 1) * 100
              && b.Width() * 100 <= w * 80 < (b.Width() + 1) * 100
              && b.Height() * 100 <= h * 70 < (b.Height() + 1) * 100
    ensures style == "product" ==>
              && Centred(b, w, h)
              && b.Width() == b.Height() == Min(w, h) - 2 * Percent(Min(w, h), 10)
    ensures style != "smart" && style != "face" && style != "product" ==>
              b == CentredSquare(w, h)
  {
    if style == "smart" then MarginBox(w, h)
    else if style == "face" then FaceBox(w, h)
    else if style == "product" then ProductBox(w, h)
    else CentredSquare(w, h)
  }

  /**
   * `smart_crop_ai` as a whole: like `smart_crop`, the image must open and
   * the JPEG writer must take the image's own mode; the result is the box.
   */
  function SmartCropAi(image: Option<Picture>, style: string): (r: Result<Box, Error>)
    ensures image.None? ==> r == Failure(CannotOpen)
    ensures image.Some? ==> (r.Success? <==> JpegWritable(image.value.mode))
    ensures image.Some? && !JpegWritable(image.value.mode) ==> r == Failure(CannotWrite(image.value.mode, Jpeg))
    ensures r.Success? ==> r.value == CropBoxAi(image.value.size.width, image.value.size.height, style)
    ensures r.Success? ==> Within(r.value, image.value.size.width, image.value.size.height)
  {
    match image
    case None => Failure(CannotOpen)
    case Some(pic) =>
      if JpegWritable(pic.mode) then Success(CropBoxAi(pic.size.width, pic.size.height, style))
      else Failure(CannotWrite(pic.mode, Jpeg))
  }

  /** The `smart` box: 15% of each side cut from both of its edges. */
  function MarginBox(w: Pos, h: Pos): (b: Box)
    ensures Within(b, w, h)
    ensures b.left == w - b.right && b.top == h - b.bottom
    ensures b.left * 100 <= w * 15 < (b.left + 1) * 100
    ensures b.top * 100 <= h * 15 < (b.top + 1) * 100
  {
    var mx := Percent(w, 15);
    var my := Percent(h, 15);
    assert mx * 2 <= w by {
      if mx * 2 > w {
        MulMonotone(w + 1, mx * 2, 50);
      }
    }
    assert my * 2 <= h by {
      if my * 2 > h {
        MulMonotone(h + 1, my * 2, 50);
      }
    }
    Box(mx, my, w - mx, h - my)
  }

  /** The `face` box: 80% wide and centred, 70% tall, starting 10% down. */
  function FaceBox(w: Pos, h: Pos): (b: Box)
    ensures Within(b, w, h) && CentredH(b, w)
    ensures b.top * 100 <= h * 10 < (b.top + 1) * 100
    ensures b.Width() * 100 <= w * 80 < (b.Width() + 1) * 100
    ensures b.Height() * 100 <= h * 70 < (b.Height() + 1) * 100
  {
    var ch := Percent(h, 70);
    var cw := Percent(w, 80);
    PercentAtMost(w, 80);
    var top := Percent(h, 10);
    assert top + ch <= h by {
      MulMonotone(10, 10, h);
      assert (top + ch) * 100 <= h * 80;
      MulMonotone(80, 100, h);
      MulLeCancel(top + ch, h, 100);
    }
    var left := CentredStart(w, cw);
    Box(left, top, left + cw, top + ch)
  }

  /** The `product` box: the centred square of `min(w, h)` less 10% of it on each side. */
  function ProductBox(w: Pos, h: Pos): (b: Box)
    ensures Within(b, w, h) && Centred(b, w, h)
    ensures b.Width() == b.Height() == Min(w, h) - 2 * Percent(Min(w, h), 10)
  {
    var m := Min(w, h);
    var pad := Percent(m, 10);
    PercentAtMost(m, 10);
    assert pad * 2 <= m by {
      if pad * 2 > m {
        MulMonotone(m + 1, pad * 2, 50);
      }
    }
    var size := m - 2 * pad;
    var left := CentredStart(w, size);
    var top := CentredStart(h, size);
    Box(left, top, left + size, top + size)
  }

  /** The formats `convert_format` accepts, compared after lower-casing. */
  predicate SupportedTarget(target: string) {
    var f := Lower(target);
    f == "jpg" || f == "jpeg" || f == "png" || f == "webp"
  }

  /** What `convert_format` writes: the mode after conversion, the writer, the file extension. */
  datatype Conversion = Conversion(mode: Mode, format: SaveFormat, extension: string)

  /**
   * `convert_format`: the image must open; then JPEG for `jpg`/`jpeg` with
   * RGBA and P turned into RGB, PNG with any mode but RGBA and RGB turned
   * into RGBA, WebP with the mode kept, and UnsupportedFormat for anything
   * else. The JPEG writer raises for a mode it does not take, and the error
   * is passed on.
   */
  function ConvertFormat(image: Option<Mode>, target: string): (r: Result<Conversion, Error>)
    ensures image.None? ==> r == Failure(CannotOpen)
    ensures image.Some? && !SupportedTarget(target) ==> r == Failure(UnsupportedFormat(target))
    ensures image.Some? && SupportedTarget(target) ==>
              (r.Success? <==> !(Lower(target) == "jpg" || Lower(target) == "jpeg") || JpegWritable(JpegMode(image.value)))
    ensures image.Some? && SupportedTarget(target) && r.Failure? ==> r.error == CannotWrite(JpegMode(image.value), Jpeg)
    ensures r.Success? ==> Accepts(r.value.format, r.value.mode)
    ensures r.Success? ==> (r.value.format == Jpeg <==> Lower(target) == "jpg" || Lower(target) == "jpeg")
    ensures r.Success? && r.value.format == Jpeg ==>
              && r.value.extension == "jpg"
              && r.value.mode != RGBA && r.value.mode != P
              && (image.value != RGBA && image.value != P ==> r.value.mode == image.value)
    ensures r.Success? && r.value.format == Png ==>
              && r.value.extension == "png"
              && (r.value.mode == RGBA || r.value.mode == RGB)
              && (image.value == RGBA || image.value == RGB ==> r.value.mode == image.value)
    ensures r.Success? && r.value.format == Webp ==> r.value.extension == "webp" && r.value.mode == image.value
  {
    match image
    case None => Failure(CannotOpen)
    case Some(m) =>
      var f := Lower(target);
      var c :=
        if f == "jpg" || f == "jpeg" then Success(Conversion(JpegMode(m), Jpeg, "jpg"))
        else if f == "png" then Success(Conversion(if m != RGBA && m != RGB then RGBA else m, Png, "png"))
        else if f == "webp" then Success(Conversion(m, Webp, "webp"))
        else Failure(UnsupportedFormat(target));
      if c.Failure? then c
      else if Accepts(c.value.format, c.value.mode) then c
      else Failure(CannotWrite(c.value.mode, c.value.format))
  }

  /** Case does not matter to `convert_format`, except in the wording of the error. */
  lemma ConvertFormatIgnoresCase(image: Option<Mode>, target: string)
    ensures SupportedTarget(Upper(target)) == SupportedTarget(target)
    ensures SupportedTarget(target) ==> ConvertFormat(image, Upper(target)) == ConvertFormat(image, target)
  {
    LowerOfUpper(target);
  }

  /** An API key counts as set when it is present and non-empty (`bool(key)`). */
  predicate KeySet(key: Option<string>) {
    key.Some? && key.value != ""
  }

  /** How a call to a remote service ended: it raised, or it returned an HTTP status. */
  datatype Response = Raised | Status(code: int)

  /** Whose output a remote-with-fallback operation returns. */
  datatype Route = Remote | LocalFallback

  /**
   * `remove_background_removebg`: the Remove.bg result is used only when a
   * key is set and the service answered 200; a missing key, another status
   * or an exception all fall back to the local method.
   */
  function RemoveBackgroundRemovebg(key: Option<string>, response: Response): (r: Route)
    ensures r == Remote <==> KeySet(key) && response == Status(200)
  {
    if !KeySet(key) then LocalFallback
    else match response
      case Raised => LocalFallback
      case Status(code) => if code == 200 then Remote else LocalFallback
  }

  /**
   * `generate_background_photoroom`: with a PhotoRoom key it first removes
   * the background (that step's own fallback raising counts as `Raised`
   * here) and uses PhotoRoom's result only on status 200; otherwise the
   * local generator runs.
   */
  function GenerateBackgroundPhotoroom(key: Option<string>, response: Response): (r: Route)
    ensures r == Remote <==> KeySet(key) && response == Status(200)
  {
    if !KeySet(key) then LocalFallback
    else if response == Status(200) then Remote
    else LocalFallback
  }

  datatype ServiceStatus = ServiceStatus(available: bool, apiKeySet: bool)

  datatype ApiStatus = ApiStatus(removebg: ServiceStatus, photoroom: ServiceStatus)

  /** `get_api_status`: each service is reported available exactly when its key is set. */
  function GetApiStatus(removebgKey: Option<string>, photoroomKey: Option<string>): (s: ApiStatus)
    ensures s.removebg.available == s.removebg.apiKeySet == KeySet(removebgKey)
    ensures s.photoroom.available == s.photoroom.apiKeySet == KeySet(photoroomKey)
  {
    ApiStatus(ServiceStatus(KeySet(removebgKey), KeySet(removebgKey)),
              ServiceStatus(KeySet(photoroomKey), KeySet(photoroomKey)))
  }

  /** A service reported unavailable is never the one whose output is returned. */
  lemma UnavailableMeansFallback(removebgKey: Option<string>, photoroomKey: Option<string>, r1: Response, r2: Response)
    ensures !GetApiStatus(removebgKey, photoroomKey).removebg.available ==>
              RemoveBackgroundRemovebg(removebgKey, r1) == LocalFallback
    ensures !GetApiStatus(removebgKey, photoroomKey).photoroom.available ==>
              GenerateBackgroundPhotoroom(photoroomKey, r2) == LocalFallback
  {
  }
}
