/**
 * The local fallbacks of ai_apis.py: the background matting of
 * `remove_background_local` (corner-colour averaging, then a per-pixel
 * alpha decision) and the channel clamp of `generate_background_local`.
 */
module LocalBackground {
  import opened Arith
  import opened Imaging

  /** What `getpixel` returns: a bare level for a single-band image, a tuple of bands otherwise. */
  datatype Pixel = Level(level: Byte) | Bands(bands: seq<Byte>)

  /** The corner test: a level, or a tuple of at least three bands. */
  predicate UsableCorner(p: Pixel) {
    p.Level? || |p.bands| >= 3
  }

  predicate UsableCorners(cs: seq<Pixel>) {
    forall i :: 0 <= i < |cs| ==> UsableCorner(cs[i])
  }

  /** How many corners are tuples. */
  function TupleCount(cs: seq<Pixel>): (n: nat)
    ensures n <= |cs|
    ensures |cs| > 0 && cs[0].Bands? ==> n > 0
  {
    if cs == [] then 0 else (if cs[0].Bands? then 1 else 0) + TupleCount(cs[1..])
  }

  /** Channel `j` summed over the tuple corners only. */
  function ChannelSum(cs: seq<Pixel>, j: nat): (s: nat)
    requires j < 3 && UsableCorners(cs)
    ensures s <= 255 * TupleCount(cs)
  {
    if cs == [] then 0
    else
      assert UsableCorner(cs[0]);
      (if cs[0].Bands? then cs[0].bands[j] else 0) + ChannelSum(cs[1..], j)
  }

  /** Floor average of channel `j` over the tuple corners. */
  function ChannelAverage(cs: seq<Pixel>, j: nat): (a: Byte)
    requires j < 3 && UsableCorners(cs) && TupleCount(cs) > 0
    ensures a * TupleCount(cs) <= ChannelSum(cs, j) < (a + 1) * TupleCount(cs)
  {
    var n := TupleCount(cs);
    FloorBracket(ChannelSum(cs, j), n);
    MulLeCancel(ChannelSum(cs, j) / n, 255, n);
    ChannelSum(cs, j) / n
  }

  /**
   * The background colour estimated from the four corners: the grey of the
   * first corner when it is a level, otherwise the per-channel floor
   * average of the tuple corners; white when some corner fails the test.
   */
  function BackgroundColour(corners: seq<Pixel>): (bg: Colour)
    requires |corners| == 4
    ensures !UsableCorners(corners) ==> bg == White
    ensures UsableCorners(corners) && corners[0].Level? ==>
              bg == [corners[0].level, corners[0].level, corners[0].level]
    ensures UsableCorners(corners) && corners[0].Bands? ==>
              forall j :: 0 <= j < 3 ==>
                bg[j] * TupleCount(corners) <= ChannelSum(corners, j) < (bg[j] + 1) * TupleCount(corners)
  {
    if !UsableCorners(corners) then White
    else if corners[0].Level? then [corners[0].level, corners[0].level, corners[0].level]
    else [ChannelAverage(corners, 0), ChannelAverage(corners, 1), ChannelAverage(corners, 2)]
  }

  /** Four tuple corners of one colour give that colour back. */
  lemma {:induction false} UniformCornersGiveTheirColour(corners: seq<Pixel>, c: Colour)
    requires |corners| == 4
    requires forall i :: 0 <= i < 4 ==> corners[i].Bands? && |corners[i].bands| >= 3 && corners[i].bands[..3] == c
    ensures BackgroundColour(corners) == c
  {
    assert UsableCorners(corners);
    var c1, c2, c3 := corners[1..], corners[2..], corners[3..];
    assert c1[1..] == c2 && c2[1..] == c3 && c3[1..] == [];
    assert c1[0] == corners[1] && c2[0] == corners[2] && c3[0] == corners[3];
    assert TupleCount(c3) == 1;
    assert TupleCount(c2) == 2;
    assert TupleCount(c1) == 3;
    assert TupleCount(corners) == 4;
    forall j | 0 <= j < 3
      ensures ChannelSum(corners, j) == 4 * (c[j] as int)
    {
      assert corners[0].bands[..3][j] == c[j];
      assert corners[1].bands[..3][j] == c[j];
      assert corners[2].bands[..3][j] == c[j];
      assert corners[3].bands[..3][j] == c[j];
      assert ChannelSum(c3, j) == c[j] as int;
      assert ChannelSum(c2, j) == 2 * (c[j] as int);
      assert ChannelSum(c1, j) == 3 * (c[j] as int);
    }
    var bg := BackgroundColour(corners);
    forall j | 0 <= j < 3
      ensures bg[j] == c[j]
    {
      DivUnique(ChannelSum(corners, j), 4, c[j]);
      DivUnique(ChannelSum(corners, j), 4, bg[j]);
    }
  }

  /** The per-channel distance below which a pixel counts as background. */
  const Threshold: int := 40

  function Abs(x: int): nat {
    if x < 0 then -x else x
  }

  /** Red, green and blue are each closer than the threshold to the background. */
  predicate NearBackground(item: seq<Byte>, bg: Colour)
    requires |item| >= 3
  {
    Abs(item[0] as int - bg[0] as int) < Threshold
    && Abs(item[1] as int - bg[1] as int) < Threshold
    && Abs(item[2] as int - bg[2] as int) < Threshold
  }

  /**
   * The new value of one pixel: an RGB or RGBA pixel keeps its colour and
   * comes out RGBA, transparent when it is near the background and
   * otherwise as it was (RGBA) or fully opaque (RGB); a pixel of fewer than
   * three bands is copied unchanged.
   */
  function MattePixel(item: seq<Byte>, bg: Colour): (out: seq<Byte>)
    ensures |item| < 3 ==> out == item
    ensures |item| >= 3 ==> |out| >= 4 && out[..3] == item[..3]
    ensures |item| == 3 || |item| == 4 ==>
              |out| == 4 && (out[3] == 0 <==> NearBackground(item, bg) || (|item| == 4 && item[3] == 0))
    ensures |item| == 4 && !NearBackground(item, bg) ==> out == item
    ensures |item| == 3 && !NearBackground(item, bg) ==> out[3] == 255
  {
    if |item| >= 3 then
      if NearBackground(item, bg) then [item[0], item[1], item[2], 0]
      else if |item| == 4 then item
      else item + [255]
    else item
  }

  /** Matting an RGB or RGBA pixel a second time against the same background changes nothing. */
  lemma MattePixelIdempotent(item: seq<Byte>, bg: Colour)
    requires |item| == 3 || |item| == 4
    ensures MattePixel(MattePixel(item, bg), bg) == MattePixel(item, bg)
  {
    var once := MattePixel(item, bg);
    assert once[..3] == item[..3];
    assert once[0] == item[0] && once[1] == item[1] && once[2] == item[2];
  }

  /** The pixel loop: one output pixel per input pixel, in order. */
  method MattePixels(data: seq<seq<Byte>>, bg: Colour) returns (out: seq<seq<Byte>>)
    ensures |out| == |data|
    ensures forall i :: 0 <= i < |data| ==> out[i] == MattePixel(data[i], bg)
  {
    out := [];
    var k := 0;
    while k < |data|
      invariant k <= |data|
      invariant |out| == k
      invariant forall i :: 0 <= i < k ==> out[i] == MattePixel(data[i], bg)
    {
      out := out + [MattePixel(data[k], bg)];
      k := k + 1;
    }
  }

  /** An image after `convert("RGBA")`: `width * height` band tuples, row after row. */
  datatype Image = Image(width: nat, height: nat, data: seq<seq<Byte>>)

  predicate ValidImage(img: Image) {
    img.width > 0 && img.height > 0 && |img.data| == img.width * img.height
  }

  /** Row-major index of pixel `(x, y)`. */
  function PixelIndex(img: Image, x: nat, y: nat): (i: nat)
    requires ValidImage(img) && x < img.width && y < img.height
    ensures i < |img.data|
  {
    MulMonotone(y + 1, img.height, img.width);
    y * img.width + x
  }

  /** `getpixel((x, y))` on a tuple image. */
  function GetPixel(img: Image, x: nat, y: nat): Pixel
    requires ValidImage(img) && x < img.width && y < img.height
  {
    Bands(img.data[PixelIndex(img, x, y)])
  }

  /** The top-left, top-right, bottom-left and bottom-right pixels. */
  function Corners(img: Image): (cs: seq<Pixel>)
    requires ValidImage(img)
    ensures |cs| == 4
  {
    var w := img.width;
    var h := img.height;
    [GetPixel(img, 0, 0), GetPixel(img, w - 1, 0), GetPixel(img, 0, h - 1), GetPixel(img, w - 1, h - 1)]
  }

  /**
   * `remove_background_local` after the RGBA conversion: estimate the
   * background from the corners and matte every pixel against it. The
   * image keeps its size and pixel count.
   */
  method RemoveBackgroundLocal(img: Image) returns (out: Image)
    requires ValidImage(img)
    ensures ValidImage(out) && out.width == img.width && out.height == img.height
    ensures forall i :: 0 <= i < |img.data| ==>
              out.data[i] == MattePixel(img.data[i], BackgroundColour(Corners(img)))
  {
    var bg := BackgroundColour(Corners(img));
    var data := MattePixels(img.data, bg);
    out := Image(img.width, img.height, data);
  }

  /** `max(0, min(255, v))`: the nearest channel value. */
  function Clamp(v: int): (c: Byte)
    ensures 0 <= v <= 255 ==> c == v
    ensures v < 0 ==> c == 0
    ensures v > 255 ==> c == 255
  {
    if v < 0 then 0 else if v > 255 then 255 else v
  }

  /** Clamping keeps order and is the identity on channel values. */
  lemma ClampMonotone(a: int, b: int)
    requires a <= b
    ensures Clamp(a) <= Clamp(b)
    ensures Clamp(Clamp(a)) == Clamp(a)
  {
  }
}
