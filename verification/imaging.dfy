/** Pillow image modes, channel values, and the writers a processor picks. */
module Imaging {

  /** One channel value of an 8-bit image band. */
  type Byte = b: int | 0 <= b < 256

  /** An RGB colour: red, green and blue channel values. */
  type Colour = c: seq<Byte> | |c| == 3 witness [255, 255, 255]

  const White: Colour := [255, 255, 255]

  /**
   * The Pillow modes the processors test for by name; any other mode
   * (`1`, `I`, `F`, `YCbCr`, ...) is `OtherMode`.
   */
  datatype Mode = L | LA | P | PA | RGB | RGBA | CMYK | OtherMode(name: string)

  /** Modes carrying an alpha band. */
  predicate HasAlpha(m: Mode) {
    m == LA || m == PA || m == RGBA
  }

  /** The writer `save` is told to use, or `ByExtension` when it picks one from the file name. */
  datatype SaveFormat = Jpeg | Png | Webp | ByExtension

  /** Three alpha-carrying or palette modes that the JPEG writer cannot take. */
  predicate FlattenedForJpeg(m: Mode) {
    m == RGBA || m == LA || m == P
  }

  /**
   * The `image.convert('RGB')` guard used before writing a JPEG in most
   * variants: RGBA, LA and P become RGB, every other mode is kept, PA, I and
   * F included, although the JPEG writer refuses those as well.
   */
  function FlattenAlpha(m: Mode): (r: Mode)
    ensures !FlattenedForJpeg(r)
    ensures HasAlpha(r) ==> r == PA
    ensures FlattenedForJpeg(m) <==> r != m
  {
    if FlattenedForJpeg(m) then RGB else m
  }
}
