/**
 * What Pillow's `Image.open` and `Image.save` decide for the processors: an
 * opened image is its size and mode, `save` picks its writer by name or by
 * the file's extension, and each writer takes only some modes.
 */
module Saving {
  import opened Wrappers
  import opened Errors
  import opened Imaging
  import opened Strings
  import opened Geometry
  import opened Paths

  /** An image `Image.open` returned: its size and its mode. */
  datatype Picture = Picture(size: ImageSize, mode: Mode)

  /** `resize` to a new size: ValueError for a side of zero, otherwise that size. */
  function Resize(n: Dims): (r: Result<Dims, Error>)
    ensures r.Success? <==> n.width > 0 && n.height > 0
    ensures r.Success? ==> r.value == n
    ensures r.Failure? ==> r.error == ZeroSize
  {
    if n.width == 0 || n.height == 0 then Failure(ZeroSize) else Success(n)
  }

  /** The writer registered for a lower-cased extension, among the JPEG, PNG and WebP writers. */
  function WriterOfExtension(ext: string): (w: Option<SaveFormat>)
    ensures w.Some? ==> w.value != ByExtension
    ensures w == Some(Jpeg) <==> ext == ".jpg" || ext == ".jpeg" || ext == ".jpe" || ext == ".jfif"
    ensures w == Some(Png) <==> ext == ".png" || ext == ".apng"
    ensures w == Some(Webp) <==> ext == ".webp"
  {
    if ext == ".jpg" || ext == ".jpeg" || ext == ".jpe" || ext == ".jfif" then Some(Jpeg)
    else if ext == ".png" || ext == ".apng" then Some(Png)
    else if ext == ".webp" then Some(Webp)
    else None
  }

  /** Modes the JPEG writer takes: `1`, L, RGB, RGBX, CMYK and YCbCr. */
  predicate JpegWritable(m: Mode) {
    m == L || m == RGB || m == CMYK || (m.OtherMode? && (m.name == "1" || m.name == "RGBX" || m.name == "YCbCr"))
  }

  /** Modes the PNG writer takes: `1`, L, LA, P, RGB, RGBA and the integer modes I, I;16 and I;16B. */
  predicate PngWritable(m: Mode) {
    || m == L || m == LA || m == P || m == RGB || m == RGBA
    || (m.OtherMode? && (m.name == "1" || m.name == "I" || m.name == "I;16" || m.name == "I;16B"))
  }

  /** Whether a writer takes a mode; WebP converts any mode itself. */
  predicate Accepts(w: SaveFormat, m: Mode) {
    match w
    case Jpeg => JpegWritable(m)
    case Png => PngWritable(m)
    case Webp => true
    case ByExtension => false
  }

  /**
   * `image.save(path)` with the writer `named`, or with none (`ByExtension`):
   * without one, the writer is the one registered for the lower-cased
   * extension of the name, and ValueError is raised when there is none; the
   * writer then raises OSError for a mode it does not take.
   */
  function Save(path: string, named: SaveFormat, m: Mode): (r: Result<SaveFormat, Error>)
    ensures r.Success? ==> r.value != ByExtension && Accepts(r.value, m)
    ensures r.Failure? ==> SaveError(r.error)
    ensures named != ByExtension ==> (r.Success? <==> Accepts(named, m)) && (r.Success? ==> r.value == named)
    ensures named == ByExtension ==>
              match WriterOfExtension(Lower(Extension(path)))
              case None => r == Failure(UnknownExtension(Extension(path)))
              case Some(w) => r.Success? <==> Accepts(w, m)
    ensures named == ByExtension && r.Success? ==> WriterOfExtension(Lower(Extension(path))) == Some(r.value)
  {
    var w := if named != ByExtension then Some(named) else WriterOfExtension(Lower(Extension(path)));
    match w
    case None => Failure(UnknownExtension(Extension(path)))
    case Some(writer) => if Accepts(writer, m) then Success(writer) else Failure(CannotWrite(m, writer))
  }

  /** A save of mode `m` to `path` goes through. */
  predicate Saves(path: string, named: SaveFormat, m: Mode) {
    Save(path, named, m).Success?
  }

  /**
   * The JPEG flattening of `FlattenAlpha` makes a mode writable exactly when
   * it was one of the three flattened modes or writable already: PA and the
   * integer and float modes I and F pass through unchanged and the writer
   * refuses them.
   */
  lemma FlattenAlphaForJpeg(m: Mode)
    ensures JpegWritable(FlattenAlpha(m)) <==> FlattenedForJpeg(m) || JpegWritable(m)
    ensures !JpegWritable(FlattenAlpha(PA))
    ensures !JpegWritable(FlattenAlpha(OtherMode("I"))) && !JpegWritable(FlattenAlpha(OtherMode("F")))
  {
  }

  /** A name without an extension has no writer: saving to it raises whatever the mode. */
  lemma NoExtensionNoSave(path: string, m: Mode)
    requires Extension(path) == []
    ensures Save(path, ByExtension, m) == Failure(UnknownExtension([]))
  {
    assert Lower([]) == [];
    assert WriterOfExtension([]) == None;
  }

  /** With a registered writer for the extension, the save goes through exactly when that writer takes the mode. */
  lemma ExtensionChoosesWriter(path: string, m: Mode, w: SaveFormat)
    requires WriterOfExtension(Lower(Extension(path))) == Some(w)
    ensures Saves(path, ByExtension, m) <==> Accepts(w, m)
  {
  }
}
