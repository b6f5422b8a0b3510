/**
 * `SimpleImageProcessor` of deepseek_python_20251015_fc208f.py, the
 * dependency-free stand-in: any exception is swallowed and answered with the
 * input path, every crop mode takes the centred square, and conversion
 * renames the output file to the requested format.
 */
module FallbackImageProcessor {
  import opened Wrappers
  import opened Geometry
  import opened Imaging
  import opened Strings
  import opened Paths
  import opened Saving

  /** The suffix `convert_format` gives its output. */
  const ConvertedSuffix: string := "converted"

  /** `_get_output_path`: the input's own extension always carries over. */
  function OutputPath(input: string, suffix: string): string {
    Paths.OutputPath(input, suffix, Extension(input))
  }

  /**
   * What an operation returns: the file it wrote together with what was
   * written (a crop box, a mode), or the input path itself when opening,
   * processing or saving raised.
   */
  datatype Outcome<T> = Written(path: string, content: T) | Kept(path: string)

  /**
   * `smart_crop`: the centred `min(w, h)` square whatever the mode, saved in
   * the image's own mode under the suffix `cropped_<mode>` with the writer
   * of the input's extension; the input path when the image cannot be opened
   * (`image` is `None`) or the save raises.
   */
  function SmartCrop(input: string, mode: string, image: Option<Picture>): (r: Outcome<Box>)
    ensures r.Kept? <==> image.None? || !Saves(OutputPath(input, "cropped_" + mode), ByExtension, image.value.mode)
    ensures r.Kept? ==> r.path == input
    ensures r.Written? ==>
              && r.path == OutputPath(input, "cropped_" + mode)
              && Within(r.content, image.value.size.width, image.value.size.height)
              && Centred(r.content, image.value.size.width, image.value.size.height)
              && r.content.Width() == r.content.Height() == Min(image.value.size.width, image.value.size.height)
  {
    match image
    case None => Kept(input)
    case Some(pic) =>
      var path := OutputPath(input, "cropped_" + mode);
      if Saves(path, ByExtension, pic.mode) then Written(path, CentredSquare(pic.size.width, pic.size.height))
      else Kept(input)
  }

  /**
   * A file of one leading dot and a dot-free rest has no extension, and
   * neither has its crop name: the save raises and the input comes back.
   */
  lemma {:induction false} LeadingDotFileIsNotCropped(dir: string, rest: string, mode: string, pic: Picture)
    requires Lacks(rest, '.') && Lacks(rest, '/') && Lacks(mode, '.') && Lacks(mode, '/')
    ensures SmartCrop(dir + "/" + ("." + rest), mode, Some(pic)) == Kept(dir + "/" + ("." + rest))
  {
    var input := dir + "/" + ("." + rest);
    LeadingDotName(dir, rest);
    var suffix := "cropped_" + mode;
    var tail := rest + "_" + suffix;
    LacksConcat("cropped_", mode, '.');
    LacksConcat("cropped_", mode, '/');
    assert Lacks("cropped_", '.') && Lacks("cropped_", '/');
    LacksConcat(rest, "_", '.');
    LacksConcat(rest, "_", '/');
    LacksConcat(rest + "_", suffix, '.');
    LacksConcat(rest + "_", suffix, '/');
    assert "." + rest + "_" + suffix + [] == "." + tail;
    assert OutputPath(input, suffix) == ProcessedDir + "/" + ("." + tail);
    LeadingDotName(ProcessedDir, tail);
    NoExtensionNoSave(OutputPath(input, suffix), pic.mode);
  }

  /** Two modes that both write cut the same box: only the file name mentions the mode. */
  lemma {:induction false} SmartCropIgnoresMode(input: string, mode1: string, mode2: string, image: Option<Picture>)
    requires SmartCrop(input, mode1, image).Written? && SmartCrop(input, mode2, image).Written?
    ensures SmartCrop(input, mode1, image).content == SmartCrop(input, mode2, image).content
  {
    var w, h := image.value.size.width, image.value.size.height;
    var b1, b2 := SmartCrop(input, mode1, image).content, SmartCrop(input, mode2, image).content;
    CentredStartUnique(w, b1.left, b1.Width());
    CentredStartUnique(w, b2.left, b2.Width());
    CentredStartUnique(h, b1.top, b1.Height());
    CentredStartUnique(h, b2.top, b2.Height());
  }

  /** The output name of `convert_format` as written: the `_get_output_path` name cut at its last dot, then `.<format>`. */
  function ConvertedPathAsWritten(input: string, format: string): string {
    BeforeLastDot(OutputPath(input, ConvertedSuffix)) + ("." + format)
  }

  /** The output name evidently intended: `processed/<stem>_converted.<format>`. */
  function ConvertedPath(input: string, format: string): (r: string)
    ensures r == ProcessedDir + "/" + (Stem(input) + "_" + ConvertedSuffix + ("." + format))
  {
    Paths.OutputPath(input, ConvertedSuffix, "." + format)
  }

  /** The intended name reads back as the converted stem with the format as its extension. */
  lemma ConvertedPathRoundTrip(input: string, format: string)
    requires Lacks(format, '/') && Lacks(format, '.')
    ensures Stem(ConvertedPath(input, format)) == Stem(input) + "_" + ConvertedSuffix
    ensures Extension(ConvertedPath(input, format)) == "." + format
  {
    Paths.OutputPathRoundTrip(input, ConvertedSuffix, format);
  }

  /** Cutting at the last dot removes exactly a non-empty extension as `splitext` returns it. */
  lemma CutAtExtension(q: string, e: string)
    requires e != [] && WellFormedExtension(e)
    ensures BeforeLastDot(q + e) == q
  {
    var x := e[1..];
    assert q + e == q + ['.'] + x;
    LastIndexOfAfter(q, '.', x);
    assert (q + e)[..|q|] == q;
  }

  /** The converted prefix `processed/<stem>_converted` holds a dot exactly when the stem does. */
  lemma ConvertedPrefixDots(stem: string)
    ensures Lacks(ProcessedDir + "/" + (stem + "_" + ConvertedSuffix), '.') <==> Lacks(stem, '.')
  {
    LacksConcat(ProcessedDir + "/", stem + "_" + ConvertedSuffix, '.');
    LacksConcat(stem, "_", '.');
    LacksConcat(stem + "_", ConvertedSuffix, '.');
    assert Lacks(ProcessedDir + "/", '.');
    assert Lacks("_", '.');
    assert Lacks(ConvertedSuffix, '.');
  }

  /** Cutting `q + e` at its last dot and appending `.<format>` gives `q.<format>` exactly when the cut removes `e`. */
  lemma {:induction false} CutThenAppend(q: string, e: string, format: string)
    requires WellFormedExtension(e)
    ensures (BeforeLastDot(q + e) + ("." + format) == q + ("." + format)) <==> (e != [] || Lacks(q, '.'))
  {
    if e != [] {
      CutAtExtension(q, e);
    } else {
      assert q + e == q;
      if !Lacks(q, '.') {
        assert |BeforeLastDot(q) + ("." + format)| < |q + ("." + format)|;
      }
    }
  }

  /**
   * The written name is the intended one exactly when the input has an
   * extension for the cut to remove, or its stem holds no dot the cut could
   * land on instead.
   */
  lemma ConvertedPathAgreement(input: string, format: string)
    ensures (ConvertedPathAsWritten(input, format) == ConvertedPath(input, format))
              <==> (Extension(input) != [] || Lacks(Stem(input), '.'))
  {
    var dir, name := ProcessedDir + "/", Stem(input) + "_" + ConvertedSuffix;
    var q := dir + name;
    Regroup(dir, name, Extension(input));
    Regroup(dir, name, "." + format);
    ConvertedPrefixDots(Stem(input));
    CutThenAppend(q, Extension(input), format);
  }

  /** A name of one leading dot and then neither dot nor slash is all stem: a leading dot does not start an extension. */
  lemma {:induction false} LeadingDotName(dir: string, rest: string)
    requires Lacks(rest, '.') && Lacks(rest, '/')
    ensures Stem(dir + "/" + ("." + rest)) == "." + rest
    ensures Extension(dir + "/" + ("." + rest)) == []
  {
    var name := "." + rest;
    LacksConcat(".", rest, '/');
    BasenameOfJoined(dir, name);
    LastIndexOfAbsent(name, '/');
    assert name == [] + ['.'] + rest;
    LastIndexOfAfter([], '.', rest);
    assert SplitExt(name) == (name, []);
  }

  /**
   * Converting such a file: the only dot of the `_get_output_path` name is
   * the leading one, so the cut keeps just `processed/` and the name is lost.
   */
  lemma {:induction false} LeadingDotConvertedAsWritten(dir: string, rest: string, format: string)
    requires Lacks(rest, '.') && Lacks(rest, '/')
    ensures ConvertedPathAsWritten(dir + "/" + ("." + rest), format) == ProcessedDir + "/" + ("." + format)
  {
    var input := dir + "/" + ("." + rest);
    LeadingDotName(dir, rest);
    var d, tail := ProcessedDir + "/", rest + "_" + ConvertedSuffix;
    var out := OutputPath(input, ConvertedSuffix);
    assert out == d + ("." + rest + "_" + ConvertedSuffix + []);
    assert "." + rest + "_" + ConvertedSuffix + [] == ['.'] + tail;
    assert out == d + ['.'] + tail;
    LacksConcat(rest, "_", '.');
    LacksConcat(rest + "_", ConvertedSuffix, '.');
    LastIndexOfAfter(d, '.', tail);
    assert BeforeLastDot(out) == d;
  }

  /** The sample file of the finding: `uploads/.hidden`, converted to `png`. */
  const HiddenName: string := "hidden"
  const HiddenUpload: string := "uploads" + "/" + ("." + HiddenName)
  const PngFormat: string := "png"

  /** `uploads/.hidden` has the stem `.hidden` and no extension. */
  lemma DotFileParts()
    ensures Stem(HiddenUpload) == "." + HiddenName && Extension(HiddenUpload) == []
  {
    LeadingDotName("uploads", HiddenName);
  }

  /** The name `convert_format` writes for `uploads/.hidden` is `processed/.png`: the stem is lost. */
  lemma DotFileLosesItsName()
    ensures ConvertedPathAsWritten(HiddenUpload, PngFormat) == ProcessedDir + "/" + ("." + PngFormat)
  {
    LeadingDotConvertedAsWritten("uploads", HiddenName, PngFormat);
  }

  /** The intended name for `uploads/.hidden` is `processed/.hidden_converted.png`. */
  lemma DotFileIntendedName()
    ensures ConvertedPath(HiddenUpload, PngFormat) == ProcessedDir + "/" + ("." + HiddenName + "_" + ConvertedSuffix + ("." + PngFormat))
  {
    DotFileParts();
  }

  /** The mode `convert_format` saves: flattened only for the exact spelling `jpeg`, in any case. */
  function ConvertMode(m: Mode, format: string): (r: Mode)
    ensures r != m <==> Lower(format) == "jpeg" && FlattenedForJpeg(m)
    ensures Lower(format) == "jpeg" ==> !FlattenedForJpeg(r)
  {
    if Lower(format) == "jpeg" then FlattenAlpha(m) else m
  }

  /**
   * `convert_format`: the image is saved in its (possibly flattened) mode
   * under the cut-and-appended name, with the writer of that name's
   * extension; the input path comes back when the image cannot be opened
   * (`image` is `None`) or the save raises.
   */
  function ConvertFormat(input: string, image: Option<Mode>, format: string): (r: Outcome<Mode>)
    ensures r.Kept? <==> image.None? || !Saves(ConvertedPathAsWritten(input, format), ByExtension, ConvertMode(image.value, format))
    ensures r.Kept? ==> r.path == input
    ensures r.Written? ==> r.path == ConvertedPathAsWritten(input, format) && r.content == ConvertMode(image.value, format)
  {
    match image
    case None => Kept(input)
    case Some(m) =>
      var path, md := ConvertedPathAsWritten(input, format), ConvertMode(m, format);
      if Saves(path, ByExtension, md) then Written(path, md) else Kept(input)
  }

  /** `convert_format` with the intended name `processed/<stem>_converted.<format>`. */
  function ConvertFormatIntended(input: string, image: Option<Mode>, format: string): (r: Outcome<Mode>)
    ensures r.Kept? <==> image.None? || !Saves(ConvertedPath(input, format), ByExtension, ConvertMode(image.value, format))
    ensures r.Kept? ==> r.path == input
    ensures r.Written? ==> r.path == ConvertedPath(input, format) && r.content == ConvertMode(image.value, format)
  {
    match image
    case None => Kept(input)
    case Some(m) =>
      var path, md := ConvertedPath(input, format), ConvertMode(m, format);
      if Saves(path, ByExtension, md) then Written(path, md) else Kept(input)
  }

  /** The two agree on every input whose written name is the intended one. */
  lemma ConvertFormatAgreement(input: string, image: Option<Mode>, format: string)
    requires Extension(input) != [] || Lacks(Stem(input), '.')
    ensures ConvertFormat(input, image, format) == ConvertFormatIntended(input, image, format)
  {
    ConvertedPathAgreement(input, format);
  }

  /**
   * With the intended name the writer is the one of `.<format>`: a format
   * with a registered writer that takes the converted mode is written.
   */
  lemma IntendedConvertWrites(input: string, m: Mode, format: string, w: SaveFormat)
    requires Lacks(format, '/') && Lacks(format, '.')
    requires WriterOfExtension(Lower("." + format)) == Some(w) && Accepts(w, ConvertMode(m, format))
    ensures ConvertFormatIntended(input, Some(m), format) == Written(ConvertedPath(input, format), ConvertMode(m, format))
  {
    ConvertedPathRoundTrip(input, format);
  }

  /**
   * Converting a file of one leading dot and a dot-free rest, as written: the
   * name `processed/.<format>` has no extension, the save raises and the
   * input comes back.
   */
  lemma {:induction false} LeadingDotFileIsNotConverted(dir: string, rest: string, m: Mode, format: string)
    requires Lacks(rest, '.') && Lacks(rest, '/') && Lacks(format, '.') && Lacks(format, '/')
    ensures ConvertFormat(dir + "/" + ("." + rest), Some(m), format) == Kept(dir + "/" + ("." + rest))
  {
    var input := dir + "/" + ("." + rest);
    var path := ConvertedPathAsWritten(input, format);
    assert Extension(path) == [] by {
      LeadingDotConvertedAsWritten(dir, rest, format);
      assert path == ProcessedDir + "/" + ("." + format);
      LeadingDotName(ProcessedDir, format);
    }
    NoExtensionKept(input, m, format);
  }

  /** `uploads/.hidden` to png as written: the input comes back unconverted. */
  lemma DotFileIsNotConverted(m: Mode)
    ensures ConvertFormat(HiddenUpload, Some(m), PngFormat) == Kept(HiddenUpload)
  {
    assert Lacks(HiddenName, '.') && Lacks(HiddenName, '/');
    assert Lacks(PngFormat, '.') && Lacks(PngFormat, '/');
    LeadingDotFileIsNotConverted("uploads", HiddenName, m, PngFormat);
  }

  /** The same conversion with the intended name writes `processed/.hidden_converted.png` for every mode PNG takes. */
  lemma DotFileConvertedAsIntended(m: Mode)
    requires PngWritable(m)
    ensures ConvertFormatIntended(HiddenUpload, Some(m), PngFormat) == Written(ConvertedPath(HiddenUpload, PngFormat), m)
  {
    assert Lower("." + PngFormat) == ".png";
    assert ConvertMode(m, PngFormat) == m;
    IntendedConvertWrites(HiddenUpload, m, PngFormat, Png);
  }

  /**
   * The spelling `jpg` is not flattened: an RGBA image converted to `jpg`
   * from a file with an extension reaches the JPEG writer unflattened, which
   * refuses it, and the input comes back.
   */
  lemma JpgKeepsAlphaAndFails(input: string, format: string)
    requires Extension(input) != [] && Lower(format) == "jpg"
    ensures ConvertFormat(input, Some(RGBA), format) == Kept(input)
  {
    var path := ConvertedPathAsWritten(input, format);
    JpgExtension(input, format);
    LowerDotJpg(format);
    JpgSpellingIsPlain(format);
    JpegNameRefusesAlpha(path);
    KeptWhenUnsaved(input, RGBA, format);
  }

  /** Such a file keeps its name: the converted name's extension is `.` and the format as spelt. */
  lemma JpgExtension(input: string, format: string)
    requires Extension(input) != [] && Lower(format) == "jpg"
    ensures Extension(ConvertedPathAsWritten(input, format)) == "." + format
  {
    JpgSpellingIsPlain(format);
    ConvertedPathAgreement(input, format);
    ConvertedPathRoundTrip(input, format);
  }

  /** The extension lowers to `.jpg`. */
  lemma LowerDotJpg(format: string)
    requires Lower(format) == "jpg"
    ensures Lower("." + format) == ".jpg"
  {
    LowerConcat(".", format);
    assert Lower(".") == ".";
  }

  /** A format lowering to `jpg` holds neither dot nor slash and is not flattened. */
  lemma JpgSpellingIsPlain(format: string)
    requires Lower(format) == "jpg"
    ensures Lacks(format, '.') && Lacks(format, '/')
    ensures ConvertMode(RGBA, format) == RGBA
  {
    forall j | 0 <= j < |format|
      ensures format[j] != '.' && format[j] != '/'
    {
      assert LowerChar(format[j]) == Lower(format)[j];
    }
  }

  /** The JPEG writer of a `.jpg` name refuses RGBA. */
  lemma JpegNameRefusesAlpha(path: string)
    requires Lower(Extension(path)) == ".jpg"
    ensures !Saves(path, ByExtension, RGBA)
  {
    assert WriterOfExtension(".jpg") == Some(Jpeg);
    ExtensionChoosesWriter(path, RGBA, Jpeg);
  }

  /** A converted name without an extension has no writer: the input comes back. */
  lemma NoExtensionKept(input: string, m: Mode, format: string)
    requires Extension(ConvertedPathAsWritten(input, format)) == []
    ensures ConvertFormat(input, Some(m), format) == Kept(input)
  {
    NoExtensionNoSave(ConvertedPathAsWritten(input, format), ConvertMode(m, format));
    KeptWhenUnsaved(input, m, format);
  }

  /** A converted image whose save raises gives the input back. */
  lemma KeptWhenUnsaved(input: string, m: Mode, format: string)
    requires !Saves(ConvertedPathAsWritten(input, format), ByExtension, ConvertMode(m, format))
    ensures ConvertFormat(input, Some(m), format) == Kept(input)
  {
  }
}
