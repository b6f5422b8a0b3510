/** Option and Result types used to model Python's `None` returns and raised exceptions. */
module Wrappers {

  datatype Option<+T> = None | Some(value: T)

  /** A computation that either produced a value or raised. */
  datatype Result<+T, +E> = Success(value: T) | Failure(error: E)
}

/** The exceptions the image processors raise on purpose, by arithmetic, or from Pillow. */
module Errors {
  import opened Imaging

  datatype Error =
    | ZeroDivisionError                       // a Python `/` by zero
    | UnknownCropMode(mode: string)           // ValueError("Unknown crop mode: ...")
    | UnsupportedFormat(format: string)       // ValueError("Unsupported format: ...")
    | CannotOpen                              // `Image.open` raised: no such file, or not an image
    | ZeroSize                                // `resize` to a size with a side of 0
    | UnknownExtension(ext: string)           // `save` found no writer for the file name
    | CannotWrite(imageMode: Mode, writer: SaveFormat) // the writer does not take the mode

  /** The two ways `Image.save` itself raises. */
  predicate SaveError(e: Error) {
    e.UnknownExtension? || e.CannotWrite?
  }
}
