/**
 * The three aspect-preserving `resize_image` variants compared: written with
 * different ratio tests (`tw/th` against `ow/oh` either way round, or
 * `min(tw/ow, th/oh)`), they compute the same size in exact arithmetic for
 * every image and every target of positive height, the tie cases included,
 * and fail alike when that size has a zero side.
 */
module ResizeAgreement {
  import opened Wrappers
  import opened Errors
  import opened Geometry
  import AiImageProcessor
  import FullImageProcessor
  import SimpleImageProcessor

  lemma {:induction false} ResizeVariantsAgree(o: ImageSize, t: Dims)
    requires t.height > 0
    ensures AiImageProcessor.ResizeDims(o, t) == Fitted(o, t)
    ensures FullImageProcessor.ResizeDims(o, t, true) == Fitted(o, t)
    ensures SimpleImageProcessor.ResizeDims(o, t) == Fitted(o, t)
  {
    SameRatioFillsTarget(o, t);
    FitInsideZero(o, t);
  }

  /** What all three compute: the fitted size, or ValueError when it has a zero side. */
  function Fitted(o: ImageSize, t: Dims): Result<Dims, Error> {
    if DegenerateFit(o, t) then Failure(ZeroSize) else Success(FitInside(o, t))
  }

  /**
   * A target of height zero: the two variants that divide by the target's
   * height raise ZeroDivisionError, the `min` variant reaches `resize` with
   * a zero height and gets ValueError.
   */
  lemma ZeroTargetHeight(o: ImageSize, w: nat)
    ensures AiImageProcessor.ResizeDims(o, Dims(w, 0)) == Failure(ZeroDivisionError)
    ensures FullImageProcessor.ResizeDims(o, Dims(w, 0), true) == Failure(ZeroDivisionError)
    ensures SimpleImageProcessor.ResizeDims(o, Dims(w, 0)) == Failure(ZeroSize)
  {
  }
}
