/**
 * Shared geometry of the image processors: image sizes, PIL crop boxes
 * `(left, upper, right, lower)`, and the two contracts every variant's
 * arithmetic is measured against — a box lying inside the image, and an
 * aspect-preserving fit of an image into a target box.
 */
module Geometry {
  import opened Arith

  type Pos = n: int | n > 0 witness 1

  datatype Dims = Dims(width: nat, height: nat)

  /** The size of a decoded image: both sides at least one pixel. */
  type ImageSize = d: Dims | d.width > 0 && d.height > 0 witness Dims(1, 1)

  datatype Box = Box(left: int, top: int, right: int, bottom: int) {
    function Width(): int { right - left }
    function Height(): int { bottom - top }
  }

  /** The box is not inverted and lies inside a `w` by `h` image. */
  predicate Within(b: Box, w: int, h: int) {
    0 <= b.left <= b.right <= w && 0 <= b.top <= b.bottom <= h
  }

  /** Left and right margins differ by at most one pixel, the spare pixel going right. */
  predicate CentredH(b: Box, w: int) {
    b.left <= w - b.right <= b.left + 1
  }

  /** Top and bottom margins differ by at most one pixel, the spare pixel going down. */
  predicate CentredV(b: Box, h: int) {
    b.top <= h - b.bottom <= b.top + 1
  }

  predicate Centred(b: Box, w: int, h: int) {
    CentredH(b, w) && CentredV(b, h)
  }

  function Min(a: int, b: int): (m: int)
    ensures m <= a && m <= b && (m == a || m == b)
  {
    if a <= b then a else b
  }

  function Max(a: int, b: int): (m: int)
    ensures m >= a && m >= b && (m == a || m == b)
  {
    if a >= b then a else b
  }

  /** A centred span: `(w - size) // 2` leaves margins differing by at most one. */
  function CentredStart(w: int, size: int): (x: int)
    requires 0 <= size <= w
    ensures 0 <= x && x + size <= w
    ensures x <= w - (x + size) <= x + 1
  {
    (w - size) / 2
  }

  /**
   * The `min(w, h)` square in the middle of the image: the crop every variant
   * uses for `square` and falls back to elsewhere.
   */
  function CentredSquare(w: Pos, h: Pos): (b: Box)
    ensures Within(b, w, h) && Centred(b, w, h)
    ensures b.Width() == b.Height() == Min(w, h)
  {
    var size := Min(w, h);
    var left := CentredStart(w, size);
    var top := CentredStart(h, size);
    Box(left, top, left + size, top + size)
  }

  /** A box of the given size placed in the middle of a `w` by `h` image. */
  function CentredBox(w: int, h: int, d: Dims): (b: Box)
    requires d.width <= w && d.height <= h
    ensures Within(b, w, h) && Centred(b, w, h)
    ensures b.Width() == d.width && b.Height() == d.height
  {
    var left := CentredStart(w, d.width);
    var top := CentredStart(h, d.height);
    Box(left, top, left + d.width, top + d.height)
  }

  /** A crop as a processor performs it: the box cut out and the file it is written to. */
  datatype Crop = Crop(box: Box, path: string)

  /**
   * `b` is the largest box of width-to-height ratio `p:q` centred in a `w`
   * by `h` image, the cut side floored: an image wider than `p:q`
   * (`w/h > p/q`) keeps its full height and loses width, any other keeps its
   * full width and loses height.
   */
  predicate RatioCrop(b: Box, w: int, h: int, p: int, q: int) {
    && Within(b, w, h) && Centred(b, w, h)
    && (if w * q > p * h
        then b.Height() == h && b.Width() * q <= h * p < (b.Width() + 1) * q
        else b.Width() == w && b.Height() * p <= w * q < (b.Height() + 1) * p)
  }

  /** The `(left, top, left + new_width, bottom)` crop every ratio style computes. */
  function CropToRatio(w: Pos, h: Pos, p: Pos, q: Pos): (b: Box)
    ensures RatioCrop(b, w, h, p, q)
  {
    assert h * p == p * h;
    if w * q > p * h then
      var nw := (h * p) / q;
      FloorBracket(h * p, q);
      MulLessCancel(nw, w, q);
      var x := CentredStart(w, nw);
      Box(x, 0, x + nw, h)
    else
      var nh := (w * q) / p;
      FloorBracket(w * q, p);
      DivAtMost(w * q, h, p);
      var y := CentredStart(h, nh);
      Box(0, y, w, y + nh)
  }

  /**
   * `n` fits inside the target box, fills it along at least one side, and
   * keeps the original's aspect ratio up to flooring the other side: the
   * scaled side is the largest whole number not exceeding its exact value.
   */
  predicate AspectFit(o: ImageSize, t: Dims, n: Dims) {
    && n.width <= t.width && n.height <= t.height
    && ( (n.width == t.width && n.height * o.width <= n.width * o.height < (n.height + 1) * o.width)
      || (n.height == t.height && n.width * o.height <= n.height * o.width < (n.width + 1) * o.height))
  }

  /** Filling the target's height, with the width floored from the aspect ratio, fits when the target is at least as wide as the image's ratio. */
  lemma {:induction false} HeightLimitedFit(o: ImageSize, t: Dims)
    requires t.width * o.height >= o.width * t.height
    ensures AspectFit(o, t, Dims((t.height * o.width) / o.height, t.height))
  {
    var nw := (t.height * o.width) / o.height;
    FloorBracket(t.height * o.width, o.height);
    if nw > t.width {
      MulMonotone(t.width + 1, nw, o.height);
    }
  }

  /** Filling the target's width, with the height floored from the aspect ratio, fits when the target is at least as tall as the image's ratio. */
  lemma {:induction false} WidthLimitedFit(o: ImageSize, t: Dims)
    requires t.width * o.height <= o.width * t.height
    ensures AspectFit(o, t, Dims(t.width, (t.width * o.height) / o.width))
  {
    var nh := (t.width * o.height) / o.width;
    FloorBracket(t.width * o.height, o.width);
    if nh > t.height {
      MulMonotone(t.height + 1, nh, o.width);
    }
  }

  /** When the target has exactly the image's ratio both formulas give the target itself. */
  lemma {:induction false} SameRatioFillsTarget(o: ImageSize, t: Dims)
    ensures t.width * o.height == o.width * t.height ==>
              (t.height * o.width) / o.height == t.width && (t.width * o.height) / o.width == t.height
  {
    if t.width * o.height == o.width * t.height {
      DivUnique(t.height * o.width, o.height, t.width);
      DivUnique(t.width * o.height, o.width, t.height);
    }
  }

  /** A side's start is fixed by its length once the margins may differ by at most one. */
  lemma {:induction false} CentredStartUnique(w: int, x: int, size: int)
    requires x <= w - (x + size) <= x + 1
    ensures x == (w - size) / 2
  {
    DivUnique(w - size, 2, x);
  }

  /** `RatioCrop` pins the box down: any two boxes meeting it are the same box. */
  lemma {:induction false} RatioCropUnique(b1: Box, b2: Box, w: int, h: int, p: int, q: int)
    requires p > 0 && q > 0
    requires RatioCrop(b1, w, h, p, q) && RatioCrop(b2, w, h, p, q)
    ensures b1 == b2
  {
    if w * q > p * h {
      DivUnique(h * p, q, b1.Width());
      DivUnique(h * p, q, b2.Width());
    } else {
      DivUnique(w * q, p, b1.Height());
      DivUnique(w * q, p, b2.Height());
    }
    CentredStartUnique(w, b1.left, b1.Width());
    CentredStartUnique(w, b2.left, b2.Width());
    CentredStartUnique(h, b1.top, b1.Height());
    CentredStartUnique(h, b2.top, b2.Height());
  }

  /**
   * The aspect-preserving size most variants compute: a target wider than the
   * image (`tw/th > ow/oh`) is filled along its height, any other along its
   * width, and the other side is floored.
   */
  function FitInside(o: ImageSize, t: Dims): (n: Dims)
    ensures AspectFit(o, t, n)
    ensures t.width * o.height > o.width * t.height ==> n.height == t.height
    ensures t.width * o.height < o.width * t.height ==> n.width == t.width
  {
    if t.width * o.height > o.width * t.height then
      HeightLimitedFit(o, t);
      Dims((t.height * o.width) / o.height, t.height)
    else
      WidthLimitedFit(o, t);
      Dims(t.width, (t.width * o.height) / o.width)
  }

  /**
   * Scaling the image into the target floors a side to zero: the target's
   * width is worth less than one pixel of the image's height, or its height
   * less than one pixel of the image's width.
   */
  predicate DegenerateFit(o: ImageSize, t: Dims) {
    t.width * o.height < o.width || t.height * o.width < o.height
  }

  /**
   * The side `a` of the target is filled and the other side `b` gets
   * `a * n / d` floored: a side is zero exactly when `a * n < d` or
   * `b * d < n`.
   */
  lemma {:induction false} LimitedZero(a: nat, b: nat, d: Pos, n: Pos)
    requires a * n <= d * b
    ensures (a == 0 || (a * n) / d == 0) <==> (a * n < d || b * d < n)
  {
    var s := a * n;
    FloorBracket(s, d);
    if s / d == 0 {
      assert s < d;
    } else {
      MulMonotone(1, s / d, d);
      assert d <= s;
    }
    if b * d < n {
      assert s < 1 * n;
      MulLessCancel(a, 1, n);
    }
  }

  /** Filling the target's width leaves a zero side exactly in the degenerate case. */
  lemma WidthLimitedZero(o: ImageSize, t: Dims)
    requires t.width * o.height <= o.width * t.height
    ensures (t.width == 0 || (t.width * o.height) / o.width == 0) <==> DegenerateFit(o, t)
  {
    LimitedZero(t.width, t.height, o.width, o.height);
  }

  /** Filling the target's height leaves a zero side exactly in the degenerate case. */
  lemma HeightLimitedZero(o: ImageSize, t: Dims)
    requires t.width * o.height >= o.width * t.height
    ensures (t.height == 0 || (t.height * o.width) / o.height == 0) <==> DegenerateFit(o, t)
  {
    assert t.height * o.width <= o.height * t.width;
    LimitedZero(t.height, t.width, o.height, o.width);
  }

  /** The fitted size has a zero side exactly when the fit is degenerate. */
  lemma FitInsideZero(o: ImageSize, t: Dims)
    ensures (FitInside(o, t).width == 0 || FitInside(o, t).height == 0) <==> DegenerateFit(o, t)
  {
    if t.width * o.height > o.width * t.height {
      HeightLimitedZero(o, t);
    } else {
      WidthLimitedZero(o, t);
    }
  }

  /** A target of exactly the image's ratio is returned as it is. */
  lemma {:induction false} FitInsideExactRatio(o: ImageSize, t: Dims)
    requires t.width * o.height == o.width * t.height
    ensures FitInside(o, t) == t
  {
    SameRatioFillsTarget(o, t);
  }
}
