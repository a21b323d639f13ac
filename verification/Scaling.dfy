/**
 The scaling arithmetic of components/stb_image: aspect fits, source rows and columns by rounded-down ratios, and the
 tilings that let decoder rectangles be scaled one by one. All quantities stay far below the 64-bit intermediates of
 the code.
 */
module Scaling {
  import opened Arith

  // ---------------------------------------------------------------- tilings

  /** The source position of an output position. */
  function Source(x: nat, decoded: nat, output: nat): nat
    requires output > 0
  {
    x * decoded / output
  }

  /** ceil_ratio. */
  function CeilRatio(value: nat, numerator: nat, denominator: nat): nat
    requires denominator > 0
  {
    (value * numerator + denominator - 1) / denominator
  }

  /** A quotient reaches a bound exactly when the dividend reaches the product. */
  lemma FloorReaches(n: nat, d: nat, q: nat)
    requires d > 0
    ensures n / d >= q <==> n >= q * d
  {
    Division(n, d);
    MulAdd(n / d, 1, d);
    if n / d >= q {
      MulLe(q, n / d, d);
    } else {
      MulLe(n / d + 1, q, d);
    }
  }

  /** The source position is the only one whose share of the output holds the output position. */
  lemma SourceIsFloor(x: nat, decoded: nat, output: nat, s: nat)
    requires output > 0
    ensures s == Source(x, decoded, output) <==> s * output <= x * decoded < (s + 1) * output
  {
    FloorReaches(x * decoded, output, s);
    FloorReaches(x * decoded, output, s + 1);
  }

  lemma CeilReached(value: nat, numerator: nat, denominator: nat, x: nat)
    requires denominator > 0
    ensures x >= CeilRatio(value, numerator, denominator) <==> x * denominator >= value * numerator
  {
    var n := value * numerator;
    FloorReaches(n + denominator - 1, denominator, x + 1);
    MulAdd(x, 1, denominator);
  }

  /** The output positions of a source interval are exactly those that the rounded-up ends give. */
  lemma TileExact(left: nat, right: nat, x: nat, decoded: nat, output: nat)
    requires decoded > 0 && output > 0
    ensures CeilRatio(left, output, decoded) <= x < CeilRatio(right + 1, output, decoded)
       <==> left <= Source(x, decoded, output) <= right
  {
    CeilReached(left, output, decoded, x);
    CeilReached(right + 1, output, decoded, x);
    FloorReaches(x * decoded, output, left);
    FloorReaches(x * decoded, output, right + 1);
  }

  /** Output positions come from inside the source. */
  lemma SourceInside(x: nat, decoded: nat, output: nat)
    requires x < output && decoded > 0
    ensures Source(x, decoded, output) < decoded
  {
    FloorReaches(x * decoded, output, decoded);
    MulStrict(x, output, decoded);
  }

  lemma MulStrict(a: nat, b: nat, s: nat)
    requires a < b && s > 0
    ensures a * s < b * s
  {
    MulAdd(a, 1, s);
    MulLe(a + 1, b, s);
  }

  /** A whole source makes a whole output. */
  lemma WholeTile(decoded: nat, output: nat)
    requires decoded > 0 && output > 0
    ensures CeilRatio(0, output, decoded) == 0 && CeilRatio(decoded, output, decoded) == output
  {
    CeilReached(0, output, decoded, 0);
    CeilReached(decoded, output, decoded, output);
    CeilReached(decoded, output, decoded, output - 1);
    MulStrict(output - 1, output, decoded);
    assert output * decoded == decoded * output;
  }

  // ---------------------------------------------------------------- fits

  predicate Shrinks(sw: nat, sh: nat, mw: nat, mh: nat) {
    mw != 0 && mh != 0 && (sw > mw || sh > mh)
  }

  /**
   The size is inside the source and the box, fills the box one way, and keeps the aspect to within a pixel the other
   way.
   */
  predicate GoodFit(sw: nat, sh: nat, mw: nat, mh: nat, w: nat, h: nat) {
    && 1 <= w <= sw && 1 <= h <= sh
    && (!Shrinks(sw, sh, mw, mh) ==> w == sw && h == sh)
    && (Shrinks(sw, sh, mw, mh) ==>
         && w <= mw && h <= mh
         && ((w == mw && (h * sw <= w * sh < (h + 1) * sw || (h == 1 && w * sh < sw)))
             || (h == mh && (w * sh <= h * sw < (w + 1) * sh || (w == 1 && h * sw < sh)))))
  }

  function AtLeastOne(n: nat): nat { if n == 0 then 1 else n }

  /** Scaling by the width of the box: the height is rounded down, and stays inside. */
  lemma ByWidth(sw: nat, sh: nat, mw: nat, mh: nat)
    requires sw > 0 && sh > 0 && Shrinks(sw, sh, mw, mh) && mw * sh / sw <= mh
    ensures GoodFit(sw, sh, mw, mh, mw, AtLeastOne(mw * sh / sw))
  {
    var h := mw * sh / sw;
    Division(mw * sh, sw);
    MulAdd(h, 1, sw);
    if mw > sw {
      MulLe(sw, mw, sh);
      FloorReaches(mw * sh, sw, sh);
    }
    MulLe(mw, sw, sh);
    FloorReaches(mw * sh, sw, sh + 1);
    MulAdd(sh, 1, sw);
  }

  lemma Swapped(sw: nat, sh: nat, mw: nat, mh: nat, w: nat, h: nat)
    requires GoodFit(sh, sw, mh, mw, h, w)
    ensures GoodFit(sw, sh, mw, mh, w, h)
  {
  }

  lemma ByHeight(sw: nat, sh: nat, mw: nat, mh: nat)
    requires sw > 0 && sh > 0 && Shrinks(sw, sh, mw, mh) && mh * sw / sh <= mw
    ensures GoodFit(sw, sh, mw, mh, AtLeastOne(mh * sw / sh), mh)
  {
    ByWidth(sh, sw, mh, mw);
    Swapped(sw, sh, mw, mh, AtLeastOne(mh * sw / sh), mh);
  }

  /** solar_os_stbi_fit_dimensions, for a source that is not empty. */
  function FitDimensions(sw: nat, sh: nat, mw: nat, mh: nat): (r: (nat, nat))
    requires sw > 0 && sh > 0
    ensures GoodFit(sw, sh, mw, mh, r.0, r.1)
  {
    if mw == 0 || mh == 0 || (sw <= mw && sh <= mh) then (sw, sh)
    else
      var heightForWidth := mw * sh / sw;
      if heightForWidth <= mh then
        ByWidth(sw, sh, mw, mh);
        (mw, AtLeastOne(heightForWidth))
      else
        OtherSide(sw, sh, mw, mh);
        ByHeight(sw, sh, mw, mh);
        (AtLeastOne(mh * sw / sh), mh)
  }

  /** If the height does not fit, the width does. */
  lemma OtherSide(sw: nat, sh: nat, mw: nat, mh: nat)
    requires sw > 0 && sh > 0 && mw * sh / sw > mh
    ensures mh * sw / sh <= mw
  {
    FloorReaches(mw * sh, sw, mh + 1);
    MulAdd(mh, 1, sw);
    FloorReaches(mh * sw, sh, mw + 1);
    MulAdd(mw, 1, sh);
  }

  /**
   The fit of solar_os_jpeg_fast_decode and solar_os_jpeg_simd_decode, which compares products instead of quotients.
   */
  function FitProducts(sw: nat, sh: nat, mw: nat, mh: nat): (r: (nat, nat))
    requires sw > 0 && sh > 0
    ensures GoodFit(sw, sh, mw, mh, r.0, r.1)
  {
    if !(mw != 0 && mh != 0 && (sw > mw || sh > mh)) then (sw, sh)
    else if sh * mw <= sw * mh then
      ProductsByWidth(sw, sh, mw, mh);
      (mw, AtLeastOne(sh * mw / sw))
    else
      ProductsByHeight(sw, sh, mw, mh);
      (AtLeastOne(sw * mh / sh), mh)
  }

  lemma ProductsByWidth(sw: nat, sh: nat, mw: nat, mh: nat)
    requires sw > 0 && sh > 0 && Shrinks(sw, sh, mw, mh) && sh * mw <= sw * mh
    ensures GoodFit(sw, sh, mw, mh, mw, AtLeastOne(sh * mw / sw))
  {
    FloorReaches(mw * sh, sw, mh + 1);
    MulAdd(mh, 1, sw);
    ByWidth(sw, sh, mw, mh);
  }

  lemma ProductsByHeight(sw: nat, sh: nat, mw: nat, mh: nat)
    requires sw > 0 && sh > 0 && Shrinks(sw, sh, mw, mh) && sh * mw > sw * mh
    ensures GoodFit(sw, sh, mw, mh, AtLeastOne(sw * mh / sh), mh)
  {
    FloorReaches(mh * sw, sh, mw + 1);
    MulAdd(mw, 1, sh);
    ByHeight(sw, sh, mw, mh);
  }

  /**
   The two fits differ exactly when the height for the full width is a little more than the box and rounds down into
   it: by quotients the image is stretched to fill the box, by products it is as wide as its aspect allows.
   */
  predicate FitsDiffer(sw: nat, sh: nat, mw: nat, mh: nat)
    requires sw > 0
  {
    Shrinks(sw, sh, mw, mh) && mw * sh / sw == mh && mw * sh > mh * sw && mw > 1
  }

  lemma FitsCompared(sw: nat, sh: nat, mw: nat, mh: nat)
    requires sw > 0 && sh > 0
    ensures FitDimensions(sw, sh, mw, mh) != FitProducts(sw, sh, mw, mh) <==> FitsDiffer(sw, sh, mw, mh)
    ensures FitsDiffer(sw, sh, mw, mh) ==>
            FitDimensions(sw, sh, mw, mh) == (mw, mh) && FitProducts(sw, sh, mw, mh).0 < mw
  {
    if Shrinks(sw, sh, mw, mh) {
      var q := mw * sh / sw;
      if mw * sh <= mh * sw {
        FloorReaches(mw * sh, sw, mh + 1);
        MulAdd(mh, 1, sw);
      } else {
        FloorReaches(mw * sh, sw, mh);
        FloorReaches(mh * sw, sh, mw);
      }
    }
  }

  /**
   A photograph of 1000 by 667 pixels in a box of 320 by 213 fills the box on one path and is a column narrower on the
   others.
   */
  lemma FitsDifferHere()
    ensures FitDimensions(1000, 667, 320, 213) == (320, 213) && FitProducts(1000, 667, 320, 213) == (319, 213)
  {
  }

  // ---------------------------------------------------------------- the decoder's own reduction

  /** n >> k for the shifts that are used. */
  function Halved(n: nat, k: nat): nat
    requires k <= 3
  {
    match k
    case 0 => n
    case 1 => n / 2
    case 2 => n / 4
    case _ => n / 8
  }

  /** Each further step halves once more, rounding down. */
  lemma HalvedAgain(n: nat, k: nat)
    requires k < 3
    ensures Halved(n, 0) == n
    ensures 2 * Halved(n, k + 1) <= Halved(n, k) <= 2 * Halved(n, k + 1) + 1
  {
  }

  /** The largest reduction, up to an eighth, that does not go below the requested size. */
  method ChooseScale(sw: nat, sh: nat, w: nat, h: nat) returns (scale: nat)
    requires w <= sw && h <= sh
    ensures scale <= 3 && Halved(sw, scale) >= w && Halved(sh, scale) >= h
    ensures forall k :: scale < k <= 3 ==> Halved(sw, k) < w || Halved(sh, k) < h
  {
    scale := 0;
    while scale < 3 && Halved(sw, scale + 1) >= w && Halved(sh, scale + 1) >= h
      invariant scale <= 3 && Halved(sw, scale) >= w && Halved(sh, scale) >= h
    {
      scale := scale + 1;
    }
    assert scale < 3 ==> forall k :: scale < k <= 3 ==> Halved(sw, k) <= Halved(sw, scale + 1);
    assert scale < 3 ==> forall k :: scale < k <= 3 ==> Halved(sh, k) <= Halved(sh, scale + 1);
  }

  /** Nothing is reduced exactly when a half would be too small. */
  lemma ReducedOrNot(sw: nat, sh: nat, w: nat, h: nat, scale: nat)
    requires sw > 0 && sh > 0 && scale <= 3 && Halved(sw, scale) >= w && Halved(sh, scale) >= h
    requires forall k :: scale < k <= 3 ==> Halved(sw, k) < w || Halved(sh, k) < h
    ensures scale == 0 <==> sw / 2 < w || sh / 2 < h
    ensures scale == 0 <==> Halved(sw, scale) == sw
  {
    if scale == 0 {
      assert Halved(sw, 1) == sw / 2 && Halved(sh, 1) == sh / 2;
    }
  }

  // ---------------------------------------------------------------- streaming rows

  lemma SourceZero(decoded: nat, output: nat)
    requires decoded > 0 && output > 0
    ensures Source(0, decoded, output) == 0
  {
    SourceInside(0, decoded, output);
    FloorReaches(0 * decoded, output, 1);
  }

  /** Without enlarging, no two output positions share a source position. */
  lemma NextIsLater(x: nat, decoded: nat, output: nat)
    requires 0 < output <= decoded
    ensures Source(x + 1, decoded, output) >= Source(x, decoded, output) + 1
  {
    var q := Source(x, decoded, output);
    FloorReaches(x * decoded, output, q);
    FloorReaches((x + 1) * decoded, output, q + 1);
    MulAdd(x, 1, decoded);
    MulAdd(q, 1, output);
  }

  // ---------------------------------------------------------------- columns by addition

  /** One step of the running quotient and remainder. */
  method Advance(sx: nat, remainder: nat, decoded: nat, output: nat, ghost x: nat) returns (sx': nat, remainder': nat)
    requires output > 0 && remainder < output && sx * output + remainder == x * decoded
    ensures remainder' < output && sx' * output + remainder' == (x + 1) * decoded
    ensures sx' == Source(x + 1, decoded, output)
  {
    sx', remainder' := sx, remainder + decoded;
    MulAdd(x, 1, decoded);
    while remainder' >= output
      invariant sx' * output + remainder' == (x + 1) * decoded
      decreases remainder'
    {
      MulAdd(sx', 1, output);
      sx', remainder' := sx' + 1, remainder' - output;
    }
    Quotient(sx', remainder', output);
  }
}
