/** Rasters of bytes seen as pixels of one to three bytes, and the conversions of components/stb_image. */
module Pixels {
  import opened Words
  import opened Arith

  const GRAY8 := 1
  const RGB565 := 2
  const RGB888 := 3

  /** Pixel i of a raster with f bytes a pixel. */
  function Px(raster: seq<byte>, f: nat, i: nat): (p: seq<byte>)
    requires i * f + f <= |raster|
    ensures |p| == f
  {
    raster[i * f..i * f + f]
  }

  lemma PxInside(n: nat, f: nat, i: nat)
    requires i < n
    ensures i * f + f <= n * f
  {
    MulAdd(i, 1, f);
    MulLe(i + 1, n, f);
  }

  lemma PxApart(f: nat, i: nat, j: nat)
    requires i != j
    ensures i * f + f <= j * f || j * f + f <= i * f
  {
    MulAdd(i, 1, f);
    MulAdd(j, 1, f);
    if i < j {
      MulLe(i + 1, j, f);
    } else {
      MulLe(j + 1, i, f);
    }
  }

  /** The output pixel of a source pixel: luma, big-endian 5-6-5, or the pixel itself. */
  function Convert(format: nat, rgb: seq<byte>): (p: seq<byte>)
    requires |rgb| == 3 && format in {GRAY8, RGB565, RGB888}
    ensures |p| == format
  {
    if format == GRAY8 then [(rgb[0] * 77 + rgb[1] * 150 + rgb[2] * 29) / 256]
    else if format == RGB565 then
      var color := Color565(rgb);
      [color / 256, color % 256]
    else rgb
  }

  function Color565(rgb: seq<byte>): (c: nat)
    requires |rgb| == 3
    ensures c < 0x1_0000
  {
    var r: int, g: int, b: int := rgb[0], rgb[1], rgb[2];
    r / 8 * 2048 + g / 4 * 32 + b / 8
  }

  /** Two bytes, the high one first. */
  function HighFirst(p: seq<byte>): (n: nat)
    requires |p| == 2
    ensures n < 0x1_0000
  {
    var high: int, low: int := p[0], p[1];
    high * 256 + low
  }

  /**
   What an output pixel shows of a colour. A byte of grey is the weighted mean of the channels, rounded down; two
   bytes, high one first, hold five bits of red, six of green and five of blue, the top ones of each; three bytes are
   the colour.
   */
  predicate Shows(format: nat, p: seq<byte>, rgb: seq<byte>)
    requires |rgb| == 3
  {
    && |p| == format
    && (format == 1 ==>
          var grey: int, r: int, g: int, b: int := p[0], rgb[0], rgb[1], rgb[2];
          grey * 256 <= r * 77 + g * 150 + b * 29 < grey * 256 + 256)
    && (format == 2 ==>
          var n := HighFirst(p);
          n / 2048 == rgb[0] / 8 && n / 32 % 64 == rgb[1] / 4 && n % 32 == rgb[2] / 8)
    && (format == 3 ==> p == rgb)
  }

  /** The three formats show the colour, each in the only way there is. */
  lemma ConvertShows(format: nat, rgb: seq<byte>, p: seq<byte>)
    requires |rgb| == 3 && format in {GRAY8, RGB565, RGB888}
    ensures Shows(format, Convert(format, rgb), rgb)
    ensures Shows(format, p, rgb) ==> p == Convert(format, rgb)
  {
    if format == RGB565 {
      ColourFields(rgb);
      if Shows(format, p, rgb) {
        SameColour(p, Convert(format, rgb));
      }
    }
  }

  lemma ColourFields(rgb: seq<byte>)
    requires |rgb| == 3
    ensures Shows(RGB565, Convert(RGB565, rgb), rgb)
  {
    var color := Color565(rgb);
    var r, g, b := rgb[0] / 8, rgb[1] / 4, rgb[2] / 8;
    assert color == r * 2048 + g * 32 + b && r < 32 && g < 64 && b < 32;
    Quotient(r, g * 32 + b, 2048);
    Quotient(r * 64 + g, b, 32);
    Quotient(r, g, 64);
  }

  /** The fields of a colour are all there is to it. */
  lemma SameColour(p: seq<byte>, q: seq<byte>)
    requires |p| == |q| == 2
    requires var n, m := HighFirst(p), HighFirst(q);
             n / 2048 == m / 2048 && n / 32 % 64 == m / 32 % 64 && n % 32 == m % 32
    ensures p == q
  {
    var n, m := HighFirst(p), HighFirst(q);
    assert n / 32 == n / 32 / 64 * 64 + n / 32 % 64 && n / 32 / 64 == n / 2048;
    assert m / 32 == m / 32 / 64 * 64 + m / 32 % 64 && m / 32 / 64 == m / 2048;
    assert n == m;
    Quotient(p[0], p[1], 256);
    Quotient(q[0], q[1], 256);
  }

  /** Grey stays the grey it is, and no channel makes a pixel darker by being brighter. */
  lemma GreyIsKept(x: byte, a: seq<byte>, b: seq<byte>)
    requires |a| == |b| == 3 && a[0] <= b[0] && a[1] <= b[1] && a[2] <= b[2]
    ensures Convert(GRAY8, [x, x, x]) == [x]
    ensures Convert(GRAY8, a)[0] <= Convert(GRAY8, b)[0]
  {
  }

  /** The same light counts most as green and least as blue. */
  lemma GreenCountsMost(x: byte)
    ensures Convert(GRAY8, [0, x, 0])[0] >= Convert(GRAY8, [x, 0, 0])[0] >= Convert(GRAY8, [0, 0, x])[0]
    ensures Convert(GRAY8, [0, 255, 0])[0] > Convert(GRAY8, [255, 0, 0])[0] > Convert(GRAY8, [0, 0, 255])[0]
  {
  }

  /** The raster `after` is `before` with pixel i replaced. */
  ghost predicate OnlyPixel(before: seq<byte>, after: seq<byte>, n: nat, f: nat, i: nat, value: seq<byte>)
    requires |before| == |after| == n * f
  {
    forall j :: 0 <= j < n ==>
      (PxInside(n, f, j); Px(after, f, j)) == if j == i then value else (PxInside(n, f, j); Px(before, f, j))
  }

  /** memcpy of one pixel to a byte offset. */
  method PutPixel(pixels: array<byte>, ghost n: nat, ghost i: nat, at: nat, value: seq<byte>)
    requires pixels.Length == n * |value| && i < n && at == i * |value|
    modifies pixels
    ensures OnlyPixel(old(pixels[..]), pixels[..], n, |value|, i, value)
  {
    ghost var f, before := |value|, pixels[..];
    PxInside(n, f, i);
    for k := 0 to |value|
      invariant forall b :: 0 <= b < pixels.Length ==>
              pixels[b] == if at <= b < at + k then value[b - at] else before[b]
    {
      pixels[at + k] := value[k];
    }
    forall j | 0 <= j < n
      ensures (PxInside(n, f, j); Px(pixels[..], f, j)) == if j == i then value
              else (PxInside(n, f, j); Px(before, f, j))
    {
      PxInside(n, f, j);
      if j != i {
        PxApart(f, i, j);
      }
      Stretch(before, pixels[..], value, at, f, 0, j * f, f);
    }
  }

  /** A stretch inside the copied bytes is a stretch of the source; one that does not meet them is as before. */
  lemma Stretch(before: seq<byte>, after: seq<byte>, from: seq<byte>, at: nat, n: nat, src: nat, j: nat, f: nat)
    requires |before| == |after| && j + f <= |after| && src + n <= |from|
    requires Copied(before, after, from, at, src, n)
    ensures at <= j && j + f <= at + n ==> after[j..j + f] == from[src + (j - at)..src + (j - at) + f]
    ensures j + f <= at || at + n <= j ==> after[j..j + f] == before[j..j + f]
  {
  }

  /** memcpy of bytes. */
  method CopyBytes(pixels: array<byte>, at: nat, from: seq<byte>)
    requires at + |from| <= pixels.Length
    modifies pixels
    ensures forall i :: 0 <= i < pixels.Length ==>
            pixels[i] == if at <= i < at + |from| then from[i - at] else old(pixels[i])
  {
    for k := 0 to |from|
      invariant forall i :: 0 <= i < pixels.Length ==>
              pixels[i] == if at <= i < at + k then from[i - at] else old(pixels[i])
    {
      pixels[at + k] := from[k];
    }
  }

  /** After a copy of n pixels, pixel j is the copied one or the old one. */
  ghost predicate Spanned(before: seq<byte>, after: seq<byte>, from: seq<byte>, total: nat, f: nat, first: nat, s: nat,
                          n: nat, j: nat)
    requires |before| == |after| == total * f && j < total && (s + n) * f <= |from|
  {
    PxInside(total, f, j);
    if first <= j < first + n then
      PxInside(s + n, f, s + (j - first));
      Px(after, f, j) == Px(from, f, s + (j - first))
    else Px(after, f, j) == Px(before, f, j)
  }

  /** The bytes from `at` on are copied from `src` on. */
  predicate Copied(before: seq<byte>, after: seq<byte>, from: seq<byte>, at: nat, src: nat, n: nat)
    requires |before| == |after| && src + n <= |from|
  {
    forall i :: 0 <= i < |after| ==> after[i] == if at <= i < at + n then from[src + (i - at)] else before[i]
  }

  lemma SpanInside(before: seq<byte>, after: seq<byte>, from: seq<byte>, total: nat, f: nat, first: nat, s: nat,
                   n: nat, j: nat)
    requires |before| == |after| == total * f && first <= j < first + n <= total && (s + n) * f <= |from|
    requires s * f + n * f <= |from| && Copied(before, after, from, first * f, s * f, n * f)
    ensures Spanned(before, after, from, total, f, first, s, n, j)
  {
    PxInside(total, f, j);
    PxInside(s + n, f, s + (j - first));
    SpanWhere(f, first, s, n, j);
    Stretch(before, after, from, first * f, n * f, s * f, j * f, f);
  }

  /** A pixel whose bytes are not among the copied ones. */
  lemma SpanApart(before: seq<byte>, after: seq<byte>, from: seq<byte>, f: nat, at: nat, src: nat, n: nat, j: nat)
    requires |before| == |after| && j * f + f <= |after| && src + n <= |from| && Copied(before, after, from, at, src, n)
    requires j * f + f <= at || at + n <= j * f
    ensures Px(after, f, j) == Px(before, f, j)
  {
    Stretch(before, after, from, at, n, src, j * f, f);
  }

  lemma SpanOutside(before: seq<byte>, after: seq<byte>, from: seq<byte>, total: nat, f: nat, first: nat, s: nat,
                    n: nat, j: nat)
    requires |before| == |after| == total * f && j < total && !(first <= j < first + n) && (s + n) * f <= |from|
    requires s * f + n * f <= |from| && Copied(before, after, from, first * f, s * f, n * f)
    ensures Spanned(before, after, from, total, f, first, s, n, j)
  {
    PxInside(total, f, j);
    SpanWhere(f, first, s, n, j);
    SpanApart(before, after, from, f, first * f, s * f, n * f, j);
  }

  lemma SpanPixel(before: seq<byte>, after: seq<byte>, from: seq<byte>, total: nat, f: nat, first: nat, s: nat, n: nat,
                  j: nat)
    requires |before| == |after| == total * f && j < total && first + n <= total && (s + n) * f <= |from|
    requires s * f + n * f <= |from| && Copied(before, after, from, first * f, s * f, n * f)
    ensures Spanned(before, after, from, total, f, first, s, n, j)
  {
    if first <= j < first + n {
      SpanInside(before, after, from, total, f, first, s, n, j);
    } else {
      SpanOutside(before, after, from, total, f, first, s, n, j);
    }
  }

  /** Whole pixels are inside a span or apart from it. */
  lemma SpanWhere(f: nat, first: nat, s: nat, n: nat, j: nat)
    ensures first <= j < first + n ==>
              (first * f <= j * f && j * f + f <= first * f + n * f
                  && (s + (j - first)) * f == s * f + (j * f - first * f))
    ensures j < first ==> j * f + f <= first * f
    ensures j >= first + n ==> first * f + n * f <= j * f
  {
    MulAdd(first, n, f);
    MulAdd(j, 1, f);
    if j < first {
      MulLe(j + 1, first, f);
    } else if j < first + n {
      MulLe(first, j, f);
      MulLe(j + 1, first + n, f);
      MulAdd(s, j - first, f);
      MulAdd(first, j - first, f);
    } else {
      MulLe(first + n, j, f);
    }
  }

  /** memcpy of n whole pixels. */
  method CopyPixels(pixels: array<byte>, ghost total: nat, f: nat, first: nat, from: seq<byte>, s: nat, n: nat)
    requires pixels.Length == total * f && first + n <= total && (s + n) * f <= |from|
    modifies pixels
    ensures forall j :: 0 <= j < total ==> Spanned(old(pixels[..]), pixels[..], from, total, f, first, s, n, j)
  {
    ghost var before := pixels[..];
    MulAdd(s, n, f);
    MulAdd(first, n, f);
    MulLe(first + n, total, f);
    CopyBytes(pixels, first * f, from[s * f..s * f + n * f]);
    forall j | 0 <= j < total ensures Spanned(before, pixels[..], from, total, f, first, s, n, j) {
      SpanPixel(before, pixels[..], from, total, f, first, s, n, j);
    }
  }
}
