/**
 The portable path of components/stb_image/stb_image_port.c: rows of the image come once, in order, and the wanted
 ones are scaled into the raster.

 The last part compares the three paths. They scale by the same rule, but not always from the same picture to the same
 size: the ROM decoder may reduce first, the accelerated one never does, and the portable path computes its size by
 quotients. What the decoders make of the compressed data is not modelled, so the rasters are compared for the same
 decoded picture.
 */
module JpegStream {
  import opened Words
  import opened Arith
  import opened Scaling
  import opened Pixels
  import opened JpegTiles
  import opened JpegDecode

  /** Pixel sx of a row with four bytes a pixel, without its fourth byte. */
  function RowPixel(rgba: seq<byte>, sx: nat): (p: seq<byte>)
    requires 4 * sx + 4 <= |rgba|
    ensures |p| == 3
  {
    rgba[4 * sx..4 * sx + 3]
  }

  function StoredRowPixel(rows: seq<seq<byte>>, sx: nat, sy: nat): seq<byte> {
    if sy < |rows| && 4 * sx + 4 <= |rows[sy]| then RowPixel(rows[sy], sx) else []
  }

  /** The image that the rows make up. */
  function RowsImage(rows: seq<seq<byte>>): Image {
    (sx: nat, sy: nat) => StoredRowPixel(rows, sx, sy)
  }

  /** Three bytes in, three bytes out. */
  predicate Rgb(job: Job) {
    job.Valid() && job.format == RGB888 && job.sourceBytes == 3
  }

  predicate RowsFit(job: Job, rows: seq<seq<byte>>) {
    |rows| == job.decodedHeight && forall sy :: 0 <= sy < |rows| ==> |rows[sy]| == 4 * job.decodedWidth
  }

  /** In row y the positions before `end` have their pixel of the source row; nothing else has changed. */
  ghost predicate RowScaled(job: Job, rgba: seq<byte>, before: seq<byte>, after: seq<byte>, y: nat, end: nat)
    requires Rgb(job) && |rgba| == 4 * job.decodedWidth && |before| == |after| == job.Count() * job.format
  {
    forall u, v :: 0 <= u < job.width && 0 <= v < job.height ==>
      At(job, after, u, v) == if v == y && u < end then PixelFor(job, rgba, u) else At(job, before, u, v)
  }

  function PixelFor(job: Job, rgba: seq<byte>, u: nat): (p: seq<byte>)
    requires job.Valid() && u < job.width && |rgba| == 4 * job.decodedWidth
    ensures |p| == 3
  {
    SourceInside(u, job.decodedWidth, job.width);
    RowPixel(rgba, job.SourceX(u))
  }

  /** The loop over the columns of one kept row. */
  method ScaleRow(job: Job, rgba: seq<byte>, pixels: array<byte>, y: nat)
    requires Rgb(job) && |rgba| == 4 * job.decodedWidth && pixels.Length == job.Count() * job.format && y < job.height
    modifies pixels
    ensures RowScaled(job, rgba, old(pixels[..]), pixels[..], y, job.width)
  {
    ghost var before := pixels[..];
    for x := 0 to job.width
      invariant RowScaled(job, rgba, before, pixels[..], y, x)
    {
      ghost var mid := pixels[..];
      Cell(y, x, job.height, job.width);
      PutPixel(pixels, job.Count(), y * job.width + x, (y * job.width + x) * job.format, PixelFor(job, rgba, x));
      ColumnGrows(job, rgba, before, mid, pixels[..], y, x);
    }
  }

  lemma ColumnGrows(job: Job, rgba: seq<byte>, before: seq<byte>, mid: seq<byte>, after: seq<byte>, y: nat, x: nat)
    requires Rgb(job) && |rgba| == 4 * job.decodedWidth && x < job.width && y < job.height
    requires |before| == |mid| == |after| == job.Count() * job.format && RowScaled(job, rgba, before, mid, y, x)
    requires OnlyPixel(mid, after, job.Count(), job.format, y * job.width + x, PixelFor(job, rgba, x))
    ensures RowScaled(job, rgba, before, after, y, x + 1)
  {
    forall u, v | 0 <= u < job.width && 0 <= v < job.height
      ensures At(job, after, u, v) == if v == y && u < x + 1 then PixelFor(job, rgba, u) else At(job, before, u, v)
    {
      OnlyAt(job, mid, after, x, y, PixelFor(job, rgba, x), u, v);
    }
  }

  /** The rows before `end` are finished. */
  ghost predicate RowsDone(job: Job, rows: seq<seq<byte>>, raster: seq<byte>, end: nat)
    requires Rgb(job) && |raster| == job.Count() * job.format
  {
    forall u, v :: 0 <= u < job.width && 0 <= v < job.height && v < end ==> Finished(job, RowsImage(rows), raster, u, v)
  }

  lemma RowFinished(job: Job, rows: seq<seq<byte>>, before: seq<byte>, after: seq<byte>, y: nat)
    requires Rgb(job) && RowsFit(job, rows) && y < job.height && job.SourceY(y) < |rows|
    requires |before| == |after| == job.Count() * job.format && RowsDone(job, rows, before, y)
    requires RowScaled(job, rows[job.SourceY(y)], before, after, y, job.width)
    ensures RowsDone(job, rows, after, y + 1)
  {
    forall u, v | 0 <= u < job.width && 0 <= v < job.height && v < y + 1
      ensures Finished(job, RowsImage(rows), after, u, v)
    {
      if v == y {
        SourceInside(u, job.decodedWidth, job.width);
      } else {
        assert Finished(job, RowsImage(rows), before, u, v);
      }
    }
  }

  /** The three bytes of an output pixel are the first three of the four bytes of its source pixel. */
  ghost predicate RowsShow(job: Job, rows: seq<seq<byte>>, raster: seq<byte>, u: nat, v: nat)
    requires Rgb(job)
  {
    var sx, sy, at := u * job.decodedWidth / job.width, v * job.decodedHeight / job.height, v * job.width + u;
    && sy < |rows| && 4 * sx + 4 <= |rows[sy]| && at * 3 + 3 <= |raster|
    && raster[at * 3..at * 3 + 3] == rows[sy][4 * sx..4 * sx + 3]
  }

  lemma RowsPictured(job: Job, rows: seq<seq<byte>>, raster: seq<byte>)
    requires Rgb(job) && RowsFit(job, rows) && Pictured(job, RowsImage(rows), raster)
    ensures forall u, v :: 0 <= u < job.width && 0 <= v < job.height ==> RowsShow(job, rows, raster, u, v)
  {
    forall u, v | 0 <= u < job.width && 0 <= v < job.height ensures RowsShow(job, rows, raster, u, v) {
      assert PixelShown(job, RowsImage(rows), raster, u, v);
      SourceInside(u, job.decodedWidth, job.width);
      SourceInside(v, job.decodedHeight, job.height);
    }
  }

  /**
   The row loop of solar_os_stbi_load_jpeg_rgb_scaled. Sizes that would enlarge are refused first; after that every
   output row finds its source row, so the check behind the loop never fails, and the raster is the scaled image.
   */
  method LoadScaled(job: Job, rows: seq<seq<byte>>, pixels: array<byte>) returns (ok: bool)
    requires Rgb(job) && RowsFit(job, rows) && pixels.Length == job.Count() * job.format
    modifies pixels
    ensures ok <==> job.width <= job.decodedWidth && job.height <= job.decodedHeight
    ensures ok ==> Scaled(job, RowsImage(rows), pixels[..]) && Pictured(job, RowsImage(rows), pixels[..])
    ensures ok ==> forall u, v :: 0 <= u < job.width && 0 <= v < job.height ==> RowsShow(job, rows, pixels[..], u, v)
  {
    if job.width > job.decodedWidth || job.height > job.decodedHeight {
      return false;
    }
    var sourceY, outputY := 0, 0;
    SourceZero(job.decodedHeight, job.height);
    while sourceY < job.decodedHeight && outputY < job.height
      invariant sourceY <= job.decodedHeight && outputY <= job.height
      invariant outputY < job.height ==> sourceY <= job.SourceY(outputY) < job.decodedHeight
      invariant RowsDone(job, rows, pixels[..], outputY)
    {
      if job.SourceY(outputY) == sourceY {
        ghost var before := pixels[..];
        ScaleRow(job, rows[sourceY], pixels, outputY);
        RowFinished(job, rows, before, pixels[..], outputY);
        if outputY + 1 < job.height {
          NextIsLater(outputY, job.decodedHeight, job.height);
          SourceInside(outputY + 1, job.decodedHeight, job.height);
        }
        outputY := outputY + 1;
      }
      sourceY := sourceY + 1;
    }
    if outputY != job.height {
      return false;
    }
    ScaledIsPictured(job, RowsImage(rows), pixels[..]);
    RowsPictured(job, rows, pixels[..]);
    return true;
  }

  // ---------------------------------------------------------------- the paths agree

  /** A raster is determined by its pixels. */
  lemma SameRaster(job: Job, a: seq<byte>, b: seq<byte>)
    requires job.Valid() && |a| == |b| == job.Count() * job.format
    requires forall u, v :: 0 <= u < job.width && 0 <= v < job.height ==> At(job, a, u, v) == At(job, b, u, v)
    ensures a == b
  {
    forall i | 0 <= i < |a| ensures a[i] == b[i] {
      var j, c := Place(i, job.Count(), job.format);
      var v, u := Place(j, job.height, job.width);
      PxInside(job.Count(), job.format, j);
      SameByte(a, b, job.format, j, c, At(job, a, u, v), At(job, b, u, v));
    }
  }

  /** The row and the column of a place in n rows of f. */
  lemma Place(i: nat, n: nat, f: nat) returns (j: nat, c: nat)
    requires f > 0 && i < n * f
    ensures i == j * f + c && j < n && c < f
  {
    j, c := i / f, i % f;
    Division(i, f);
    FloorReaches(i, f, n);
  }

  lemma SameByte(a: seq<byte>, b: seq<byte>, f: nat, j: nat, c: nat, p: seq<byte>, q: seq<byte>)
    requires |a| == |b| && c < f && j * f + f <= |a| && p == Px(a, f, j) && q == Px(b, f, j) && p == q
    ensures a[j * f + c] == b[j * f + c]
  {
    assert a[j * f + c] == p[c] && b[j * f + c] == q[c];
  }

  /** The scaling rule fixes the raster: there is only one for a picture and a job. */
  lemma ScaledIsUnique(job: Job, image: Image, a: seq<byte>, b: seq<byte>)
    requires job.Valid() && |a| == |b| == job.Count() * job.format && Scaled(job, image, a) && Scaled(job, image, b)
    ensures a == b
  {
    forall u, v | 0 <= u < job.width && 0 <= v < job.height ensures At(job, a, u, v) == At(job, b, u, v) {
      assert Finished(job, image, a, u, v) && Finished(job, image, b, u, v);
    }
    SameRaster(job, a, b);
  }

  /**
   The sizes of solar_os_jpeg_fast_decode: a fit by products, from a picture that the ROM decoder may have reduced.
   */
  function RomJob(sw: nat, sh: nat, mw: nat, mh: nat, format: nat, scale: nat): Job
    requires sw > 0 && sh > 0 && scale <= 3
  {
    var (w, h) := FitProducts(sw, sh, mw, mh);
    Job(w, h, Halved(sw, scale), Halved(sh, scale), format, 3)
  }

  /**
   The sizes of solar_os_jpeg_simd_decode: the same fit, from the whole picture, which comes as 5-6-5 pixels if that
   is wanted.
   */
  function SimdJob(sw: nat, sh: nat, mw: nat, mh: nat, format: nat): Job
    requires sw > 0 && sh > 0
  {
    var (w, h) := FitProducts(sw, sh, mw, mh);
    Job(w, h, sw, sh, format, if format == RGB565 then 2 else 3)
  }

  /** The sizes of the portable path: a fit by quotients, from the whole picture. */
  function PortableJob(sw: nat, sh: nat, mw: nat, mh: nat): Job
    requires sw > 0 && sh > 0
  {
    var (w, h) := FitDimensions(sw, sh, mw, mh);
    Job(w, h, sw, sh, RGB888, 3)
  }

  /** The scale that the ROM path computes for its own size. */
  predicate Chosen(sw: nat, sh: nat, mw: nat, mh: nat, scale: nat)
    requires sw > 0 && sh > 0
  {
    var (w, h) := FitProducts(sw, sh, mw, mh);
    && scale <= 3 && Halved(sw, scale) >= w && Halved(sh, scale) >= h
    && forall k :: scale < k <= 3 ==> Halved(sw, k) < w || Halved(sh, k) < h
  }

  /** The sizes of solar_os_jpeg_fast_decode: the fit first, then the scale for it. */
  method ComputeRomJob(sw: nat, sh: nat, mw: nat, mh: nat, format: nat) returns (scale: nat, job: Job)
    requires sw > 0 && sh > 0
    ensures Chosen(sw, sh, mw, mh, scale) && job == RomJob(sw, sh, mw, mh, format, scale)
  {
    var (w, h) := FitProducts(sw, sh, mw, mh);
    scale := ChooseScale(sw, sh, w, h);
    job := Job(w, h, Halved(sw, scale), Halved(sh, scale), format, 3);
  }

  /** More than half of the source is wanted in one direction. */
  predicate Detailed(sw: nat, sh: nat, size: (nat, nat)) {
    sw / 2 < size.0 || sh / 2 < size.1
  }

  /**
   Exactly when two paths do the same job. The ROM and the accelerated path: if more than half of the source is wanted
   in one direction and the pixels are not 5-6-5. The ROM and the portable path: if, besides the former, the two fits
   give the same size.
   */
  lemma SameJobs(sw: nat, sh: nat, mw: nat, mh: nat, format: nat, scale: nat)
    requires sw > 0 && sh > 0 && Chosen(sw, sh, mw, mh, scale)
    ensures RomJob(sw, sh, mw, mh, format, scale) == SimdJob(sw, sh, mw, mh, format)
       <==> Detailed(sw, sh, FitProducts(sw, sh, mw, mh)) && format != RGB565
    ensures RomJob(sw, sh, mw, mh, RGB888, scale) == PortableJob(sw, sh, mw, mh)
       <==> Detailed(sw, sh, FitProducts(sw, sh, mw, mh)) && !FitsDiffer(sw, sh, mw, mh)
  {
    var (w, h) := FitProducts(sw, sh, mw, mh);
    FitsCompared(sw, sh, mw, mh);
    ReducedOrNot(sw, sh, w, h, scale);
  }

  /** Then a picture that both decode alike ends in the same raster, byte for byte. */
  lemma DecodersAgree(sw: nat, sh: nat, mw: nat, mh: nat, scale: nat, image: Image, rom: seq<byte>, portable: seq<byte>)
    requires sw > 0 && sh > 0 && Chosen(sw, sh, mw, mh, scale) && RomJob(sw, sh, mw, mh, RGB888, scale).Valid()
    requires Detailed(sw, sh, FitProducts(sw, sh, mw, mh)) && !FitsDiffer(sw, sh, mw, mh)
    requires var job := RomJob(sw, sh, mw, mh, RGB888, scale);
             |rom| == job.Count() * job.format && Scaled(job, image, rom)
    requires var job := PortableJob(sw, sh, mw, mh);
             job.Valid() && |portable| == job.Count() * job.format && Scaled(job, image, portable)
    ensures rom == portable
  {
    SameJobs(sw, sh, mw, mh, RGB888, scale);
    ScaledIsUnique(PortableJob(sw, sh, mw, mh), image, rom, portable);
  }

  /** A decoder that hands over 5-6-5 pixels leaves the raster that converting its colours one by one would leave. */
  lemma PackedAgrees(job: Job, colours: Image, packed: Image, a: seq<byte>, b: seq<byte>)
    requires job.Valid() && job.format == RGB565 && job.sourceBytes == 3 && |a| == |b| == job.Count() * 2
    requires forall sx, sy :: 0 <= sx < job.decodedWidth && 0 <= sy < job.decodedHeight ==>
               |colours(sx, sy)| == 3 && packed(sx, sy) == Convert(RGB565, colours(sx, sy))
    requires Scaled(job, colours, a) && Scaled(job.(sourceBytes := 2), packed, b)
    ensures a == b
  {
    var job2 := job.(sourceBytes := 2);
    forall u, v | 0 <= u < job.width && 0 <= v < job.height ensures At(job, a, u, v) == At(job, b, u, v) {
      assert Finished(job, colours, a, u, v) && Finished(job2, packed, b, u, v);
      SourceInside(u, job.decodedWidth, job.width);
      SourceInside(v, job.decodedHeight, job.height);
      assert At(job, b, u, v) == At(job2, b, u, v);
    }
    SameRaster(job, a, b);
  }

  /** Scaling and then converting in place is scaling to 5-6-5: it is as if each colour had been converted before. */
  lemma FallbackAgrees(job: Job, image: Image, rgb: seq<byte>, converted: seq<byte>)
    requires Rgb(job) && |rgb| == 3 * job.Count() && |converted| == 3 * job.Count() && Scaled(job, image, rgb)
    requires forall i :: 0 <= i < job.Count() ==> converted[2 * i..2 * i + 2] == Convert(RGB565, rgb[3 * i..3 * i + 3])
    ensures Scaled(job.(format := RGB565), image, converted[..2 * job.Count()])
    ensures Pictured(job.(format := RGB565), image, converted[..2 * job.Count()])
  {
    var job2, out := job.(format := RGB565), converted[..2 * job.Count()];
    forall u, v | 0 <= u < job.width && 0 <= v < job.height ensures Finished(job2, image, out, u, v) {
      var i := v * job.width + u;
      Cell(v, u, job.height, job.width);
      assert Finished(job, image, rgb, u, v);
      ConvertedPixel(rgb, converted, job.Count(), i);
    }
    ScaledIsPictured(job2, image, out);
  }

  lemma ConvertedPixel(rgb: seq<byte>, converted: seq<byte>, n: nat, i: nat)
    requires |rgb| == |converted| == 3 * n && i < n
            && converted[2 * i..2 * i + 2] == Convert(RGB565, rgb[3 * i..3 * i + 3])
    ensures Px(converted[..2 * n], 2, i) == Convert(RGB565, Px(rgb, 3, i))
  {
    assert converted[..2 * n][2 * i..2 * i + 2] == converted[2 * i..2 * i + 2];
  }
}
