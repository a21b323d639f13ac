/**
 Whole decodes: the rectangles that the decoder hands to jpeg_write, the strip loop of solar_os_jpeg_simd_decode, and
 the in-place conversion behind solar_os_stb_decode_jpeg_rgb565_scaled.
 */
module JpegDecode {
  import opened Words
  import opened Arith
  import opened Scaling
  import opened Pixels
  import opened JpegTiles

  /** What the decoder hands over. */
  datatype Delivery = Delivery(block: Block, bitmap: seq<byte>)

  type Image = (nat, nat) -> seq<byte>

  predicate Whole(job: Job, d: Delivery) {
    Matches(job, d.block, d.bitmap)
  }

  /** The bitmap shows this part of the image. */
  ghost predicate Crops(job: Job, image: Image, d: Delivery) {
    && Whole(job, d)
    && forall sx, sy :: d.block.Holds(sx, sy) ==> Decoded(job, d.block, d.bitmap, sx, sy) == image(sx, sy)
  }

  ghost predicate Held(ds: seq<Delivery>, sx: nat, sy: nat) {
    exists k :: 0 <= k < |ds| && ds[k].block.Holds(sx, sy)
  }

  /** The blocks partition the decoded image. */
  ghost predicate Partition(job: Job, ds: seq<Delivery>) {
    && (forall sx, sy :: 0 <= sx < job.decodedWidth && 0 <= sy < job.decodedHeight ==> Held(ds, sx, sy))
    && (forall i, j, sx, sy :: 0 <= i < j < |ds| ==> !(ds[i].block.Holds(sx, sy) && ds[j].block.Holds(sx, sy)))
  }

  /** The raster is the image, scaled by rounding positions down. */
  ghost predicate Scaled(job: Job, image: Image, raster: seq<byte>)
    requires job.Valid() && |raster| == job.Count() * job.format
  {
    forall u, v :: 0 <= u < job.width && 0 <= v < job.height ==> Finished(job, image, raster, u, v)
  }

  ghost predicate Finished(job: Job, image: Image, raster: seq<byte>, u: nat, v: nat)
    requires job.Valid() && |raster| == job.Count() * job.format && u < job.width && v < job.height
  {
    var p := image(job.SourceX(u), job.SourceY(v));
    |p| == job.sourceBytes && At(job, raster, u, v) == job.Output(p)
  }

  /** jpeg_write: a block outside the image is refused. */
  method JpegWrite(job: Job, d: Delivery, pixels: array<byte>) returns (ok: bool)
    requires job.Valid() && (d.block.Valid(job) ==> Whole(job, d)) && pixels.Length == job.Count() * job.format
    modifies pixels
    ensures ok == d.block.Valid(job)
    ensures !ok ==> pixels[..] == old(pixels[..])
    ensures ok ==> BlockDone(job, d.block, d.bitmap, old(pixels[..]), pixels[..], job.height)
  {
    var b := d.block;
    if b.left > b.right || b.top > b.bottom || b.right >= job.decodedWidth || b.bottom >= job.decodedHeight {
      return false;
    }
    WriteBlock(job, b, d.bitmap, pixels);
    return true;
  }

  /** The pixels held by the first blocks are finished. */
  ghost predicate Progress(job: Job, image: Image, ds: seq<Delivery>, raster: seq<byte>)
    requires job.Valid() && |raster| == job.Count() * job.format
  {
    forall u, v :: 0 <= u < job.width && 0 <= v < job.height && Held(ds, job.SourceX(u), job.SourceY(v)) ==>
      Finished(job, image, raster, u, v)
  }

  /**
   The raster holds the output pixel of column u and row v at its place in row order, and that shows the colour of its
   source: pixels of three bytes are converted, pixels of two bytes are taken as they are.
   */
  ghost predicate PixelShown(job: Job, image: Image, raster: seq<byte>, u: nat, v: nat)
    requires job.Valid()
  {
    var at := (v * job.width + u) * job.format;
    var p := image(u * job.decodedWidth / job.width, v * job.decodedHeight / job.height);
    && at + job.format <= |raster|
    && var q := raster[at..at + job.format];
       if job.sourceBytes == 3 then |p| == 3 && Shows(job.format, q, p) else q == p
  }

  ghost predicate Pictured(job: Job, image: Image, raster: seq<byte>)
    requires job.Valid()
  {
    forall u, v :: 0 <= u < job.width && 0 <= v < job.height ==> PixelShown(job, image, raster, u, v)
  }

  lemma FinishedIsShown(job: Job, image: Image, raster: seq<byte>, u: nat, v: nat)
    requires job.Valid() && |raster| == job.Count() * job.format && u < job.width && v < job.height
    requires Finished(job, image, raster, u, v)
    ensures PixelShown(job, image, raster, u, v)
  {
    Cell(v, u, job.height, job.width);
    PxInside(job.Count(), job.format, v * job.width + u);
    assert At(job, raster, u, v) == Px(raster, job.format, v * job.width + u);
    if job.sourceBytes == 3 {
      ConvertShows(job.format, image(job.SourceX(u), job.SourceY(v)), []);
    }
  }

  lemma ScaledIsPictured(job: Job, image: Image, raster: seq<byte>)
    requires job.Valid() && |raster| == job.Count() * job.format && Scaled(job, image, raster)
    ensures Pictured(job, image, raster)
  {
    forall u, v | 0 <= u < job.width && 0 <= v < job.height ensures PixelShown(job, image, raster, u, v) {
      assert Finished(job, image, raster, u, v);
      FinishedIsShown(job, image, raster, u, v);
    }
  }

  lemma OneBlock(job: Job, image: Image, ds: seq<Delivery>, d: Delivery, before: seq<byte>, after: seq<byte>)
    requires Crops(job, image, d) && |before| == |after| == job.Count() * job.format
    requires Progress(job, image, ds, before) && BlockDone(job, d.block, d.bitmap, before, after, job.height)
    ensures Progress(job, image, ds + [d], after)
  {
    forall u, v | 0 <= u < job.width && 0 <= v < job.height && Held(ds + [d], job.SourceX(u), job.SourceY(v))
      ensures Finished(job, image, after, u, v)
    {
      if !d.block.Holds(job.SourceX(u), job.SourceY(v)) {
        var k :| 0 <= k < |ds + [d]| && (ds + [d])[k].block.Holds(job.SourceX(u), job.SourceY(v));
        assert ds[k].block.Holds(job.SourceX(u), job.SourceY(v));
        assert Held(ds, job.SourceX(u), job.SourceY(v));
      } else {
        assert Decoded(job, d.block, d.bitmap, job.SourceX(u), job.SourceY(v)) == image(job.SourceX(u), job.SourceY(v));
      }
    }
  }

  lemma Complete(job: Job, image: Image, ds: seq<Delivery>, raster: seq<byte>)
    requires job.Valid() && |raster| == job.Count() * job.format && Progress(job, image, ds, raster)
    requires forall sx, sy :: 0 <= sx < job.decodedWidth && 0 <= sy < job.decodedHeight ==> Held(ds, sx, sy)
    ensures Scaled(job, image, raster)
  {
    forall u, v | 0 <= u < job.width && 0 <= v < job.height ensures Finished(job, image, raster, u, v) {
      SourceInside(u, job.decodedWidth, job.width);
      SourceInside(v, job.decodedHeight, job.height);
      assert Held(ds, job.SourceX(u), job.SourceY(v));
    }
  }

  /** The decoder calls jpeg_write for each of its blocks; if they make up the image, so does the scaled raster. */
  method DecodeBlocks(job: Job, ghost image: Image, ds: seq<Delivery>, pixels: array<byte>) returns (ok: bool)
    requires job.Valid() && pixels.Length == job.Count() * job.format
    requires Partition(job, ds) && forall k :: 0 <= k < |ds| ==> Crops(job, image, ds[k])
    modifies pixels
    ensures ok && Scaled(job, image, pixels[..]) && Pictured(job, image, pixels[..])
  {
    for i := 0 to |ds|
      invariant Progress(job, image, ds[..i], pixels[..])
    {
      ghost var before := pixels[..];
      assert Crops(job, image, ds[i]);
      ok := JpegWrite(job, ds[i], pixels);
      OneBlock(job, image, ds[..i], ds[i], before, pixels[..]);
      assert ds[..i + 1] == ds[..i] + [ds[i]];
    }
    assert ds[..|ds|] == ds;
    Complete(job, image, ds, pixels[..]);
    ScaledIsPictured(job, image, pixels[..]);
    return true;
  }

  /** How many blocks write an output pixel. */
  function Writes(job: Job, ds: seq<Delivery>, u: nat, v: nat): nat
    requires job.Valid()
  {
    if ds == [] then 0
    else Writes(job, ds[..|ds| - 1], u, v) + if ds[|ds| - 1].block.Holds(job.SourceX(u), job.SourceY(v)) then 1 else 0
  }

  /** Blocks that do not overlap write a pixel once if one of them holds its source, else never. */
  lemma {:induction false} WritesOnce(job: Job, ds: seq<Delivery>, u: nat, v: nat)
    requires job.Valid()
    requires forall i, j, sx, sy :: 0 <= i < j < |ds| ==> !(ds[i].block.Holds(sx, sy) && ds[j].block.Holds(sx, sy))
    ensures Writes(job, ds, u, v) == if Held(ds, job.SourceX(u), job.SourceY(v)) then 1 else 0
    decreases |ds|
  {
    if ds != [] {
      var before, sx, sy := ds[..|ds| - 1], job.SourceX(u), job.SourceY(v);
      WritesOnce(job, before, u, v);
      if Held(before, sx, sy) {
        var k :| 0 <= k < |before| && before[k].block.Holds(sx, sy);
        assert ds[k].block.Holds(sx, sy);
      }
      if ds[|ds| - 1].block.Holds(sx, sy) {
        assert Held(ds, sx, sy);
      }
    }
  }

  /** Every output pixel is written exactly once. */
  lemma EveryPixelOnce(job: Job, ds: seq<Delivery>, u: nat, v: nat)
    requires job.Valid() && Partition(job, ds) && u < job.width && v < job.height
    ensures Writes(job, ds, u, v) == 1
  {
    SourceInside(u, job.decodedWidth, job.width);
    SourceInside(v, job.decodedHeight, job.height);
    WritesOnce(job, ds, u, v);
  }

  // ---------------------------------------------------------------- strips

  function Joined(strips: seq<seq<byte>>): seq<byte> {
    if strips == [] then [] else Joined(strips[..|strips| - 1]) + strips[|strips| - 1]
  }

  /** The pixel of an image that is stored row by row; nothing beyond its end. */
  function StoredPixel(job: Job, all: seq<byte>, sx: nat, sy: nat): seq<byte> {
    var j := sy * job.decodedWidth + sx;
    if j * job.sourceBytes + job.sourceBytes <= |all| then Px(all, job.sourceBytes, j) else []
  }

  /** The image that the strips make up from top to bottom. */
  function StripImage(job: Job, all: seq<byte>): Image {
    (sx: nat, sy: nat) => StoredPixel(job, all, sx, sy)
  }

  /** One strip shows its rows of the joined image. */
  lemma StripCrops(job: Job, all: seq<byte>, strip: seq<byte>, row: nat, rows: nat, at: nat)
    requires job.Valid() && rows > 0 && row + rows <= job.decodedHeight
            && |strip| == rows * job.decodedWidth * job.sourceBytes
    requires at == row * job.decodedWidth * job.sourceBytes && at + |strip| <= |all| && all[at..at + |strip|] == strip
    ensures Crops(job, StripImage(job, all), Delivery(Block(0, row, job.decodedWidth - 1, row + rows - 1), strip))
  {
    var b := Block(0, row, job.decodedWidth - 1, row + rows - 1);
    assert Rows(b) == rows && b.Stride() == job.decodedWidth;
    forall sx: nat, sy: nat | b.Holds(sx, sy) ensures Decoded(job, b, strip, sx, sy) == StoredPixel(job, all, sx, sy) {
      var i, j := StripIndex(row, rows, sx, sy, job.decodedWidth, job.sourceBytes);
      OnStrip(job, all, strip, row, rows, sx, sy, i, j, at);
    }
  }

  lemma SamePx(all: seq<byte>, strip: seq<byte>, f: nat, i: nat, j: nat, at: nat)
    requires i * f + f <= |strip| && at + |strip| <= |all| && all[at..at + |strip|] == strip && j * f == at + i * f
    ensures j * f + f <= |all| && Px(strip, f, i) == Px(all, f, j)
  {
    Inside(all, strip, at, i * f, f);
  }

  lemma OnStrip(job: Job, all: seq<byte>, strip: seq<byte>, row: nat, rows: nat, sx: nat, sy: nat, i: nat, j: nat,
                at: nat)
    requires job.Valid() && rows > 0 && row <= sy < row + rows && sx < job.decodedWidth
    requires |strip| == rows * job.decodedWidth * job.sourceBytes && at + |strip| <= |all|
            && all[at..at + |strip|] == strip
    requires i == (sy - row) * job.decodedWidth + sx && j == sy * job.decodedWidth + sx
    requires i * job.sourceBytes + job.sourceBytes <= |strip| && j * job.sourceBytes == at + i * job.sourceBytes
    ensures Decoded(job, Block(0, row, job.decodedWidth - 1, row + rows - 1), strip, sx, sy)
            == StoredPixel(job, all, sx, sy)
  {
    var b := Block(0, row, job.decodedWidth - 1, row + rows - 1);
    assert Rows(b) == rows && b.Stride() == job.decodedWidth;
    SamePx(all, strip, job.sourceBytes, i, j, at);
  }

  /** The place of a pixel in its strip and in the image. */
  lemma StripIndex(row: nat, rows: nat, sx: nat, sy: nat, w: nat, f: nat) returns (i: nat, j: nat)
    requires row <= sy < row + rows && sx < w
    ensures i == (sy - row) * w + sx && j == sy * w + sx
    ensures i * f + f <= rows * w * f && j * f == row * w * f + i * f
  {
    MulLe(0, sy - row, w);
    i, j := (sy - row) * w + sx, sy * w + sx;
    Cell(sy - row, sx, rows, w);
    PxInside(rows * w, f, i);
    MulAdd(row, sy - row, w);
    MulAdd(row * w, i, f);
  }

  lemma Inside(all: seq<byte>, strip: seq<byte>, at: nat, i: nat, f: nat)
    requires at + |strip| <= |all| && all[at..at + |strip|] == strip && i + f <= |strip|
    ensures strip[i..i + f] == all[at + i..at + i + f]
  {
    var t := all[at..at + |strip|];
    var a, b := t[i..i + f], all[at + i..at + i + f];
    forall k | 0 <= k < f ensures a[k] == b[k] {
      assert a[k] == t[i + k] && b[k] == all[at + (i + k)];
    }
    assert a == b;
  }

  /** The strip has rows, and whole ones only. */
  predicate WholeRows(job: Job, strip: seq<byte>)
    requires job.Valid()
  {
    MulStrict(0, job.decodedWidth, job.sourceBytes);
    |strip| > 0 && |strip| % (job.decodedWidth * job.sourceBytes) == 0
  }

  /** More rows are more bytes. */
  lemma MoreRows(job: Job, a: nat, b: nat)
    requires job.Valid() && a < b
    ensures a * job.decodedWidth * job.sourceBytes < b * job.decodedWidth * job.sourceBytes
  {
    MulStrict(a, b, job.decodedWidth);
    MulStrict(a * job.decodedWidth, b * job.decodedWidth, job.sourceBytes);
  }

  /** Strips that are no more than the image so far, and that are too many with the next one. */
  lemma TooMany(job: Job, strips: seq<seq<byte>>, k: nat, row: nat, rows: nat)
    requires job.Valid() && k < |strips| && row + rows > job.decodedHeight
    requires |Joined(strips[..k])| == row * job.decodedWidth * job.sourceBytes
    requires |strips[k]| == rows * job.decodedWidth * job.sourceBytes
    ensures |Joined(strips)| > job.decodedHeight * job.decodedWidth * job.sourceBytes
  {
    JoinedPart(strips, k);
    MulAdd(row, rows, job.decodedWidth);
    MulAdd(row * job.decodedWidth, rows * job.decodedWidth, job.sourceBytes);
    MoreRows(job, job.decodedHeight, row + rows);
  }

  /**
   The strip loop: it succeeds only when the strips are exactly the rows of the image, and then the raster is scaled
   from it.
   */
  method DecodeStrips(job: Job, strips: seq<seq<byte>>, pixels: array<byte>) returns (ok: bool)
    requires job.Valid() && pixels.Length == job.Count() * job.format
    modifies pixels
    ensures ok <==>
              && (forall k :: 0 <= k < |strips| ==> WholeRows(job, strips[k]))
              && |Joined(strips)| == job.decodedHeight * job.decodedWidth * job.sourceBytes
    ensures ok ==> Scaled(job, StripImage(job, Joined(strips)), pixels[..])
    ensures ok ==> Pictured(job, StripImage(job, Joined(strips)), pixels[..])
  {
    var row, bytes := 0, job.decodedWidth * job.sourceBytes;
    ghost var ds: seq<Delivery> := [];
    ghost var image := StripImage(job, Joined(strips));
    MulLe(1, job.decodedWidth, job.sourceBytes);
    for k := 0 to |strips|
      invariant forall i :: 0 <= i < k ==> WholeRows(job, strips[i])
      invariant row <= job.decodedHeight && |Joined(strips[..k])| == row * job.decodedWidth * job.sourceBytes
      invariant Progress(job, image, ds, pixels[..])
      invariant forall sx, sy :: 0 <= sx < job.decodedWidth && 0 <= sy < row ==> Held(ds, sx, sy)
    {
      var strip := strips[k];
      if |strip| == 0 || |strip| % bytes != 0 {
        assert !WholeRows(job, strip);
        return false;
      }
      var rows := |strip| / bytes;
      StripRows(job, strips, k, row, rows);
      if row >= job.decodedHeight || rows > job.decodedHeight - row {
        TooMany(job, strips, k, row, rows);
        return false;
      }
      ds := OneStrip(job, Joined(strips), strip, row, rows, pixels, ds);
      row := row + rows;
    }
    assert strips[..|strips|] == strips;
    if row != job.decodedHeight {
      MoreRows(job, row, job.decodedHeight);
      return false;
    }
    Complete(job, image, ds, pixels[..]);
    ScaledIsPictured(job, image, pixels[..]);
    return true;
  }

  /** copy_strip for the next rows. */
  method OneStrip(job: Job, ghost all: seq<byte>, strip: seq<byte>, row: nat, rows: nat, pixels: array<byte>,
                  ghost ds: seq<Delivery>) returns (ghost more: seq<Delivery>)
    requires job.Valid() && pixels.Length == job.Count() * job.format && rows > 0 && row + rows <= job.decodedHeight
    requires |strip| == rows * job.decodedWidth * job.sourceBytes
    requires var at := row * job.decodedWidth * job.sourceBytes; at + |strip| <= |all| && all[at..at + |strip|] == strip
    requires Progress(job, StripImage(job, all), ds, pixels[..])
    requires forall sx, sy :: 0 <= sx < job.decodedWidth && 0 <= sy < row ==> Held(ds, sx, sy)
    modifies pixels
    ensures Progress(job, StripImage(job, all), more, pixels[..])
    ensures forall sx, sy :: 0 <= sx < job.decodedWidth && 0 <= sy < row + rows ==> Held(more, sx, sy)
  {
    ghost var before := pixels[..];
    var b := Block(0, row, job.decodedWidth - 1, row + rows - 1);
    StripCrops(job, all, strip, row, rows, row * job.decodedWidth * job.sourceBytes);
    WriteBlock(job, b, strip, pixels);
    OneBlock(job, StripImage(job, all), ds, Delivery(b, strip), before, pixels[..]);
    MoreHeld(job, ds, Delivery(b, strip), row, rows);
    more := ds + [Delivery(b, strip)];
  }

  lemma MoreHeld(job: Job, ds: seq<Delivery>, d: Delivery, row: nat, rows: nat)
    requires job.Valid() && rows > 0 && d.block == Block(0, row, job.decodedWidth - 1, row + rows - 1)
    requires forall sx, sy :: 0 <= sx < job.decodedWidth && 0 <= sy < row ==> Held(ds, sx, sy)
    ensures forall sx, sy :: 0 <= sx < job.decodedWidth && 0 <= sy < row + rows ==> Held(ds + [d], sx, sy)
  {
    forall sx, sy | 0 <= sx < job.decodedWidth && 0 <= sy < row + rows ensures Held(ds + [d], sx, sy) {
      if sy < row {
        assert Held(ds, sx, sy);
        var k :| 0 <= k < |ds| && ds[k].block.Holds(sx, sy);
        assert (ds + [d])[k].block.Holds(sx, sy);
      } else {
        assert (ds + [d])[|ds|].block.Holds(sx, sy);
      }
    }
  }

  lemma {:induction false} JoinedPart(strips: seq<seq<byte>>, k: nat)
    requires k < |strips|
    ensures var at := |Joined(strips[..k])|;
            at + |strips[k]| <= |Joined(strips)| && Joined(strips)[at..at + |strips[k]|] == strips[k]
    ensures Joined(strips[..k + 1]) == Joined(strips[..k]) + strips[k]
    decreases |strips|
  {
    assert strips[..k + 1][..k] == strips[..k];
    if k + 1 < |strips| {
      var before := strips[..|strips| - 1];
      JoinedPart(before, k);
      assert before[..k] == strips[..k];
    } else {
      assert strips[..|strips| - 1] == strips[..k];
    }
  }

  /** A strip of whole rows lies behind the rows before it. */
  lemma StripRows(job: Job, strips: seq<seq<byte>>, k: nat, row: nat, rows: nat)
    requires job.Valid() && k < |strips| && |Joined(strips[..k])| == row * job.decodedWidth * job.sourceBytes
    requires var bytes := job.decodedWidth * job.sourceBytes;
             bytes > 0 && |strips[k]| > 0 && |strips[k]| % bytes == 0 && rows == |strips[k]| / bytes
    ensures rows > 0 && |strips[k]| == rows * job.decodedWidth * job.sourceBytes
    ensures var at := row * job.decodedWidth * job.sourceBytes;
            at + |strips[k]| <= |Joined(strips)| && Joined(strips)[at..at + |strips[k]|] == strips[k]
    ensures |Joined(strips[..k + 1])| == (row + rows) * job.decodedWidth * job.sourceBytes
  {
    JoinedPart(strips, k);
    Division(|strips[k]|, job.decodedWidth * job.sourceBytes);
    MulAssoc(rows, job.decodedWidth, job.sourceBytes);
    MulAdd(row, rows, job.decodedWidth);
    MulAdd(row * job.decodedWidth, rows * job.decodedWidth, job.sourceBytes);
  }

  lemma MulAssoc(a: nat, b: nat, c: nat)
    ensures a * (b * c) == a * b * c
  {
  }

  // ---------------------------------------------------------------- in place

  /** The 5-6-5 colour of RGB pixel j of a raster. */
  function ColorAt(raster: seq<byte>, j: nat): nat
    requires 3 * j + 3 <= |raster|
  {
    Color565(raster[3 * j..3 * j + 3])
  }

  /**
   The loop of solar_os_stb_decode_jpeg_rgb565_scaled: three bytes are read before the two bytes that replace them are
   written.
   */
  method ToRgb565InPlace(pixels: array<byte>, n: nat)
    requires pixels.Length == 3 * n
    modifies pixels
    ensures forall i :: 0 <= i < n ==> pixels[2 * i..2 * i + 2] == Convert(RGB565, old(pixels[3 * i..3 * i + 3]))
    ensures forall i :: 0 <= i < n ==> Shows(2, pixels[2 * i..2 * i + 2], old(pixels[3 * i..3 * i + 3]))
  {
    ghost var before := pixels[..];
    for i := 0 to n
      invariant Untouched(before, pixels[..], 3 * i)
      invariant forall j :: 0 <= j < i ==> Converted(before, pixels[..], j)
    {
      ghost var mid := pixels[..];
      var rgb := pixels[3 * i..3 * i + 3];
      assert rgb == before[3 * i..3 * i + 3];
      var color := Color565(rgb);
      pixels[2 * i], pixels[2 * i + 1] := color / 256, color % 256;
      ColorGrows(before, mid, pixels[..], i);
    }
    InPlaceDone(before, pixels[..], n);
    forall i | 0 <= i < n ensures Shows(2, pixels[2 * i..2 * i + 2], before[3 * i..3 * i + 3]) {
      ConvertShows(RGB565, before[3 * i..3 * i + 3], []);
    }
  }

  lemma ColorGrows(before: seq<byte>, mid: seq<byte>, after: seq<byte>, i: nat)
    requires |before| == |mid| == |after| && 3 * i + 3 <= |before| && Untouched(before, mid, 3 * i)
    requires forall j :: 0 <= j < i ==> Converted(before, mid, j)
    requires after == mid[2 * i := ColorAt(before, i) / 256][2 * i + 1 := ColorAt(before, i) % 256]
    ensures Untouched(before, after, 3 * (i + 1))
    ensures forall j :: 0 <= j < i + 1 ==> Converted(before, after, j)
  {
    forall j | 0 <= j < i ensures Converted(before, after, j) {
      assert Converted(before, mid, j);
    }
  }

  predicate Untouched(before: seq<byte>, after: seq<byte>, from: nat) {
    |before| == |after| && forall b :: from <= b < |after| ==> after[b] == before[b]
  }

  /** The two bytes of colour j are in place. */
  predicate Converted(before: seq<byte>, after: seq<byte>, j: nat)
    requires 3 * j + 3 <= |before| && |before| == |after|
  {
    after[2 * j] == ColorAt(before, j) / 256 && after[2 * j + 1] == ColorAt(before, j) % 256
  }

  lemma InPlaceDone(before: seq<byte>, after: seq<byte>, n: nat)
    requires |before| == |after| == 3 * n
    requires forall j :: 0 <= j < n ==> Converted(before, after, j)
    ensures forall i :: 0 <= i < n ==> after[2 * i..2 * i + 2] == Convert(RGB565, before[3 * i..3 * i + 3])
  {
    forall i | 0 <= i < n ensures after[2 * i..2 * i + 2] == Convert(RGB565, before[3 * i..3 * i + 3]) {
      assert Converted(before, after, i);
    }
  }
}
