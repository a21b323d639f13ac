/**
 Scaling decoded rectangles and strips into the output raster: jpeg_write of components/stb_image/jpeg_fast.c,
 copy_strip and the strip loop of jpeg_simd.c, and the in-place conversion of stb_image_port.c.
 */
module JpegTiles {
  import opened Words
  import opened Arith
  import opened Scaling
  import opened Pixels

  /** The sizes of one decode. The decoder's pixels have three bytes, or are 5-6-5 pixels already. */
  datatype Job = Job(width: nat, height: nat, decodedWidth: nat, decodedHeight: nat, format: nat, sourceBytes: nat) {
    predicate Valid() {
      && 0 < width && 0 < height && 0 < decodedWidth && 0 < decodedHeight && 1 <= format <= 3
      && (sourceBytes == 3 || (sourceBytes == 2 && format == RGB565))
    }

    function Output(p: seq<byte>): (r: seq<byte>)
      requires Valid() && |p| == sourceBytes
      ensures |r| == format
    {
      if sourceBytes == 2 then p else Convert(format, p)
    }

    function Count(): nat { height * width }

    function SourceX(x: nat): nat
      requires Valid()
    {
      Source(x, decodedWidth, width)
    }

    function SourceY(y: nat): nat
      requires Valid()
    {
      Source(y, decodedHeight, height)
    }
  }

  /** A decoder rectangle, both ends included. */
  datatype Block = Block(left: nat, top: nat, right: nat, bottom: nat) {
    predicate Valid(job: Job) { left <= right < job.decodedWidth && top <= bottom < job.decodedHeight }

    function Stride(): nat
      requires left <= right
    {
      right - left + 1
    }

    predicate Holds(sx: nat, sy: nat) { left <= sx <= right && top <= sy <= bottom }
  }

  function Rows(b: Block): nat
    requires b.top <= b.bottom
  {
    b.bottom - b.top + 1
  }

  /** The bitmap has the pixels of the block, which lies in the decoded image. */
  predicate Matches(job: Job, b: Block, bitmap: seq<byte>) {
    job.Valid() && b.Valid(job) && |bitmap| == Rows(b) * b.Stride() * job.sourceBytes
  }

  /** The decoded pixel at a source position inside the block. */
  function Decoded(job: Job, b: Block, bitmap: seq<byte>, sx: nat, sy: nat): (p: seq<byte>)
    requires b.left <= b.right && b.top <= b.bottom && b.Holds(sx, sy)
            && |bitmap| == Rows(b) * b.Stride() * job.sourceBytes
    ensures |p| == job.sourceBytes
  {
    Cell(sy - b.top, sx - b.left, Rows(b), b.Stride());
    PxInside(Rows(b) * b.Stride(), job.sourceBytes, (sy - b.top) * b.Stride() + (sx - b.left));
    Px(bitmap, job.sourceBytes, (sy - b.top) * b.Stride() + (sx - b.left))
  }

  /** Row-major positions stay inside. */
  lemma Cell(row: nat, col: nat, rows: nat, cols: nat)
    requires row < rows && col < cols
    ensures row * cols + col < rows * cols
  {
    MulAdd(row, 1, cols);
    MulLe(row + 1, rows, cols);
  }

  /** The pixel of the raster at a position. */
  function At(job: Job, raster: seq<byte>, x: nat, y: nat): (p: seq<byte>)
    requires x < job.width && y < job.height && |raster| == job.Count() * job.format
  {
    Cell(y, x, job.height, job.width);
    PxInside(job.Count(), job.format, y * job.width + x);
    Px(raster, job.format, y * job.width + x)
  }

  lemma SamePlace(job: Job, x: nat, y: nat, x': nat, y': nat)
    requires x < job.width && x' < job.width
    ensures y * job.width + x == y' * job.width + x' <==> x == x' && y == y'
  {
    MulAdd(y, 1, job.width);
    MulAdd(y', 1, job.width);
    if y < y' {
      MulLe(y + 1, y', job.width);
    } else if y' < y {
      MulLe(y' + 1, y, job.width);
    }
  }

  /** `after` is `before` with the pixel at one position replaced. */
  lemma OnlyAt(job: Job, before: seq<byte>, after: seq<byte>, x: nat, y: nat, value: seq<byte>, x': nat, y': nat)
    requires |before| == |after| == job.Count() * job.format
    requires x < job.width && y < job.height && x' < job.width && y' < job.height
    requires OnlyPixel(before, after, job.Count(), job.format, y * job.width + x, value)
    ensures At(job, after, x', y') == if x == x' && y == y' then value else At(job, before, x', y')
  {
    Cell(y', x', job.height, job.width);
    SamePlace(job, x, y, x', y');
  }

  // ---------------------------------------------------------------- one row

  /** The pixel that an output position gets from a block. */
  function Wanted(job: Job, b: Block, bitmap: seq<byte>, x: nat, y: nat): (p: seq<byte>)
    requires Matches(job, b, bitmap)
    requires b.Holds(job.SourceX(x), job.SourceY(y))
  {
    job.Output(Decoded(job, b, bitmap, job.SourceX(x), job.SourceY(y)))
  }

  /** In row y the positions x0 up to x have been written, and nothing else. */
  ghost predicate RowDone(job: Job, b: Block, bitmap: seq<byte>, before: seq<byte>, after: seq<byte>, y: nat, x0: nat,
                          x: nat)
    requires Matches(job, b, bitmap) && y < job.height && x <= job.width
    requires |before| == |after| == job.Count() * job.format
    requires forall u :: x0 <= u < x ==> b.Holds(job.SourceX(u), job.SourceY(y))
  {
    forall u, v :: 0 <= u < job.width && 0 <= v < job.height ==>
      At(job, after, u, v) == if v == y && x0 <= u < x then Wanted(job, b, bitmap, u, v) else At(job, before, u, v)
  }

  /** The columns of a block, and their sources. */
  lemma Columns(job: Job, b: Block, x: nat)
    requires job.Valid() && b.Valid(job)
    ensures CeilRatio(b.left, job.width, job.decodedWidth) <= x < CeilRatio(b.right + 1, job.width, job.decodedWidth)
       <==> b.left <= job.SourceX(x) <= b.right
    ensures b.left <= job.SourceX(x) <= b.right ==> x < job.width
  {
    TileExact(b.left, b.right, x, job.decodedWidth, job.width);
    FloorReaches(x * job.decodedWidth, job.width, job.decodedWidth);
    if x >= job.width {
      MulLe(job.width, x, job.decodedWidth);
    }
  }

  /** The running variables of the inner loop at output position x. */
  predicate Running(job: Job, y: nat, x: nat, sx: nat, remainder: nat, dst: nat)
    requires job.Valid()
  {
    && remainder < job.width && sx * job.width + remainder == x * job.decodedWidth && sx == job.SourceX(x)
    && dst == (y * job.width + x) * job.format
  }

  /** The inner loop of jpeg_write: source columns by running quotient and remainder. */
  method WriteRow(job: Job, b: Block, bitmap: seq<byte>, pixels: array<byte>, y: nat, x0: nat, x1: nat)
    requires Matches(job, b, bitmap) && y < job.height
    requires pixels.Length == job.Count() * job.format && x0 <= x1 <= job.width
    requires forall u :: x0 <= u < x1 ==> b.Holds(job.SourceX(u), job.SourceY(y))
    modifies pixels
    ensures RowDone(job, b, bitmap, old(pixels[..]), pixels[..], y, x0, x1)
  {
    ghost var before := pixels[..];
    var sx, remainder, dst := FirstColumn(job, y, x0);
    for x := x0 to x1
      invariant Running(job, y, x, sx, remainder, dst)
      invariant RowDone(job, b, bitmap, before, pixels[..], y, x0, x)
    {
      WritePixel(job, b, bitmap, pixels, before, y, x0, x, sx, dst);
      sx, remainder, dst := NextColumn(job, y, x, sx, remainder, dst);
    }
  }

  method FirstColumn(job: Job, y: nat, x0: nat) returns (sx: nat, remainder: nat, dst: nat)
    requires job.Valid()
    ensures Running(job, y, x0, sx, remainder, dst)
  {
    sx, remainder := x0 * job.decodedWidth / job.width, x0 * job.decodedWidth % job.width;
    Division(x0 * job.decodedWidth, job.width);
    dst := (y * job.width + x0) * job.format;
  }

  method NextColumn(job: Job, y: nat, ghost x: nat, sx: nat, remainder: nat, dst: nat)
      returns (sx': nat, remainder': nat, dst': nat)
    requires job.Valid() && Running(job, y, x, sx, remainder, dst)
    ensures Running(job, y, x + 1, sx', remainder', dst')
  {
    MulAdd(y * job.width + x, 1, job.format);
    dst' := dst + job.format;
    sx', remainder' := Advance(sx, remainder, job.decodedWidth, job.width, x);
  }

  /** One pixel of the inner loop. */
  method WritePixel(job: Job, b: Block, bitmap: seq<byte>, pixels: array<byte>, ghost before: seq<byte>, y: nat,
                    ghost x0: nat, ghost x: nat, sx: nat, dst: nat)
    requires Matches(job, b, bitmap) && y < job.height && x0 <= x < job.width
    requires pixels.Length == |before| == job.Count() * job.format
    requires forall u :: x0 <= u < x + 1 ==> b.Holds(job.SourceX(u), job.SourceY(y))
    requires sx == job.SourceX(x) && dst == (y * job.width + x) * job.format
    requires RowDone(job, b, bitmap, before, pixels[..], y, x0, x)
    modifies pixels
    ensures RowDone(job, b, bitmap, before, pixels[..], y, x0, x + 1)
  {
    ghost var mid := pixels[..];
    Cell(y, x, job.height, job.width);
    var value := job.Output(Decoded(job, b, bitmap, sx, job.SourceY(y)));
    PutPixel(pixels, job.Count(), y * job.width + x, dst, value);
    RowGrows(job, b, bitmap, before, mid, pixels[..], y, x0, x, value);
  }

  lemma RowGrows(job: Job, b: Block, bitmap: seq<byte>, before: seq<byte>, mid: seq<byte>, after: seq<byte>, y: nat,
                 x0: nat, x: nat, value: seq<byte>)
    requires Matches(job, b, bitmap) && y < job.height && x0 <= x < job.width
    requires |before| == |mid| == |after| == job.Count() * job.format
    requires forall u :: x0 <= u < x + 1 ==> b.Holds(job.SourceX(u), job.SourceY(y))
    requires RowDone(job, b, bitmap, before, mid, y, x0, x) && value == Wanted(job, b, bitmap, x, y)
    requires OnlyPixel(mid, after, job.Count(), job.format, y * job.width + x, value)
    ensures RowDone(job, b, bitmap, before, after, y, x0, x + 1)
  {
    forall u, v | 0 <= u < job.width && 0 <= v < job.height
      ensures At(job, after, u, v) == if v == y && x0 <= u < x + 1 then Wanted(job, b, bitmap, u, v)
              else At(job, before, u, v)
    {
      OnlyAt(job, mid, after, x, y, value, u, v);
    }
  }

  // ---------------------------------------------------------------- a row that is copied as it is

  /** The pixels pass through unchanged. */
  predicate Straight(job: Job) {
    job.width == job.decodedWidth && job.format == job.sourceBytes
  }

  lemma StraightColumns(job: Job, x: nat)
    requires job.Valid() && Straight(job)
    ensures job.SourceX(x) == x && CeilRatio(x, job.width, job.decodedWidth) == x
  {
    Quotient(x, 0, job.width);
    CeilReached(x, job.width, job.decodedWidth, x);
    if x > 0 {
      CeilReached(x, job.width, job.decodedWidth, x - 1);
      MulStrict(x - 1, x, job.width);
    }
  }

  /** The row of a block, copied as a whole. */
  method CopyRow(job: Job, b: Block, bitmap: seq<byte>, pixels: array<byte>, y: nat)
    requires Matches(job, b, bitmap) && Straight(job) && y < job.height
    requires pixels.Length == job.Count() * job.format && b.top <= job.SourceY(y) <= b.bottom
    requires forall u :: b.left <= u < b.right + 1 ==> b.Holds(job.SourceX(u), job.SourceY(y))
    modifies pixels
    ensures RowDone(job, b, bitmap, old(pixels[..]), pixels[..], y, b.left, b.right + 1)
  {
    ghost var before := pixels[..];
    var first, s, n := y * job.width + b.left, (job.SourceY(y) - b.top) * b.Stride(), b.Stride();
    CopyBounds(job, b, bitmap, job.SourceY(y) - b.top, y, first, s, n);
    CopyPixels(pixels, job.Count(), job.format, first, bitmap, s, n);
    CopiedRow(job, b, bitmap, before, pixels[..], y, first, s, n);
  }

  lemma CopiedRow(job: Job, b: Block, bitmap: seq<byte>, before: seq<byte>, after: seq<byte>, y: nat, first: nat,
                  s: nat, n: nat)
    requires Matches(job, b, bitmap) && Straight(job) && y < job.height
    requires |before| == |after| == job.Count() * job.format && b.top <= job.SourceY(y) <= b.bottom
    requires forall u :: b.left <= u < b.right + 1 ==> b.Holds(job.SourceX(u), job.SourceY(y))
    requires first == y * job.width + b.left && s == (job.SourceY(y) - b.top) * b.Stride() && n == b.Stride()
    requires (s + n) * job.format <= |bitmap|
    requires forall j :: 0 <= j < job.Count() ==>
            Spanned(before, after, bitmap, job.Count(), job.format, first, s, n, j)
    ensures RowDone(job, b, bitmap, before, after, y, b.left, b.right + 1)
  {
    forall u, v | 0 <= u < job.width && 0 <= v < job.height
      ensures At(job, after, u, v)
           == if v == y && b.left <= u < b.right + 1 then Wanted(job, b, bitmap, u, v) else At(job, before, u, v)
    {
      var j := v * job.width + u;
      Cell(v, u, job.height, job.width);
      assert Spanned(before, after, bitmap, job.Count(), job.format, first, s, n, j);
      CopiedPixel(job, b, bitmap, before, after, y, u, v, first, s, j);
    }
  }

  lemma CopyBounds(job: Job, b: Block, bitmap: seq<byte>, row: nat, y: nat, first: nat, s: nat, n: nat)
    requires Matches(job, b, bitmap) && Straight(job) && row < Rows(b) && y < job.height
    requires first == y * job.width + b.left && s == row * b.Stride() && n == b.Stride()
    ensures (s + n) * job.format <= |bitmap| && first + n <= job.Count()
  {
    MulAdd(row, 1, n);
    MulLe(row + 1, Rows(b), n);
    MulLe(s + n, Rows(b) * n, job.format);
    Cell(y, b.right, job.height, job.width);
  }

  lemma CopiedPixel(job: Job, b: Block, bitmap: seq<byte>, before: seq<byte>, after: seq<byte>, y: nat, u: nat, v: nat,
                    first: nat, s: nat, j: nat)
    requires Matches(job, b, bitmap) && Straight(job) && y < job.height
    requires |before| == |after| == job.Count() * job.format && u < job.width && v < job.height
    requires b.top <= job.SourceY(y) <= b.bottom
    requires first == y * job.width + b.left && s == (job.SourceY(y) - b.top) * b.Stride()
            && j == v * job.width + u < job.Count()
    requires (s + b.Stride()) * job.format <= |bitmap|
    requires Spanned(before, after, bitmap, job.Count(), job.format, first, s, b.Stride(), j)
    ensures job.SourceX(u) == u
    ensures At(job, after, u, v) == if v == y && b.left <= u < b.right + 1 then Wanted(job, b, bitmap, u, v)
            else At(job, before, u, v)
  {
    StraightColumns(job, u);
    RowOf(job, b, y, u, v);
  }

  /** A position outside the row of a block is before it or behind it. */
  lemma RowOf(job: Job, b: Block, y: nat, u: nat, v: nat)
    requires job.Valid() && Straight(job) && b.Valid(job) && u < job.width
    ensures !(v == y && b.left <= u < b.right + 1)
            ==> v * job.width + u < y * job.width + b.left || v * job.width + u >= y * job.width + b.left + b.Stride()
  {
    MulAdd(y, 1, job.width);
    MulAdd(v, 1, job.width);
    if v < y {
      MulLe(v + 1, y, job.width);
    } else if v > y {
      MulLe(y + 1, v, job.width);
    }
  }

  // ---------------------------------------------------------------- one block

  /** The rows before `end` have what the block gives them; nothing else has changed. */
  ghost predicate BlockDone(job: Job, b: Block, bitmap: seq<byte>, before: seq<byte>, after: seq<byte>, end: nat)
    requires Matches(job, b, bitmap)
    requires |before| == |after| == job.Count() * job.format
  {
    forall u, v :: 0 <= u < job.width && 0 <= v < job.height ==>
      At(job, after, u, v)
      == if v < end && b.Holds(job.SourceX(u), job.SourceY(v)) then Wanted(job, b, bitmap, u, v)
          else At(job, before, u, v)
  }

  /** The rows of a block, and their sources. */
  lemma BlockRows(job: Job, b: Block, y: nat)
    requires job.Valid() && b.Valid(job)
    ensures CeilRatio(b.top, job.height, job.decodedHeight) <= y
            < CeilRatio(b.bottom + 1, job.height, job.decodedHeight)
       <==> b.top <= job.SourceY(y) <= b.bottom
    ensures b.top <= job.SourceY(y) <= b.bottom ==> y < job.height
  {
    TileExact(b.top, b.bottom, y, job.decodedHeight, job.height);
    FloorReaches(y * job.decodedHeight, job.height, job.decodedHeight);
    if y >= job.height {
      MulLe(job.height, y, job.decodedHeight);
    }
  }

  /** One row of a block, copied or scaled. */
  method BlockRow(job: Job, b: Block, bitmap: seq<byte>, pixels: array<byte>, ghost before: seq<byte>, y: nat, x0: nat,
                  x1: nat)
    requires Matches(job, b, bitmap)
    requires pixels.Length == |before| == job.Count() * job.format
    requires x0 == CeilRatio(b.left, job.width, job.decodedWidth)
            && x1 == CeilRatio(b.right + 1, job.width, job.decodedWidth)
    requires b.top <= job.SourceY(y) <= b.bottom && BlockDone(job, b, bitmap, before, pixels[..], y)
    modifies pixels
    ensures BlockDone(job, b, bitmap, before, pixels[..], y + 1)
  {
    ghost var mid := pixels[..];
    RowColumns(job, b, y, x0, x1);
    if Straight(job) {
      CopyRow(job, b, bitmap, pixels, y);
    } else {
      WriteRow(job, b, bitmap, pixels, y, x0, x1);
    }
    BlockGrows(job, b, bitmap, before, mid, pixels[..], y, x0, x1);
  }

  /** What is needed to write a row between its columns. */
  lemma RowColumns(job: Job, b: Block, y: nat, x0: nat, x1: nat)
    requires job.Valid() && b.Valid(job) && b.top <= job.SourceY(y) <= b.bottom
    requires x0 == CeilRatio(b.left, job.width, job.decodedWidth)
            && x1 == CeilRatio(b.right + 1, job.width, job.decodedWidth)
    ensures y < job.height && x0 <= x1 <= job.width
    ensures forall u: nat :: x0 <= u < x1 <==> b.left <= job.SourceX(u) <= b.right
    ensures Straight(job) ==> x0 == b.left && x1 == b.right + 1
  {
    BlockRows(job, b, y);
    EdgesOrdered(job, b);
    forall u: nat ensures x0 <= u < x1 <==> b.left <= job.SourceX(u) <= b.right {
      Columns(job, b, u);
    }
    if Straight(job) {
      StraightColumns(job, b.left);
      StraightColumns(job, b.right + 1);
    }
  }

  lemma BlockGrows(job: Job, b: Block, bitmap: seq<byte>, before: seq<byte>, mid: seq<byte>, after: seq<byte>, y: nat,
                   x0: nat, x1: nat)
    requires Matches(job, b, bitmap) && y < job.height && x1 <= job.width
    requires |before| == |mid| == |after| == job.Count() * job.format && b.top <= job.SourceY(y) <= b.bottom
    requires forall u: nat :: x0 <= u < x1 <==> b.left <= job.SourceX(u) <= b.right
    requires BlockDone(job, b, bitmap, before, mid, y) && RowDone(job, b, bitmap, mid, after, y, x0, x1)
    ensures BlockDone(job, b, bitmap, before, after, y + 1)
  {
    forall u, v | 0 <= u < job.width && 0 <= v < job.height
      ensures At(job, after, u, v)
           == if v < y + 1 && b.Holds(job.SourceX(u), job.SourceY(v)) then Wanted(job, b, bitmap, u, v)
               else At(job, before, u, v)
    {
      assert x0 <= u < x1 <==> b.left <= job.SourceX(u) <= b.right;
    }
  }

  lemma EdgesOrdered(job: Job, b: Block)
    requires job.Valid() && b.Valid(job)
    ensures var x0, x1 := CeilRatio(b.left, job.width, job.decodedWidth),
            CeilRatio(b.right + 1, job.width, job.decodedWidth);
            x0 <= x1 <= job.width
    ensures var y0, y1 := CeilRatio(b.top, job.height, job.decodedHeight),
            CeilRatio(b.bottom + 1, job.height, job.decodedHeight);
            y0 <= y1 <= job.height
  {
    CeilMonotone(b.left, b.right + 1, job.width, job.decodedWidth);
    CeilMonotone(b.right + 1, job.decodedWidth, job.width, job.decodedWidth);
    WholeTile(job.decodedWidth, job.width);
    CeilMonotone(b.top, b.bottom + 1, job.height, job.decodedHeight);
    CeilMonotone(b.bottom + 1, job.decodedHeight, job.height, job.decodedHeight);
    WholeTile(job.decodedHeight, job.height);
  }

  lemma CeilMonotone(a: nat, b: nat, n: nat, d: nat)
    requires a <= b && d > 0
    ensures CeilRatio(a, n, d) <= CeilRatio(b, n, d)
  {
    CeilReached(a, n, d, CeilRatio(b, n, d));
    CeilReached(b, n, d, CeilRatio(b, n, d));
    MulLe(a, b, n);
  }

  /**
   jpeg_write and copy_strip: exactly the output pixels whose source lies in the block are written, with that source
   pixel.
   */
  method WriteBlock(job: Job, b: Block, bitmap: seq<byte>, pixels: array<byte>)
    requires Matches(job, b, bitmap)
    requires pixels.Length == job.Count() * job.format
    modifies pixels
    ensures BlockDone(job, b, bitmap, old(pixels[..]), pixels[..], job.height)
  {
    ghost var before := pixels[..];
    var x0, x1 := CeilRatio(b.left, job.width, job.decodedWidth), CeilRatio(b.right + 1, job.width, job.decodedWidth);
    var y0, y1 := CeilRatio(b.top, job.height, job.decodedHeight),
        CeilRatio(b.bottom + 1, job.height, job.decodedHeight);
    EdgesOrdered(job, b);
    NoneAbove(job, b, bitmap, before, y0);
    for y := y0 to y1
      invariant BlockDone(job, b, bitmap, before, pixels[..], y)
    {
      BlockRows(job, b, y);
      BlockRow(job, b, bitmap, pixels, before, y, x0, x1);
    }
    NoneBelow(job, b, bitmap, before, pixels[..], y1);
  }

  lemma NoneAbove(job: Job, b: Block, bitmap: seq<byte>, before: seq<byte>, y0: nat)
    requires Matches(job, b, bitmap)
    requires |before| == job.Count() * job.format && y0 == CeilRatio(b.top, job.height, job.decodedHeight)
    ensures BlockDone(job, b, bitmap, before, before, y0)
  {
    forall v: nat | v < y0 ensures !(b.top <= job.SourceY(v) <= b.bottom) {
      BlockRows(job, b, v);
    }
  }

  lemma NoneBelow(job: Job, b: Block, bitmap: seq<byte>, before: seq<byte>, after: seq<byte>, y1: nat)
    requires Matches(job, b, bitmap)
    requires |before| == |after| == job.Count() * job.format
    requires y1 == CeilRatio(b.bottom + 1, job.height, job.decodedHeight)
            && BlockDone(job, b, bitmap, before, after, y1)
    ensures BlockDone(job, b, bitmap, before, after, job.height)
  {
    forall v: nat | v >= y1 ensures !(b.top <= job.SourceY(v) <= b.bottom) {
      BlockRows(job, b, v);
    }
  }
}
