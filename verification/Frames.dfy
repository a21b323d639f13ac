/**
 MONO1 frames and the rectangles that scripts/dlp_image.py sends: eight pixels a byte, lowest bit leftmost, rows
 padded to whole bytes. A rectangle is cut out of a frame row by row and painted back the same way.
 */
module Frames {
  import opened Words
  import opened Arith

  datatype Geometry = Geometry(width: nat, height: nat) {
    predicate Valid() { 0 < width < 0x1_0000 && 0 < height < 0x1_0000 }

    function Stride(): (r: nat)
      ensures 8 * r - 7 <= width <= 8 * r
    {
      (width + 7) / 8
    }

    function Size(): nat { Stride() * height }
  }

  datatype Rect = Rect(x: nat, y: nat, w: nat, h: nat) {
    function Row(): (r: nat)
      ensures 8 * r - 7 <= w <= 8 * r
    {
      (w + 7) / 8
    }

    function Bytes(): nat { Row() * h }

    /** The rectangle holds this byte of the frame. */
    predicate Holds(row: nat, col: nat) { y <= row < y + h && x / 8 <= col < x / 8 + Row() }
  }

  /** On a byte boundary, and ending on one or at the right edge. */
  predicate Aligned(g: Geometry, r: Rect) {
    && r.x % 8 == 0 && 0 < r.w && 0 < r.h && r.x + r.w <= g.width && r.y + r.h <= g.height
    && (r.w % 8 == 0 || r.x + r.w == g.width)
  }

  function Whole(g: Geometry): Rect { Rect(0, 0, g.width, g.height) }

  function Power2(k: nat): (r: nat)
    requires k <= 8
    ensures r in {1, 2, 4, 8, 16, 32, 64, 128, 256} && (k < 8 ==> r < 256)
  {
    match k
    case 0 => 1
    case 1 => 2
    case 2 => 4
    case 3 => 8
    case 4 => 16
    case 5 => 32
    case 6 => 64
    case 7 => 128
    case _ => 256
  }

  /** The pixels in the last byte of a row. */
  function LastBits(width: nat): (k: nat)
    ensures 1 <= k <= 8
  {
    if width % 8 == 0 then 8 else width % 8
  }

  /** The low k bits from `data`, the rest from `old`. */
  function Merge(old_: byte, data: byte, k: nat): (r: byte)
    requires k <= 8
    ensures old_ < Power2(k) && data < Power2(k) ==> r == data
  {
    var p := Power2(k);
    old_ / p * p + data % p
  }

  /** A frame: the right length, no bit set beyond the right edge. */
  predicate IsFrame(g: Geometry, f: seq<byte>) {
    && g.Valid() && |f| == g.Size()
    && forall row, col :: 0 <= row < g.height && 0 <= col < g.Stride() ==> Fits(g, Pixels(g, f, row, col), col)
  }

  predicate Fits(g: Geometry, b: byte, col: nat) {
    col == g.Stride() - 1 ==> b < Power2(LastBits(g.width))
  }

  /** Bit k of a byte. */
  function Bit(b: byte, k: nat): (r: nat)
    requires k < 8
    ensures r <= 1
  {
    b / Power2(k) % 2
  }

  lemma TopBit(b: byte, k: nat)
    requires k < 8 && b < Power2(k + 1)
    ensures Bit(b, k) == 0 <==> b < Power2(k)
  {
    var p := Power2(k);
    if b < p {
      Quotient(0, b, p);
    } else {
      Quotient(1, b - p, p);
    }
  }

  lemma {:induction false} LowBits(b: byte, n: nat)
    requires 1 <= n <= 8
    ensures b < Power2(n) <==> forall k :: n <= k < 8 ==> Bit(b, k) == 0
    decreases 8 - n
  {
    if n == 8 {
      assert Power2(8) == 256;
    } else {
      LowBits(b, n + 1);
      if b < Power2(n + 1) {
        TopBit(b, n);
      }
    }
  }

  /** The byte that holds pixel x of a row. */
  function PixelByte(g: Geometry, f: seq<byte>, row: nat, x: nat): (r: byte)
    requires |f| == g.Size() && row < g.height && x < 8 * g.Stride()
  {
    Index(g, row, x / 8);
    f[row * g.Stride() + x / 8]
  }

  /** No bit of the row is set that belongs to a pixel beyond the right edge. */
  predicate RowClean(g: Geometry, f: seq<byte>, row: nat)
    requires |f| == g.Size() && row < g.height
  {
    forall x :: g.width <= x < 8 * g.Stride() ==> Bit(PixelByte(g, f, row, x), x % 8) == 0
  }

  predicate NoStrayBits(g: Geometry, f: seq<byte>)
    requires |f| == g.Size()
  {
    forall row :: 0 <= row < g.height ==> RowClean(g, f, row)
  }

  /** The pixels beyond the edge are the upper bits of the last byte. */
  lemma Beyond(g: Geometry, x: nat)
    requires g.Valid()
    ensures g.width <= x < 8 * g.Stride() <==> x / 8 == g.Stride() - 1 && x % 8 >= LastBits(g.width)
  {
  }

  lemma PixelBit(g: Geometry, f: seq<byte>, row: nat, k: nat)
    requires g.Valid() && |f| == g.Size() && row < g.height && LastBits(g.width) <= k < 8 && RowClean(g, f, row)
    ensures Bit(Pixels(g, f, row, g.Stride() - 1), k) == 0
  {
    var x := 8 * (g.Stride() - 1) + k;
    Quotient(g.Stride() - 1, k, 8);
    Beyond(g, x);
    assert Bit(PixelByte(g, f, row, x), x % 8) == 0;
  }

  /** The last byte of a row has no stray bits exactly when it is small enough. */
  lemma RowMeans(g: Geometry, f: seq<byte>, row: nat)
    requires g.Valid() && |f| == g.Size() && row < g.height
    ensures Fits(g, Pixels(g, f, row, g.Stride() - 1), g.Stride() - 1) <==> RowClean(g, f, row)
  {
    var n := LastBits(g.width);
    var b := Pixels(g, f, row, g.Stride() - 1);
    LowBits(b, n);
    if RowClean(g, f, row) {
      forall k | n <= k < 8 ensures Bit(b, k) == 0 {
        PixelBit(g, f, row, k);
      }
    } else {
      var x :| g.width <= x < 8 * g.Stride() && Bit(PixelByte(g, f, row, x), x % 8) != 0;
      Beyond(g, x);
      assert Bit(b, x % 8) != 0;
    }
  }

  /** A frame is exactly as many bytes as it needs, without stray bits. */
  lemma FrameMeans(g: Geometry, f: seq<byte>)
    requires g.Valid() && |f| == g.Size()
    ensures IsFrame(g, f) <==> NoStrayBits(g, f)
  {
    if IsFrame(g, f) {
      forall row | 0 <= row < g.height ensures RowClean(g, f, row) {
        RowMeans(g, f, row);
      }
    }
    if NoStrayBits(g, f) {
      forall row, col | 0 <= row < g.height && 0 <= col < g.Stride() ensures Fits(g, Pixels(g, f, row, col), col) {
        RowMeans(g, f, row);
        assert RowClean(g, f, row);
      }
    }
  }

  lemma Index(g: Geometry, row: nat, col: nat)
    requires row < g.height && col < g.Stride()
    ensures row * g.Stride() + col < g.Size()
    ensures (row * g.Stride() + col) / g.Stride() == row && (row * g.Stride() + col) % g.Stride() == col
  {
    var s := g.Stride();
    MulAdd(row, 1, s);
    MulLe(row + 1, g.height, s);
    Quotient(row, col, s);
  }

  lemma Position(g: Geometry, i: nat)
    requires i < g.Size()
    ensures g.Stride() > 0 && i / g.Stride() < g.height && i % g.Stride() < g.Stride()
    ensures i / g.Stride() * g.Stride() + i % g.Stride() == i
  {
    var s := g.Stride();
    if s > 0 {
      Division(i, s);
      if i / s >= g.height {
        MulLe(g.height, i / s, s);
      }
    }
  }

  /** The byte of eight pixels at a row and a byte column. */
  function Pixels(g: Geometry, f: seq<byte>, row: nat, col: nat): (r: byte)
    requires |f| == g.Size() && row < g.height && col < g.Stride()
  {
    Index(g, row, col);
    f[row * g.Stride() + col]
  }

  lemma SameFrame(g: Geometry, a: seq<byte>, b: seq<byte>)
    requires |a| == |b| == g.Size()
    requires forall row, col :: 0 <= row < g.height && 0 <= col < g.Stride() ==>
            Pixels(g, a, row, col) == Pixels(g, b, row, col)
    ensures a == b
  {
    forall i | 0 <= i < |a| ensures a[i] == b[i] {
      Position(g, i);
      assert Pixels(g, a, i / g.Stride(), i % g.Stride()) == Pixels(g, b, i / g.Stride(), i % g.Stride());
    }
  }

  // ---------------------------------------------------------------- painting

  /** Where a byte of the frame lies in the data of a rectangle. */
  function Place(r: Rect, row: nat, col: nat): (j: nat)
    requires r.Holds(row, col)
    ensures j < r.Bytes()
  {
    MulAdd(row - r.y, 1, r.Row());
    MulLe(row - r.y + 1, r.h, r.Row());
    MulLe(0, row - r.y, r.Row());
    (row - r.y) * r.Row() + (col - r.x / 8)
  }

  /** The bits of a byte column that belong to the rectangle. */
  function BitsAt(r: Rect, col: nat): (k: nat)
    ensures 1 <= k <= 8
  {
    if col == r.x / 8 + r.Row() - 1 then LastBits(r.w) else 8
  }

  function PaintByte(r: Rect, offset: nat, data: seq<byte>, row: nat, col: nat, old_: byte): byte {
    if r.Holds(row, col) && offset <= Place(r, row, col) < offset + |data|
    then Merge(old_, data[Place(r, row, col) - offset], BitsAt(r, col))
    else old_
  }

  /** Writing `data` at `offset` of a rectangle's data into a canvas. */
  function Paint(g: Geometry, canvas: seq<byte>, r: Rect, offset: nat, data: seq<byte>): (p: seq<byte>)
    requires |canvas| == g.Size()
    ensures |p| == |canvas|
  {
    seq(|canvas|, i requires 0 <= i < |canvas| =>
      Position(g, i);
      PaintByte(r, offset, data, i / g.Stride(), i % g.Stride(), canvas[i]))
  }

  lemma Painted(g: Geometry, canvas: seq<byte>, r: Rect, offset: nat, data: seq<byte>, row: nat, col: nat)
    requires |canvas| == g.Size() && row < g.height && col < g.Stride()
    ensures Pixels(g, Paint(g, canvas, r, offset, data), row, col)
         == PaintByte(r, offset, data, row, col, Pixels(g, canvas, row, col))
  {
    Index(g, row, col);
  }

  /** Consecutive pieces paint what the joined piece paints. */
  lemma PaintTwice(g: Geometry, canvas: seq<byte>, r: Rect, offset: nat, a: seq<byte>, b: seq<byte>)
    requires |canvas| == g.Size()
    ensures Paint(g, Paint(g, canvas, r, offset, a), r, offset + |a|, b) == Paint(g, canvas, r, offset, a + b)
  {
    var once := Paint(g, canvas, r, offset, a);
    var both, joined := Paint(g, once, r, offset + |a|, b), Paint(g, canvas, r, offset, a + b);
    forall row, col | 0 <= row < g.height && 0 <= col < g.Stride()
      ensures Pixels(g, both, row, col) == Pixels(g, joined, row, col)
    {
      Painted(g, canvas, r, offset, a, row, col);
      Painted(g, once, r, offset + |a|, b, row, col);
      Painted(g, canvas, r, offset, a + b, row, col);
      OneByte(r, offset, a, b, row, col, Pixels(g, canvas, row, col));
    }
    SameFrame(g, both, joined);
  }

  lemma OneByte(r: Rect, offset: nat, a: seq<byte>, b: seq<byte>, row: nat, col: nat, c: byte)
    ensures PaintByte(r, offset + |a|, b, row, col, PaintByte(r, offset, a, row, col, c))
         == PaintByte(r, offset, a + b, row, col, c)
  {
  }

  lemma PaintNothing(g: Geometry, canvas: seq<byte>, r: Rect, offset: nat)
    requires |canvas| == g.Size()
    ensures Paint(g, canvas, r, offset, []) == canvas
  {
  }

  // ---------------------------------------------------------------- cutting

  /** One row of a rectangle's data. */
  function CutRow(g: Geometry, f: seq<byte>, r: Rect, k: nat): (d: seq<byte>)
    requires |f| == g.Size() && Aligned(g, r) && k < r.h
    ensures |d| == r.Row()
    ensures forall c :: 0 <= c < r.Row() ==> d[c] == Pixels(g, f, r.y + k, r.x / 8 + c)
  {
    var at := (r.y + k) * g.Stride() + r.x / 8;
    Index(g, r.y + k, r.x / 8 + r.Row() - 1);
    f[at..at + r.Row()]
  }

  /** The rows joined, from the first. */
  function Cut(g: Geometry, f: seq<byte>, r: Rect, rows: nat): (d: seq<byte>)
    requires |f| == g.Size() && Aligned(g, r) && rows <= r.h
    ensures |d| == r.Row() * rows
  {
    if rows == 0 then [] else Cut(g, f, r, rows - 1) + CutRow(g, f, r, rows - 1)
  }

  lemma {:induction false} CutAt(g: Geometry, f: seq<byte>, r: Rect, rows: nat, row: nat, col: nat)
    requires |f| == g.Size() && Aligned(g, r) && rows <= r.h && r.Holds(row, col) && row < r.y + rows
    ensures Place(r, row, col) < r.Row() * rows && Cut(g, f, r, rows)[Place(r, row, col)] == Pixels(g, f, row, col)
  {
    var n := r.Row();
    var k := row - r.y;
    assert n * (rows - 1) + n == n * rows;
    if k == rows - 1 {
      assert Place(r, row, col) == n * (rows - 1) + (col - r.x / 8);
    } else {
      CutAt(g, f, r, rows - 1, row, col);
    }
  }

  /** Painting what was cut out of a frame copies exactly that rectangle of it. */
  lemma Copied(g: Geometry, canvas: seq<byte>, f: seq<byte>, r: Rect, row: nat, col: nat)
    requires IsFrame(g, canvas) && IsFrame(g, f) && Aligned(g, r) && row < g.height && col < g.Stride()
    ensures Pixels(g, Paint(g, canvas, r, 0, Cut(g, f, r, r.h)), row, col)
         == if r.Holds(row, col) then Pixels(g, f, row, col) else Pixels(g, canvas, row, col)
  {
    var data := Cut(g, f, r, r.h);
    Painted(g, canvas, r, 0, data, row, col);
    if r.Holds(row, col) {
      CutAt(g, f, r, r.h, row, col);
      var c, d := Pixels(g, canvas, row, col), Pixels(g, f, row, col);
      assert Fits(g, c, col) && Fits(g, d, col);
      EdgeBits(g, r, col);
    }
  }

  /** Only the byte at the right edge is partial, and there the rectangle has all the pixels that the frame has. */
  lemma EdgeBits(g: Geometry, r: Rect, col: nat)
    requires Aligned(g, r) && r.x / 8 <= col < r.x / 8 + r.Row()
    ensures BitsAt(r, col) == 8 || (col == g.Stride() - 1 && BitsAt(r, col) == LastBits(g.width))
  {
  }
}
