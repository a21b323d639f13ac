/**
 How scripts/dlp_image.py turns rectangles into upload commands: bands that fit the receiver's rectangle buffer, and
 data cells that carry each band raw or run-length encoded.
 */
module FramePlan {
  import opened Wrappers
  import opened Words
  import opened Arith
  import opened Frames
  import opened Diff
  import opened Rle

  datatype Command =
    | BeginFrame(frame: nat, full: bool)
    | BeginRect(frame: nat, rect: nat, r: Rect)
    | RectData(frame: nat, rect: nat, offset: nat, bytes: seq<byte>)
    | RectRle(frame: nat, rect: nat, offset: nat, count: nat, encoded: seq<byte>)
    | Present(frame: nat)

  // ---------------------------------------------------------------- bands

  predicate Plannable(g: Geometry, max: nat, rects: seq<Rect>) {
    g.Valid() && g.Stride() <= max && forall k :: 0 <= k < |rects| ==> Aligned(g, rects[k])
  }

  /** The rows of a rectangle from `offset` on, `count` at a time. */
  function Slices(r: Rect, count: nat, offset: nat): (bands: seq<Rect>)
    requires count > 0
    decreases r.h - offset
  {
    if offset >= r.h then []
    else [Rect(r.x, r.y + offset, r.w, Least(count, r.h - offset))] + Slices(r, count, offset + count)
  }

  /** `bands`: no piece has more than `max` bytes of data. */
  function Bands(g: Geometry, max: nat, rects: seq<Rect>): (bands: seq<Rect>)
    requires Plannable(g, max, rects)
  {
    if rects == [] then []
    else
      assert rects[0].Row() <= g.Stride();
      Slices(rects[0], max / rects[0].Row(), 0) + Bands(g, max, rects[1..])
  }

  /** What every band of a plan satisfies. */
  predicate BandOk(g: Geometry, max: nat, r: Rect) {
    Aligned(g, r) && r.Bytes() <= max
  }

  predicate AllOk(g: Geometry, max: nat, bands: seq<Rect>) {
    forall k :: 0 <= k < |bands| ==> BandOk(g, max, bands[k])
  }

  lemma HeldConcat(a: seq<Rect>, b: seq<Rect>, row: nat, col: nat)
    ensures Held(a + b, row, col) <==> (Held(a, row, col) || Held(b, row, col))
  {
    if Held(a, row, col) {
      var k :| 0 <= k < |a| && a[k].Holds(row, col);
      assert (a + b)[k].Holds(row, col);
    }
    if Held(b, row, col) {
      var k :| 0 <= k < |b| && b[k].Holds(row, col);
      assert (a + b)[|a| + k].Holds(row, col);
    }
  }

  lemma HeldOne(r: Rect, row: nat, col: nat)
    ensures Held([r], row, col) <==> r.Holds(row, col)
  {
    if r.Holds(row, col) {
      assert [r][0].Holds(row, col);
    }
  }

  lemma CountFits(row: nat, max: nat)
    requires 0 < row <= max
    ensures 0 < max / row && max / row * row <= max
  {
    Division(max, row);
    if max / row < 1 {
      MulLe(max / row, 0, row);
    }
  }

  lemma {:induction false} SlicesHold(g: Geometry, max: nat, r: Rect, count: nat, offset: nat, row: nat, col: nat)
    requires Aligned(g, r) && count > 0 && count * r.Row() <= max
    ensures AllOk(g, max, Slices(r, count, offset))
            && |Slices(r, count, offset)| <= (if offset < r.h then r.h - offset else 0)
    ensures Held(Slices(r, count, offset), row, col) <==> (r.Holds(row, col) && row >= r.y + offset)
    decreases r.h - offset
  {
    if offset < r.h {
      var band := Rect(r.x, r.y + offset, r.w, Least(count, r.h - offset));
      var rest := Slices(r, count, offset + count);
      SlicesHold(g, max, r, count, offset + count, row, col);
      MulLe(band.h, count, r.Row());
      assert BandOk(g, max, band);
      HeldConcat([band], rest, row, col);
      HeldOne(band, row, col);
    }
  }

  /** Every band fits the buffer, and none but the last of its rectangle has room for another row. */
  lemma {:induction false} SlicesAreFull(r: Rect, max: nat, offset: nat, k: nat)
    requires 0 < r.Row() <= max && k < |Slices(r, max / r.Row(), offset)|
    ensures var bands := Slices(r, max / r.Row(), offset); var b := bands[k];
            && b.x == r.x && b.w == r.w && b.Bytes() <= max
            && (k + 1 < |bands| ==> max < b.Bytes() + b.Row())
    decreases r.h - offset
  {
    var count := max / r.Row();
    CountFits(r.Row(), max);
    Division(max, r.Row());
    MulAdd(count, 1, r.Row());
    if offset < r.h {
      MulLe(Least(count, r.h - offset), count, r.Row());
      if k > 0 {
        SlicesAreFull(r, max, offset + count, k - 1);
      }
    }
  }

  function SumHeights(rects: seq<Rect>): nat {
    if rects == [] then 0 else rects[0].h + SumHeights(rects[1..])
  }

  /** The bands hold exactly what the rectangles hold, each fits, and there is at most one per row. */
  lemma {:induction false} BandsHold(g: Geometry, max: nat, rects: seq<Rect>, row: nat, col: nat)
    requires Plannable(g, max, rects)
    ensures AllOk(g, max, Bands(g, max, rects)) && |Bands(g, max, rects)| <= SumHeights(rects)
    ensures Held(Bands(g, max, rects), row, col) <==> Held(rects, row, col)
  {
    if rects != [] {
      var r := rects[0];
      assert rects == [r] + rects[1..];
      assert 0 < r.Row() <= g.Stride();
      CountFits(r.Row(), max);
      SlicesHold(g, max, r, max / r.Row(), 0, row, col);
      BandsHold(g, max, rects[1..], row, col);
      HeldConcat(Slices(r, max / r.Row(), 0), Bands(g, max, rects[1..]), row, col);
      HeldConcat([r], rects[1..], row, col);
      HeldOne(r, row, col);
    }
  }

  // ---------------------------------------------------------------- cost

  /** Data cells of 208 bytes. */
  function Cells(n: nat): nat { (n + 207) / 208 }

  function BandCost(bands: seq<Rect>): nat {
    if bands == [] then 0 else BandCost(bands[..|bands| - 1]) + 1 + Cells(bands[|bands| - 1].Bytes())
  }

  /** `cost`: the cells of an upload without compression, BEGIN_FRAME and PRESENT aside. */
  function Cost(g: Geometry, max: nat, rects: seq<Rect>): nat
    requires Plannable(g, max, rects)
  {
    BandCost(Bands(g, max, rects))
  }

  // ---------------------------------------------------------------- data cells

  /** The bytes that a data command stands for. */
  function Content(c: Command): (r: Option<seq<byte>>) {
    match c
    case RectData(_, _, _, bytes) => Some(bytes)
    case RectRle(_, _, _, count, encoded) =>
      var e := Expand(encoded);
      if e.Some? && |e.value| == count then e else None
    case _ => None
  }

  predicate IsData(c: Command, f: nat, rect: nat, offset: nat) {
    (c.RectData? || c.RectRle?) && c.frame == f && c.rect == rect && c.offset == offset
  }

  /** The bytes of payload behind the frame, rectangle and offset. */
  function Room(c: Command): nat {
    match c
    case RectData(_, _, _, bytes) => |bytes|
    case RectRle(_, _, _, _, encoded) => 2 + |encoded|
    case _ => 0
  }

  /** The bytes that a compressed cell may cover. */
  function Ahead(data: seq<byte>, offset: nat): seq<byte>
    requires offset < |data|
  {
    data[offset..Least(offset + 1024, |data|)]
  }

  /** Compression pays: it covers more than a raw cell, or as much in fewer bytes. */
  predicate Pays(data: seq<byte>, offset: nat)
    requires offset < |data|
  {
    var raw, e := Least(208, |data| - offset), Encoded(Ahead(data, offset), 0, 206);
    e.next > raw || (e.next == raw && |e.bytes| + 2 < raw)
  }

  /** The next data cell of a band. */
  function CellFor(f: nat, rect: nat, data: seq<byte>, offset: nat, rle: bool): (c: Command)
    requires offset < |data|
  {
    var raw, e := Least(208, |data| - offset), Encoded(Ahead(data, offset), 0, 206);
    if rle && Pays(data, offset) then RectRle(f, rect, offset, e.next, e.bytes)
    else RectData(f, rect, offset, data[offset..offset + raw])
  }

  /** The cell fits its packet and carries the next n bytes of the band: as many as a raw cell would, or more. */
  predicate CellOk(c: Command, f: nat, rect: nat, data: seq<byte>, offset: nat, n: nat) {
    && IsData(c, f, rect, offset) && Room(c) <= 208 && (c.RectRle? ==> c.count <= 1024)
    && offset < offset + n <= |data| && Least(208, |data| - offset) <= n && Content(c) == Some(data[offset..offset + n])
  }

  /** How much of the band the next cell carries. */
  function Advance(data: seq<byte>, offset: nat, rle: bool): (n: nat)
    requires offset < |data|
    ensures 0 < n <= |data| - offset
  {
    if rle && Pays(data, offset) then Encoded(Ahead(data, offset), 0, 206).next else Least(208, |data| - offset)
  }

  lemma CellForCarries(f: nat, rect: nat, data: seq<byte>, offset: nat, rle: bool)
    requires offset < |data|
    ensures CellOk(CellFor(f, rect, data, offset, rle), f, rect, data, offset, Advance(data, offset, rle))
  {
    if rle && Pays(data, offset) {
      RleCellCarries(f, rect, data, offset, Ahead(data, offset), Encoded(Ahead(data, offset), 0, 206));
    }
  }

  lemma RleCellCarries(f: nat, rect: nat, data: seq<byte>, offset: nat, part: seq<byte>, e: Piece)
    requires offset < |data| && part == Ahead(data, offset) && e == Encoded(part, 0, 206)
            && e.next >= Least(208, |data| - offset)
    ensures CellOk(RectRle(f, rect, offset, e.next, e.bytes), f, rect, data, offset, e.next)
  {
    var same := EncodedExpands(part, 0, 206);
    AheadSlice(data, offset, part, e.next);
  }

  lemma AheadSlice(data: seq<byte>, offset: nat, part: seq<byte>, n: nat)
    requires offset < |data| && part == Ahead(data, offset) && n <= |part|
    ensures offset + n <= |data| && n <= 1024 && part[0..n] == data[offset..offset + n]
  {
  }

  /**
   The next cell compresses the next 1024 bytes into 206, if that is wanted and pays; otherwise it is 208 bytes as
   they are.
   */
  predicate RightCell(f: nat, rect: nat, data: seq<byte>, offset: nat, rle: bool, part: seq<byte>, c: Command,
                      used: nat)
    requires offset < |data|
  {
    var raw, e := Least(208, |data| - offset), Encoded(part, 0, 206);
    if rle && (e.next > raw || (e.next == raw && 2 + |e.bytes| < raw)) then
      c == RectRle(f, rect, offset, e.next, e.bytes) && used == e.next
    else
      c == RectData(f, rect, offset, data[offset..offset + raw]) && used == raw
  }

  lemma CellMeans(f: nat, rect: nat, data: seq<byte>, offset: nat, rle: bool)
    requires offset < |data|
    ensures RightCell(f, rect, data, offset, rle, data[offset..Least(offset + 1024, |data|)],
                      CellFor(f, rect, data, offset, rle), Advance(data, offset, rle))
  {
  }

  /** One data cell: `used` more bytes of the band. */
  method DataCell(f: nat, rect: nat, data: seq<byte>, offset: nat, rle: bool) returns (c: Command, used: nat)
    requires offset < |data|
    ensures c == CellFor(f, rect, data, offset, rle) && used == Advance(data, offset, rle)
  {
    var raw := Least(208, |data| - offset);
    CellMeans(f, rect, data, offset, rle);
    c, used := RectData(f, rect, offset, data[offset..offset + raw]), raw;
    if rle {
      var encoded, consumed := RleEncode(data[offset..Least(offset + 1024, |data|)]);
      if consumed > raw || (consumed == raw && |encoded| + 2 < raw) {
        c, used := RectRle(f, rect, offset, consumed, encoded), consumed;
      }
    }
  }

  /** All data cells of a band from `offset` on. */
  function BandCells(f: nat, rect: nat, data: seq<byte>, offset: nat, rle: bool): (cmds: seq<Command>)
    requires offset <= |data|
    decreases |data| - offset
  {
    if offset == |data| then []
    else
      [CellFor(f, rect, data, offset, rle)] + BandCells(f, rect, data, offset + Advance(data, offset, rle), rle)
  }

  /** The command carries the next bytes of `data`. */
  predicate CarriesHead(c: Command, f: nat, rect: nat, offset: nat, data: seq<byte>) {
    && IsData(c, f, rect, offset) && Room(c) <= 208 && (c.RectRle? ==> c.count <= 1024) && Content(c).Some?
    && 0 < |Content(c).value| && Content(c).value <= data
  }

  /** The commands carry `data` from `offset` of a rectangle on, in order, without gap or overlap. */
  predicate Carries(cmds: seq<Command>, f: nat, rect: nat, offset: nat, data: seq<byte>)
    decreases |cmds|
  {
    if cmds == [] then data == []
    else
      && CarriesHead(cmds[0], f, rect, offset, data)
      && var n := |Content(cmds[0]).value|; Carries(cmds[1..], f, rect, offset + n, data[n..])
  }

  lemma FewerCells(n: nat, used: nat)
    requires n > 0 && Least(208, n) <= used <= n
    ensures Cells(n) >= 1 + Cells(n - used)
  {
  }

  /** The cells carry the rest of the band in order, and are no more than raw cells would be. */
  lemma {:induction false} BandCellsCarry(f: nat, rect: nat, data: seq<byte>, offset: nat, rle: bool)
    requires offset <= |data|
    ensures CarriesRest(BandCells(f, rect, data, offset, rle), f, rect, offset, data)
    decreases |data| - offset
  {
    if offset < |data| {
      var n := Advance(data, offset, rle);
      CellForCarries(f, rect, data, offset, rle);
      BandCellsCarry(f, rect, data, offset + n, rle);
      FirstCell(CellFor(f, rect, data, offset, rle), BandCells(f, rect, data, offset + n, rle), f, rect, offset, data,
          n);
    } else {
      NoCells(f, rect, data);
    }
  }

  predicate CarriesRest(cmds: seq<Command>, f: nat, rect: nat, offset: nat, data: seq<byte>)
    requires offset <= |data|
  {
    Carries(cmds, f, rect, offset, data[offset..]) && |cmds| <= Cells(|data| - offset)
  }

  lemma NoCells(f: nat, rect: nat, data: seq<byte>)
    ensures CarriesRest([], f, rect, |data|, data)
  {
    assert data[|data|..] == [];
  }

  lemma FirstCell(c: Command, rest: seq<Command>, f: nat, rect: nat, offset: nat, data: seq<byte>, n: nat)
    requires CellOk(c, f, rect, data, offset, n)
    requires CarriesRest(rest, f, rect, offset + n, data)
    ensures CarriesRest([c] + rest, f, rect, offset, data)
  {
    FewerCells(|data| - offset, n);
    assert data[offset..][n..] == data[offset + n..] && data[offset..][..n] == data[offset..offset + n];
    assert ([c] + rest)[1..] == rest;
  }

  /** A receiver without run lengths gets raw cells only, as many as the cost says: all of 208 bytes but the last. */
  lemma {:induction false} RawCells(f: nat, rect: nat, data: seq<byte>, offset: nat)
    requires offset <= |data|
    ensures var cmds := BandCells(f, rect, data, offset, false);
            && |cmds| == Cells(|data| - offset)
            && forall k :: 0 <= k < |cmds| ==> cmds[k].RectData?
    decreases |data| - offset
  {
    if offset < |data| {
      var n := Advance(data, offset, false);
      RawCells(f, rect, data, offset + n);
      var cmds, rest := BandCells(f, rect, data, offset, false), BandCells(f, rect, data, offset + n, false);
      assert cmds == [CellFor(f, rect, data, offset, false)] + rest;
    }
  }

  predicate NoRle(cmds: seq<Command>) {
    forall k :: 0 <= k < |cmds| ==> !cmds[k].RectRle?
  }

  /** Nor anything else in its plan; and then the cost is exact. */
  lemma {:induction false} RawPlan(g: Geometry, f: nat, bands: seq<Rect>, pixels: seq<byte>)
    requires |pixels| == g.Size() && forall k :: 0 <= k < |bands| ==> Aligned(g, bands[k])
    ensures var cmds := PlanFor(g, f, bands, pixels, false);
            |cmds| == BandCost(bands) && NoRle(cmds)
    decreases |bands|
  {
    if bands != [] {
      var before, r := bands[..|bands| - 1], bands[|bands| - 1];
      RawPlan(g, f, before, pixels);
      RawCells(f, |bands|, Cut(g, pixels, r, r.h), 0);
      assert PlanFor(g, f, bands, pixels, false)
          == PlanFor(g, f, before, pixels, false) + SegmentFor(g, f, |bands|, r, pixels, false);
    }
  }

  /** The cells written so far, followed by those of the rest, are the cells of the band. */
  predicate BandGoesOn(f: nat, rect: nat, data: seq<byte>, rle: bool, cmds: seq<Command>, offset: nat) {
    offset <= |data| && cmds + BandCells(f, rect, data, offset, rle) == BandCells(f, rect, data, 0, rle)
  }

  /** The loop over one band's data. */
  method EncodeBand(f: nat, rect: nat, data: seq<byte>, rle: bool) returns (cmds: seq<Command>)
    ensures cmds == BandCells(f, rect, data, 0, rle)
  {
    cmds := [];
    var offset := 0;
    NoCellYet(f, rect, data, rle);
    while offset < |data|
      invariant BandGoesOn(f, rect, data, rle, cmds, offset)
      decreases |data| - offset
    {
      cmds, offset := OneMoreCell(f, rect, data, rle, cmds, offset);
    }
    LastCell(f, rect, data, rle, cmds);
  }

  /** The body of the loop. */
  method OneMoreCell(f: nat, rect: nat, data: seq<byte>, rle: bool, cmds: seq<Command>, offset: nat)
      returns (more: seq<Command>, next: nat)
    requires offset < |data| && BandGoesOn(f, rect, data, rle, cmds, offset)
    ensures offset < next && BandGoesOn(f, rect, data, rle, more, next)
  {
    var c, used := DataCell(f, rect, data, offset, rle);
    NextCell(f, rect, data, offset, rle, cmds, c, used);
    more, next := cmds + [c], offset + used;
  }

  lemma NoCellYet(f: nat, rect: nat, data: seq<byte>, rle: bool)
    ensures BandGoesOn(f, rect, data, rle, [], 0)
  {
    var all := BandCells(f, rect, data, 0, rle);
    assert [] + all == all;
  }

  lemma WholeBand(f: nat, rect: nat, data: seq<byte>, rle: bool)
    ensures var cmds := BandCells(f, rect, data, 0, rle); Carries(cmds, f, rect, 0, data) && |cmds| <= Cells(|data|)
  {
    BandCellsCarry(f, rect, data, 0, rle);
    assert data[0..] == data;
  }

  lemma CellsFrom(f: nat, rect: nat, data: seq<byte>, offset: nat, rle: bool, c: Command, used: nat)
    requires offset < |data| && c == CellFor(f, rect, data, offset, rle) && used == Advance(data, offset, rle)
    ensures offset + used <= |data|
    ensures BandCells(f, rect, data, offset, rle) == [c] + BandCells(f, rect, data, offset + used, rle)
  {
  }

  lemma NextCell(f: nat, rect: nat, data: seq<byte>, offset: nat, rle: bool, cmds: seq<Command>, c: Command, used: nat)
    requires offset < |data| && BandGoesOn(f, rect, data, rle, cmds, offset)
    requires c == CellFor(f, rect, data, offset, rle) && used == Advance(data, offset, rle)
    ensures BandGoesOn(f, rect, data, rle, cmds + [c], offset + used)
  {
    CellsFrom(f, rect, data, offset, rle, c, used);
    CellBefore(cmds, c, BandCells(f, rect, data, offset + used, rle));
  }

  lemma CellBefore(cmds: seq<Command>, c: Command, rest: seq<Command>)
    ensures cmds + ([c] + rest) == cmds + [c] + rest
  {
  }

  lemma LastCell(f: nat, rect: nat, data: seq<byte>, rle: bool, cmds: seq<Command>)
    requires BandGoesOn(f, rect, data, rle, cmds, |data|)
    ensures cmds == BandCells(f, rect, data, 0, rle)
  {
    assert cmds + [] == cmds;
  }

  // ---------------------------------------------------------------- a frame's rectangles

  /** The commands of one band: its announcement and its data. */
  predicate Segment(g: Geometry, f: nat, rect: nat, r: Rect, pixels: seq<byte>, cmds: seq<Command>)
    requires |pixels| == g.Size()
  {
    && cmds != [] && cmds[0] == BeginRect(f, rect, r) && Aligned(g, r)
    && Carries(cmds[1..], f, rect, 0, Cut(g, pixels, r, r.h))
  }

  /** The commands of all bands, numbered from 1. */
  ghost predicate Draws(g: Geometry, f: nat, bands: seq<Rect>, pixels: seq<byte>, cmds: seq<Command>)
    requires |pixels| == g.Size()
    decreases |bands|
  {
    if bands == [] then cmds == []
    else
      exists m :: 0 <= m <= |cmds| && DrawnAt(g, f, bands, pixels, cmds, m)
  }

  ghost predicate DrawnAt(g: Geometry, f: nat, bands: seq<Rect>, pixels: seq<byte>, cmds: seq<Command>, m: nat)
    requires |pixels| == g.Size() && bands != [] && m <= |cmds|
    decreases |bands|, 0
  {
    && Draws(g, f, bands[..|bands| - 1], pixels, cmds[..m])
    && Segment(g, f, |bands|, bands[|bands| - 1], pixels, cmds[m..])
  }

  /** The data of a rectangle, joined row by row. */
  method CutRows(g: Geometry, pixels: seq<byte>, r: Rect) returns (data: seq<byte>)
    requires |pixels| == g.Size() && Aligned(g, r)
    ensures data == Cut(g, pixels, r, r.h)
  {
    data := [];
    for k := 0 to r.h
      invariant data == Cut(g, pixels, r, k)
    {
      data := data + CutRow(g, pixels, r, k);
    }
  }

  /** The commands of a band. */
  function SegmentFor(g: Geometry, f: nat, rect: nat, r: Rect, pixels: seq<byte>, rle: bool): seq<Command>
    requires |pixels| == g.Size() && Aligned(g, r)
  {
    [BeginRect(f, rect, r)] + BandCells(f, rect, Cut(g, pixels, r, r.h), 0, rle)
  }

  /** The commands of all bands. */
  function PlanFor(g: Geometry, f: nat, bands: seq<Rect>, pixels: seq<byte>, rle: bool): seq<Command>
    requires |pixels| == g.Size() && forall k :: 0 <= k < |bands| ==> Aligned(g, bands[k])
  {
    if bands == [] then []
    else
      PlanFor(g, f, bands[..|bands| - 1], pixels, rle) + SegmentFor(g, f, |bands|, bands[|bands| - 1], pixels, rle)
  }

  method EncodeSegment(g: Geometry, f: nat, rect: nat, r: Rect, pixels: seq<byte>, rle: bool)
      returns (segment: seq<Command>)
    requires |pixels| == g.Size() && Aligned(g, r)
    ensures segment == SegmentFor(g, f, rect, r, pixels, rle)
  {
    var data := CutRows(g, pixels, r);
    var cells := EncodeBand(f, rect, data, rle);
    segment := [BeginRect(f, rect, r)] + cells;
  }

  /** The loop over the bands of an upload. */
  method EncodeBands(g: Geometry, f: nat, bands: seq<Rect>, pixels: seq<byte>, rle: bool) returns (cmds: seq<Command>)
    requires |pixels| == g.Size() && forall k :: 0 <= k < |bands| ==> Aligned(g, bands[k])
    ensures cmds == PlanFor(g, f, bands, pixels, rle)
  {
    cmds := [];
    for k := 0 to |bands|
      invariant cmds == PlanFor(g, f, bands[..k], pixels, rle)
    {
      var segment := EncodeSegment(g, f, k + 1, bands[k], pixels, rle);
      PlanMore(g, f, bands[..k], bands[k], pixels, rle);
      assert bands[..k + 1] == bands[..k] + [bands[k]];
      cmds := cmds + segment;
    }
    assert bands[..|bands|] == bands;
  }

  lemma SegmentDraws(g: Geometry, f: nat, rect: nat, r: Rect, pixels: seq<byte>, rle: bool)
    requires |pixels| == g.Size() && Aligned(g, r)
    ensures var segment := SegmentFor(g, f, rect, r, pixels, rle);
            Segment(g, f, rect, r, pixels, segment) && |segment| <= 1 + Cells(r.Bytes())
  {
    var data := Cut(g, pixels, r, r.h);
    WholeBand(f, rect, data, rle);
    assert ([BeginRect(f, rect, r)] + BandCells(f, rect, data, 0, rle))[1..] == BandCells(f, rect, data, 0, rle);
  }

  /** The commands draw all bands, within the cost. */
  lemma {:induction false} PlanDraws(g: Geometry, f: nat, bands: seq<Rect>, pixels: seq<byte>, rle: bool)
    requires |pixels| == g.Size() && forall k :: 0 <= k < |bands| ==> Aligned(g, bands[k])
    ensures var cmds := PlanFor(g, f, bands, pixels, rle); Draws(g, f, bands, pixels, cmds) && |cmds| <= BandCost(bands)
    decreases |bands|
  {
    if bands != [] {
      var before, r := bands[..|bands| - 1], bands[|bands| - 1];
      PlanDraws(g, f, before, pixels, rle);
      SegmentDraws(g, f, |bands|, r, pixels, rle);
      DrawMore(g, f, before, pixels, PlanFor(g, f, before, pixels, rle), r, SegmentFor(g, f, |bands|, r, pixels, rle));
      assert before + [r] == bands;
    }
  }

  lemma PlanMore(g: Geometry, f: nat, bands: seq<Rect>, r: Rect, pixels: seq<byte>, rle: bool)
    requires |pixels| == g.Size() && Aligned(g, r) && forall k :: 0 <= k < |bands| ==> Aligned(g, bands[k])
    ensures PlanFor(g, f, bands + [r], pixels, rle)
         == PlanFor(g, f, bands, pixels, rle) + SegmentFor(g, f, |bands| + 1, r, pixels, rle)
  {
    assert (bands + [r])[..|bands|] == bands;
  }

  lemma DrawMore(g: Geometry, f: nat, bands: seq<Rect>, pixels: seq<byte>, cmds: seq<Command>, r: Rect,
                 segment: seq<Command>)
    requires |pixels| == g.Size() && Draws(g, f, bands, pixels, cmds) && Segment(g, f, |bands| + 1, r, pixels, segment)
    ensures Draws(g, f, bands + [r], pixels, cmds + segment)
    ensures BandCost(bands + [r]) == BandCost(bands) + 1 + Cells(r.Bytes())
  {
    var all, more := bands + [r], cmds + segment;
    assert all[..|all| - 1] == bands && all[|all| - 1] == r;
    assert more[..|cmds|] == cmds && more[|cmds|..] == segment;
    assert DrawnAt(g, f, all, pixels, more, |cmds|);
  }
}
