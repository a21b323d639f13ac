/**
 changed_rects of scripts/dlp_image.py: at most one rectangle for each band of eight rows, just wide enough for the
 changes.
 */
module Diff {
  import opened Words
  import opened Frames

  predicate Differ(g: Geometry, a: seq<byte>, b: seq<byte>, row: nat, col: nat)
    requires |a| == |b| == g.Size() && row < g.height && col < g.Stride()
  {
    Pixels(g, a, row, col) != Pixels(g, b, row, col)
  }

  /** Some row of y..end differs in this byte column. */
  predicate ColumnDiffers(g: Geometry, a: seq<byte>, b: seq<byte>, y: nat, end: nat, col: nat)
    requires |a| == |b| == g.Size() && end <= g.height && col < g.Stride()
  {
    exists row :: y <= row < end && Differ(g, a, b, row, col)
  }

  method AnyDiffers(g: Geometry, a: seq<byte>, b: seq<byte>, y: nat, end: nat, col: nat) returns (any: bool)
    requires |a| == |b| == g.Size() && y <= end <= g.height && col < g.Stride()
    ensures any == ColumnDiffers(g, a, b, y, end, col)
  {
    for row := y to end
      invariant forall k :: y <= k < row ==> !Differ(g, a, b, k, col)
    {
      if Differ(g, a, b, row, col) {
        return true;
      }
    }
    return false;
  }

  /** The differing byte columns of a band, in order. */
  method Columns(g: Geometry, a: seq<byte>, b: seq<byte>, y: nat, end: nat) returns (columns: seq<nat>)
    requires |a| == |b| == g.Size() && y <= end <= g.height
    ensures forall i, j :: 0 <= i < j < |columns| ==> columns[i] < columns[j]
    ensures forall i :: 0 <= i < |columns| ==> columns[i] < g.Stride() && ColumnDiffers(g, a, b, y, end, columns[i])
    ensures forall c :: 0 <= c < g.Stride() && ColumnDiffers(g, a, b, y, end, c) ==> c in columns
  {
    columns := [];
    for x := 0 to g.Stride()
      invariant forall i, j :: 0 <= i < j < |columns| ==> columns[i] < columns[j]
      invariant forall i :: 0 <= i < |columns| ==> columns[i] < x && ColumnDiffers(g, a, b, y, end, columns[i])
      invariant forall c :: 0 <= c < x && ColumnDiffers(g, a, b, y, end, c) ==> c in columns
    {
      var any := AnyDiffers(g, a, b, y, end, x);
      if any {
        columns := columns + [x];
      }
    }
  }

  /** The rectangle lies in one band and cannot be narrowed: both its outer byte columns differ. */
  predicate Tight(g: Geometry, a: seq<byte>, b: seq<byte>, r: Rect)
    requires |a| == |b| == g.Size()
  {
    && Aligned(g, r) && r.y % 8 == 0 && r.h == (if r.y + 8 < g.height then 8 else g.height - r.y)
    && ColumnDiffers(g, a, b, r.y, r.y + r.h, r.x / 8)
    && ColumnDiffers(g, a, b, r.y, r.y + r.h, r.x / 8 + r.Row() - 1)
  }

  predicate Held(rects: seq<Rect>, row: nat, col: nat) {
    exists k :: 0 <= k < |rects| && rects[k].Holds(row, col)
  }

  /** The rectangles are tight, in ascending bands, and hold every difference above the row `end`. */
  predicate Covers(g: Geometry, a: seq<byte>, b: seq<byte>, rects: seq<Rect>, end: nat)
    requires |a| == |b| == g.Size()
  {
    && (forall k :: 0 <= k < |rects| ==> Tight(g, a, b, rects[k]) && rects[k].y + rects[k].h <= end)
    && (forall j, k :: 0 <= j < k < |rects| ==> rects[j].y + rects[j].h <= rects[k].y)
    && (forall row, col {:trigger Held(rects, row, col)} ::
          0 <= row < g.height && 0 <= col < g.Stride() && row < end && Differ(g, a, b, row, col) ==>
              Held(rects, row, col))
  }

  /** The whole pixels from the first to the last of some byte columns. */
  function Span(g: Geometry, left: nat, right: nat, y: nat, end: nat): (r: Rect)
    requires left <= right < g.Stride() && y < end <= g.height
    ensures Aligned(g, r) && r.x / 8 == left && r.x / 8 + r.Row() - 1 == right && r.y == y && r.y + r.h == end
  {
    var edge := if g.width < (right + 1) * 8 then g.width else (right + 1) * 8;
    Rect(left * 8, y, edge - left * 8, end - y)
  }

  method ChangedRects(g: Geometry, before: seq<byte>, after: seq<byte>) returns (rects: seq<Rect>)
    requires |before| == |after| == g.Size()
    ensures Covers(g, before, after, rects, g.height)
  {
    rects := [];
    var y := 0;
    while y < g.height
      invariant y % 8 == 0 && Covers(g, before, after, rects, BandEnd(g, y))
    {
      rects := AddBand(g, before, after, rects, y);
      y := y + 8;
    }
  }

  function BandEnd(g: Geometry, y: nat): nat {
    if y < g.height then y else g.height
  }

  /** The body of the loop: the rectangle of the band at y, if anything in it changed. */
  method AddBand(g: Geometry, before: seq<byte>, after: seq<byte>, rects: seq<Rect>, y: nat) returns (all: seq<Rect>)
    requires |before| == |after| == g.Size() && y < g.height && y % 8 == 0 && Covers(g, before, after, rects, y)
    ensures Covers(g, before, after, all, BandEnd(g, y + 8))
  {
    var end := BandEnd(g, y + 8);
    var columns := Columns(g, before, after, y, end);
    if columns == [] {
      EmptyBand(g, before, after, rects, y, end);
      return rects;
    }
    var r := Span(g, columns[0], columns[|columns| - 1], y, end);
    OneBand(g, before, after, rects, y, end, columns, r);
    return rects + [r];
  }

  lemma EmptyBand(g: Geometry, a: seq<byte>, b: seq<byte>, rects: seq<Rect>, y: nat, end: nat)
    requires |a| == |b| == g.Size() && y < end <= g.height && Covers(g, a, b, rects, y)
    requires forall c :: 0 <= c < g.Stride() ==> !ColumnDiffers(g, a, b, y, end, c)
    ensures Covers(g, a, b, rects, end)
  {
    forall row, col | 0 <= row < end && 0 <= col < g.Stride() && Differ(g, a, b, row, col)
      ensures Held(rects, row, col)
    {
      assert !ColumnDiffers(g, a, b, y, end, col);
    }
  }

  lemma OneBand(g: Geometry, a: seq<byte>, b: seq<byte>, rects: seq<Rect>, y: nat, end: nat, columns: seq<nat>, r: Rect)
    requires |a| == |b| == g.Size() && y < end <= g.height && Covers(g, a, b, rects, y)
    requires columns != [] && forall i, j :: 0 <= i < j < |columns| ==> columns[i] < columns[j]
    requires forall i :: 0 <= i < |columns| ==> columns[i] < g.Stride()
    requires forall c :: 0 <= c < g.Stride() && ColumnDiffers(g, a, b, y, end, c) ==> c in columns
    requires Tight(g, a, b, r) && r.y == y && r.y + r.h == end
    requires r.x / 8 == columns[0] && r.x / 8 + r.Row() - 1 == columns[|columns| - 1]
    ensures Covers(g, a, b, rects + [r], end)
  {
    var all := rects + [r];
    forall row, col | 0 <= row < end && 0 <= col < g.Stride() && Differ(g, a, b, row, col) ensures Held(all, row, col) {
      if row < y {
        assert Held(rects, row, col);
        var k :| 0 <= k < |rects| && rects[k].Holds(row, col);
        assert all[k].Holds(row, col);
      } else {
        assert ColumnDiffers(g, a, b, y, end, col);
        var i :| 0 <= i < |columns| && columns[i] == col;
        assert columns[0] <= col <= columns[|columns| - 1];
        assert all[|rects|].Holds(row, col);
      }
    }
  }

  /** There is nothing to send exactly when the frames are equal. */
  lemma NothingChanged(g: Geometry, before: seq<byte>, after: seq<byte>, rects: seq<Rect>)
    requires |before| == |after| == g.Size() && Covers(g, before, after, rects, g.height)
    ensures rects == [] <==> before == after
  {
    if rects == [] {
      forall row, col | 0 <= row < g.height && 0 <= col < g.Stride()
        ensures Pixels(g, before, row, col) == Pixels(g, after, row, col)
      {
        assert Differ(g, before, after, row, col) ==> Held(rects, row, col);
      }
      SameFrame(g, before, after);
    } else {
      var r := rects[0];
      assert Tight(g, before, after, r);
      var row :| r.y <= row < r.y + r.h && Differ(g, before, after, row, r.x / 8);
    }
  }

  // ---------------------------------------------------------------- the rectangles are determined

  /** The rows of the band at y. */
  function BandHeight(g: Geometry, y: nat): nat
    requires y < g.height
  {
    if y + 8 < g.height then 8 else g.height - y
  }

  lemma SameSpan(g: Geometry, r: Rect, t: Rect)
    requires Aligned(g, r) && Aligned(g, t) && r.y == t.y && r.h == t.h && r.x / 8 == t.x / 8 && r.Row() == t.Row()
    ensures r == t
  {
  }

  /** The rectangle of a cover that holds a differing column of a band. */
  lemma HolderInBand(g: Geometry, a: seq<byte>, b: seq<byte>, y: nat, ts: seq<Rect>, col: nat) returns (j: nat)
    requires |a| == |b| == g.Size() && Covers(g, a, b, ts, g.height) && y % 8 == 0 && y < g.height
    requires col < g.Stride() && ColumnDiffers(g, a, b, y, y + BandHeight(g, y), col)
    ensures j < |ts| && ts[j].y == y && ts[j].h == BandHeight(g, y) && ts[j].x / 8 <= col < ts[j].x / 8 + ts[j].Row()
  {
    var row :| y <= row < y + BandHeight(g, y) && Differ(g, a, b, row, col);
    assert Held(ts, row, col);
    j :| 0 <= j < |ts| && ts[j].Holds(row, col);
    assert Tight(g, a, b, ts[j]);
    EightRows(y, ts[j].y, row);
  }

  lemma EightRows(y: nat, z: nat, row: nat)
    requires y % 8 == 0 && z % 8 == 0 && y <= row < y + 8 && z <= row < z + 8
    ensures y == z
  {
  }

  /** It spans at least from one differing column of the band to another. */
  lemma Spanning(g: Geometry, a: seq<byte>, b: seq<byte>, y: nat, left: nat, right: nat, ts: seq<Rect>) returns (j: nat)
    requires |a| == |b| == g.Size() && Covers(g, a, b, ts, g.height) && y % 8 == 0 && y < g.height
    requires left < g.Stride() && ColumnDiffers(g, a, b, y, y + BandHeight(g, y), left)
    requires right < g.Stride() && ColumnDiffers(g, a, b, y, y + BandHeight(g, y), right)
    ensures j < |ts| && ts[j].y == y && ts[j].h == BandHeight(g, y)
    ensures ts[j].x / 8 <= left && right < ts[j].x / 8 + ts[j].Row()
  {
    j := HolderInBand(g, a, b, y, ts, left);
    var k := HolderInBand(g, a, b, y, ts, right);
    BandsApart(g, a, b, ts);
    SameBand(ts, j, k);
  }

  lemma Outer(g: Geometry, a: seq<byte>, b: seq<byte>, ts: seq<Rect>, k: nat)
    requires |a| == |b| == g.Size() && Covers(g, a, b, ts, g.height) && k < |ts|
    ensures var r := ts[k];
            && Aligned(g, r) && r.y % 8 == 0 && r.y < g.height && r.h == BandHeight(g, r.y)
                && r.x / 8 + r.Row() <= g.Stride()
            && 0 < r.Row()
            && ColumnDiffers(g, a, b, r.y, r.y + BandHeight(g, r.y), r.x / 8)
            && ColumnDiffers(g, a, b, r.y, r.y + BandHeight(g, r.y), r.x / 8 + r.Row() - 1)
  {
    assert Tight(g, a, b, ts[k]);
  }

  lemma BandsApart(g: Geometry, a: seq<byte>, b: seq<byte>, ts: seq<Rect>)
    requires |a| == |b| == g.Size() && Covers(g, a, b, ts, g.height)
    ensures forall m, n :: 0 <= m < n < |ts| ==> ts[m].y + ts[m].h <= ts[n].y
  {
  }

  lemma Member(ts: seq<Rect>)
    ensures ts != [] ==> exists t :: t in ts
  {
    if ts != [] {
      assert ts[0] in ts;
    }
  }

  lemma SameBand(ts: seq<Rect>, j: nat, k: nat)
    requires forall m, n :: 0 <= m < n < |ts| ==> ts[m].y + ts[m].h <= ts[n].y
    requires j < |ts| && k < |ts| && ts[j].y == ts[k].y && ts[j].h > 0 && ts[k].h > 0
    ensures j == k
  {
  }

  /** One rectangle has the band of another and spans it. */
  predicate Spans(t: Rect, r: Rect) {
    t.y == r.y && t.h == r.h && t.x / 8 <= r.x / 8 && r.x / 8 + r.Row() <= t.x / 8 + t.Row()
  }

  /** Every rectangle of a cover is spanned by one of every other cover. */
  lemma Wider(g: Geometry, a: seq<byte>, b: seq<byte>, rs: seq<Rect>, ts: seq<Rect>, k: nat) returns (j: nat)
    requires |a| == |b| == g.Size() && Covers(g, a, b, rs, g.height) && Covers(g, a, b, ts, g.height) && k < |rs|
    ensures j < |ts| && Spans(ts[j], rs[k]) && Aligned(g, rs[k])
  {
    Outer(g, a, b, rs, k);
    var r := rs[k];
    var y, left, right := r.y, r.x / 8, r.x / 8 + r.Row() - 1;
    j := Spanning(g, a, b, y, left, right, ts);
  }

  /** So it is in every other cover. */
  lemma Shared(g: Geometry, a: seq<byte>, b: seq<byte>, rs: seq<Rect>, ts: seq<Rect>, k: nat)
    requires |a| == |b| == g.Size() && Covers(g, a, b, rs, g.height) && Covers(g, a, b, ts, g.height) && k < |rs|
    ensures rs[k] in ts
  {
    var j := Wider(g, a, b, rs, ts, k);
    var m := Wider(g, a, b, ts, rs, j);
    BandsApart(g, a, b, rs);
    MutualSpans(g, rs, k, m, ts[j]);
  }

  lemma MutualSpans(g: Geometry, rs: seq<Rect>, k: nat, m: nat, t: Rect)
    requires forall i, n :: 0 <= i < n < |rs| ==> rs[i].y + rs[i].h <= rs[n].y
    requires k < |rs| && m < |rs| && Spans(t, rs[k]) && Spans(rs[m], t) && Aligned(g, rs[k]) && Aligned(g, t)
    ensures rs[k] == t
  {
    SameBand(rs, k, m);
    SameSpan(g, rs[k], t);
  }

  lemma {:induction false} SameLists(rs: seq<Rect>, ts: seq<Rect>)
    requires forall m, n :: 0 <= m < n < |rs| ==> rs[m].y < rs[n].y
    requires forall m, n :: 0 <= m < n < |ts| ==> ts[m].y < ts[n].y
    requires (forall r :: r in rs ==> r in ts) && (forall t :: t in ts ==> t in rs)
    ensures rs == ts
    decreases |rs|
  {
    if rs == [] {
      Member(ts);
    } else {
      assert rs[0] in ts && ts != [] && ts[0] in rs;
      assert rs[0].y <= ts[0].y <= rs[0].y;
      forall r | r in rs[1..] ensures r in ts[1..] {
        assert r in rs && r.y > rs[0].y;
      }
      forall t | t in ts[1..] ensures t in rs[1..] {
        assert t in ts && t.y > ts[0].y;
      }
      SameLists(rs[1..], ts[1..]);
    }
  }

  /** So the rectangles to send are determined by the two frames. */
  lemma CoverUnique(g: Geometry, a: seq<byte>, b: seq<byte>, rs: seq<Rect>, ts: seq<Rect>)
    requires |a| == |b| == g.Size() && Covers(g, a, b, rs, g.height) && Covers(g, a, b, ts, g.height)
    ensures rs == ts
  {
    forall r | r in rs ensures r in ts {
      var k :| 0 <= k < |rs| && rs[k] == r;
      Shared(g, a, b, rs, ts, k);
    }
    forall t | t in ts ensures t in rs {
      var k :| 0 <= k < |ts| && ts[k] == t;
      Shared(g, a, b, ts, rs, k);
    }
    Ascends(g, a, b, rs);
    Ascends(g, a, b, ts);
    SameLists(rs, ts);
  }

  lemma Ascends(g: Geometry, a: seq<byte>, b: seq<byte>, rs: seq<Rect>)
    requires |a| == |b| == g.Size() && Covers(g, a, b, rs, g.height)
    ensures forall m, n :: 0 <= m < n < |rs| ==> rs[m].y < rs[n].y
  {
    forall m, n | 0 <= m < n < |rs| ensures rs[m].y < rs[n].y {
      assert Tight(g, a, b, rs[m]) && rs[m].y + rs[m].h <= rs[n].y;
    }
  }
}
