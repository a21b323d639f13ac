/**
 The receiver of an upload, as strict as the sender's commands allow: it takes rectangles in order, each complete
 before the next, with contiguous data that fits its buffer, and refuses a partial frame when it has lost what it
 showed. A frame plan draws exactly the frame on it.
 */
module Screen {
  import opened Wrappers
  import opened Words
  import opened Frames
  import opened Diff
  import opened FramePlan

  datatype Display = Display(shown: seq<byte>, work: seq<byte>, retained: bool, frame: Option<nat>, rects: nat,
                             rect: Rect, filled: nat)

  predicate Ready(g: Geometry, d: Display) {
    IsFrame(g, d.shown) && IsFrame(g, d.work)
  }

  const NOWHERE := Rect(0, 0, 0, 0)

  function Apply(g: Geometry, max: nat, d: Display, c: Command): (r: Option<Display>)
    requires |d.shown| == |d.work| == g.Size()
    ensures r.Some? ==> |r.value.shown| == |r.value.work| == g.Size()
  {
    match c
    case BeginFrame(f, full) =>
      if !full && !d.retained then None
      else
        var work := if full then d.work else d.shown;
        Some(d.(work := work, frame := Some(f), rects := 0, rect := NOWHERE, filled := 0))
    case BeginRect(f, id, r) =>
      if d.frame != Some(f) || id != d.rects + 1 || d.filled != d.rect.Bytes() || !BandOk(g, max, r) then None
      else Some(d.(rects := id, rect := r, filled := 0))
    case Present(f) =>
      if d.frame != Some(f) || d.filled != d.rect.Bytes() then None
      else Some(d.(shown := d.work, retained := true, frame := None))
    case _ =>
      var data := Content(c);
      if d.frame != Some(c.frame) || c.rect != d.rects || c.offset != d.filled || Room(c) > 208 || data.None? then None
      else if data.value == [] || d.filled + |data.value| > d.rect.Bytes() then None
      else Some(d.(work := Paint(g, d.work, d.rect, d.filled, data.value), filled := d.filled + |data.value|))
  }

  function Replay(g: Geometry, max: nat, d: Display, cmds: seq<Command>): (r: Option<Display>)
    requires |d.shown| == |d.work| == g.Size()
    ensures r.Some? ==> |r.value.shown| == |r.value.work| == g.Size()
    decreases |cmds|
  {
    if cmds == [] then Some(d)
    else
      match Apply(g, max, d, cmds[0])
      case None => None
      case Some(e) => Replay(g, max, e, cmds[1..])
  }

  lemma {:induction false} ReplayConcat(g: Geometry, max: nat, d: Display, a: seq<Command>, b: seq<Command>)
    requires |d.shown| == |d.work| == g.Size() && Replay(g, max, d, a).Some?
    ensures Replay(g, max, d, a + b) == Replay(g, max, Replay(g, max, d, a).value, b)
    decreases |a|
  {
    if a == [] {
      assert a + b == b;
    } else {
      assert (a + b)[0] == a[0] && (a + b)[1..] == a[1..] + b;
      ReplayConcat(g, max, Apply(g, max, d, a[0]).value, a[1..], b);
    }
  }

  /** Data cells that carry the rest of a rectangle paint it and complete it. */
  lemma {:induction false} ReplayData(g: Geometry, max: nat, d: Display, cmds: seq<Command>, f: nat, data: seq<byte>)
    requires |d.shown| == |d.work| == g.Size() && d.frame == Some(f)
    requires Carries(cmds, f, d.rects, d.filled, data) && d.filled + |data| == d.rect.Bytes()
    ensures Replay(g, max, d, cmds)
         == Some(d.(work := Paint(g, d.work, d.rect, d.filled, data), filled := d.filled + |data|))
    decreases |cmds|
  {
    if cmds == [] {
      PaintNothing(g, d.work, d.rect, d.filled);
    } else {
      var bytes := Content(cmds[0]).value;
      var e := d.(work := Paint(g, d.work, d.rect, d.filled, bytes), filled := d.filled + |bytes|);
      OneCell(g, max, d, cmds[0], f, data);
      ReplayData(g, max, e, cmds[1..], f, data[|bytes|..]);
      PaintTwice(g, d.work, d.rect, d.filled, bytes, data[|bytes|..]);
      assert bytes + data[|bytes|..] == data;
    }
  }

  lemma OneCell(g: Geometry, max: nat, d: Display, c: Command, f: nat, data: seq<byte>)
    requires |d.shown| == |d.work| == g.Size() && d.frame == Some(f)
    requires CarriesHead(c, f, d.rects, d.filled, data) && d.filled + |data| == d.rect.Bytes()
    ensures var bytes := Content(c).value;
            Apply(g, max, d, c)
                == Some(d.(work := Paint(g, d.work, d.rect, d.filled, bytes), filled := d.filled + |bytes|))
  {
  }

  /** One band: what was cut out of the frame is painted. */
  lemma ReplaySegment(g: Geometry, max: nat, d: Display, f: nat, r: Rect, pixels: seq<byte>, cmds: seq<Command>)
    requires |d.shown| == |d.work| == |pixels| == g.Size() && d.frame == Some(f) && d.filled == d.rect.Bytes()
    requires BandOk(g, max, r) && Segment(g, f, d.rects + 1, r, pixels, cmds)
    ensures Replay(g, max, d, cmds)
         == Some(d.(work := Paint(g, d.work, r, 0, Cut(g, pixels, r, r.h)), rects := d.rects + 1, rect := r,
             filled := r.Bytes()))
  {
    ReplayData(g, max, d.(rects := d.rects + 1, rect := r, filled := 0), cmds[1..], f, Cut(g, pixels, r, r.h));
  }

  /** The canvas is `pixels` where the bands are and `old_` elsewhere. */
  predicate Drawn(g: Geometry, canvas: seq<byte>, old_: seq<byte>, bands: seq<Rect>, pixels: seq<byte>)
    requires |canvas| == |old_| == |pixels| == g.Size()
  {
    forall row, col :: 0 <= row < g.height && 0 <= col < g.Stride() ==>
      Pixels(g, canvas, row, col) == if Held(bands, row, col) then Pixels(g, pixels, row, col)
          else Pixels(g, old_, row, col)
  }

  lemma DrawnFrame(g: Geometry, canvas: seq<byte>, old_: seq<byte>, bands: seq<Rect>, pixels: seq<byte>)
    requires |canvas| == g.Size() && IsFrame(g, old_) && IsFrame(g, pixels) && Drawn(g, canvas, old_, bands, pixels)
    ensures IsFrame(g, canvas)
  {
    forall row, col | 0 <= row < g.height && 0 <= col < g.Stride() ensures Fits(g, Pixels(g, canvas, row, col), col) {
      assert Fits(g, Pixels(g, old_, row, col), col) && Fits(g, Pixels(g, pixels, row, col), col);
    }
  }

  lemma DrawBand(g: Geometry, canvas: seq<byte>, old_: seq<byte>, bands: seq<Rect>, r: Rect, pixels: seq<byte>)
    requires IsFrame(g, canvas) && IsFrame(g, old_) && IsFrame(g, pixels) && Aligned(g, r)
    requires Drawn(g, canvas, old_, bands, pixels)
    ensures Drawn(g, Paint(g, canvas, r, 0, Cut(g, pixels, r, r.h)), old_, bands + [r], pixels)
  {
    var next := Paint(g, canvas, r, 0, Cut(g, pixels, r, r.h));
    forall row, col | 0 <= row < g.height && 0 <= col < g.Stride()
      ensures Pixels(g, next, row, col)
           == if Held(bands + [r], row, col) then Pixels(g, pixels, row, col) else Pixels(g, old_, row, col)
    {
      Copied(g, canvas, pixels, r, row, col);
      HeldConcat(bands, [r], row, col);
      HeldOne(r, row, col);
    }
  }

  /** The display after the bands of a frame have been drawn on it. */
  predicate AfterBands(g: Geometry, d: Display, e: Option<Display>, bands: seq<Rect>, pixels: seq<byte>)
    requires |d.work| == |pixels| == g.Size()
  {
    && e.Some? && e.value.frame == d.frame && e.value.rects == |bands| && e.value.filled == e.value.rect.Bytes()
    && e.value.shown == d.shown && |e.value.work| == g.Size() && Drawn(g, e.value.work, d.work, bands, pixels)
  }

  lemma {:induction false} ReplayBands(g: Geometry, max: nat, d: Display, f: nat, bands: seq<Rect>, pixels: seq<byte>,
                                       cmds: seq<Command>)
    requires Ready(g, d) && IsFrame(g, pixels) && AllOk(g, max, bands) && Draws(g, f, bands, pixels, cmds)
    requires d.frame == Some(f) && d.rects == 0 && d.filled == d.rect.Bytes()
    ensures AfterBands(g, d, Replay(g, max, d, cmds), bands, pixels)
    decreases |bands|
  {
    if bands != [] {
      var m :| 0 <= m <= |cmds| && DrawnAt(g, f, bands, pixels, cmds, m);
      var before, r := bands[..|bands| - 1], bands[|bands| - 1];
      ReplayBands(g, max, d, f, before, pixels, cmds[..m]);
      var e := Replay(g, max, d, cmds[..m]).value;
      assert cmds == cmds[..m] + cmds[m..] && bands == before + [r];
      ReplayConcat(g, max, d, cmds[..m], cmds[m..]);
      ReplaySegment(g, max, e, f, r, pixels, cmds[m..]);
      DrawnFrame(g, e.work, d.work, before, pixels);
      DrawBand(g, e.work, d.work, before, r, pixels);
    }
  }

  /** The bands hold all that distinguishes the canvas from the frame. */
  predicate Suffices(g: Geometry, canvas: seq<byte>, pixels: seq<byte>, bands: seq<Rect>)
    requires |canvas| == |pixels| == g.Size()
  {
    forall row, col :: 0 <= row < g.height && 0 <= col < g.Stride() && Differ(g, canvas, pixels, row, col) ==>
      Held(bands, row, col)
  }

  lemma DrawnAll(g: Geometry, canvas: seq<byte>, old_: seq<byte>, bands: seq<Rect>, pixels: seq<byte>)
    requires |canvas| == |old_| == |pixels| == g.Size()
    requires Drawn(g, canvas, old_, bands, pixels) && Suffices(g, old_, pixels, bands)
    ensures canvas == pixels
  {
    forall row, col | 0 <= row < g.height && 0 <= col < g.Stride()
      ensures Pixels(g, canvas, row, col) == Pixels(g, pixels, row, col)
    {
      assert Differ(g, old_, pixels, row, col) ==> Held(bands, row, col);
    }
    SameFrame(g, canvas, pixels);
  }

  /** The whole upload of a frame. */
  ghost predicate Uploads(g: Geometry, f: nat, full: bool, bands: seq<Rect>, pixels: seq<byte>, cmds: seq<Command>)
    requires |pixels| == g.Size()
  {
    && |cmds| >= 2 && cmds[0] == BeginFrame(f, full) && cmds[|cmds| - 1] == Present(f)
    && Draws(g, f, bands, pixels, cmds[1..|cmds| - 1])
  }

  /**
   The upload is accepted command by command and leaves exactly the frame on the display, whatever its canvas held for
   a full upload, and whatever it showed if the bands hold all the differences.
   */
  lemma UploadShows(g: Geometry, max: nat, d: Display, f: nat, full: bool, bands: seq<Rect>, pixels: seq<byte>,
                    cmds: seq<Command>)
    requires Ready(g, d) && IsFrame(g, pixels) && AllOk(g, max, bands) && Uploads(g, f, full, bands, pixels, cmds)
    requires full || d.retained
    requires Suffices(g, if full then d.work else d.shown, pixels, bands)
    ensures Replay(g, max, d, cmds).Some?
    ensures var e := Replay(g, max, d, cmds).value; e.shown == pixels && e.retained && Ready(g, e) && e.frame == None
  {
    var begin, middle, end := cmds[..1], cmds[1..|cmds| - 1], cmds[|cmds| - 1..];
    assert cmds == begin + (middle + end);
    var d1 := Apply(g, max, d, cmds[0]).value;
    assert begin[1..] == [];
    assert Replay(g, max, d1, []) == Some(d1);
    assert Replay(g, max, d, begin) == Some(d1);
    ReplayConcat(g, max, d, begin, middle + end);
    ReplayBands(g, max, d1, f, bands, pixels, middle);
    var d2 := Replay(g, max, d1, middle).value;
    ReplayConcat(g, max, d1, middle, end);
    DrawnAll(g, d2.work, d1.work, bands, pixels);
    LastCommand(g, max, d2, f, end);
  }

  lemma LastCommand(g: Geometry, max: nat, d: Display, f: nat, end: seq<Command>)
    requires |d.shown| == |d.work| == g.Size() && end == [Present(f)] && d.frame == Some(f)
            && d.filled == d.rect.Bytes()
    ensures Replay(g, max, d, end) == Some(d.(shown := d.work, retained := true, frame := None))
  {
    assert end[1..] == [];
    assert Replay(g, max, Apply(g, max, d, end[0]).value, []) == Apply(g, max, d, end[0]);
  }
}
