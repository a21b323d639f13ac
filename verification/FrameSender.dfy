/**
 DisplayLink.connect, send_frame and _upload_frame of scripts/dlp_image.py: what is kept between frames, and what a
 frame costs.

 The field `display` is the peer. Whatever the link does to an upload (an error answer, a timeout, a lost reply) is a
 `Fault`: the upload stops with an exception and leaves the display in any state at all. What a reconnect meets is a
 `Connection`.
 */
module FrameSender {
  import opened Wrappers
  import opened Words
  import opened Frames
  import opened Diff
  import opened FramePlan
  import opened Screen
  import opened UploadLink

  /**
   An upload that fails, when the question for retained content is asked (if it is) or later, with the result code of a
   ProtocolError, or None for any other exception.
   */
  datatype Fault = Fault(atSync: bool, result: Option<nat>, after: Display)

  datatype Outcome = Shown(frame: nat) | Raised(result: Option<nat>)

  const REFUSED := 2
  const LAST_FRAME := 0xFFFF_FFFF

  /** What the receiver says of itself: geometry, buffer size and capabilities. */
  datatype Descriptor = Descriptor(g: Geometry, max: nat, preserve: bool, rle: bool, sync: bool)

  /**
   The end of connect(): an exception, before or after the descriptor was read, or a session with or without a window.
   */
  datatype Connection =
    | Refused(read: Option<Descriptor>, peer: Display)
    | Connected(d: Descriptor, windowed: bool, peer: Display)

  /** The bound is read from four bytes, and a smaller one than a row is refused. */
  predicate Coverable(g: Geometry, max: nat) { g.Valid() && g.Stride() <= max <= 0xFFFF_FFFF }

  predicate Plausible(g: Geometry, conn: Connection) {
    match conn
    case Refused(None, peer) => Ready(g, peer)
    case Refused(Some(d), peer) => Coverable(d.g, d.max) && Ready(d.g, peer)
    case Connected(d, _, peer) => Coverable(d.g, d.max) && Ready(d.g, peer)
  }

  /** The padding test of send_frame. */
  method PaddingClean(g: Geometry, pixels: seq<byte>) returns (clean: bool)
    requires g.Valid() && |pixels| == g.Size()
    ensures clean == IsFrame(g, pixels) && clean == NoStrayBits(g, pixels)
  {
    FrameMeans(g, pixels);
    for y := 0 to g.height
      invariant forall row, col :: 0 <= row < y && 0 <= col < g.Stride() ==> Fits(g, Pixels(g, pixels, row, col), col)
    {
      if !Fits(g, Pixels(g, pixels, y, g.Stride() - 1), g.Stride() - 1) {
        return false;
      }
    }
    return true;
  }

  lemma WholeSuffices(g: Geometry, max: nat, canvas: seq<byte>, pixels: seq<byte>)
    requires Coverable(g, max) && |canvas| == |pixels| == g.Size()
    ensures Plannable(g, max, [Whole(g)])
    ensures Suffices(g, canvas, pixels, Bands(g, max, [Whole(g)]))
  {
    assert Aligned(g, Whole(g));
    forall row, col | 0 <= row < g.height && 0 <= col < g.Stride() && Differ(g, canvas, pixels, row, col)
      ensures Held(Bands(g, max, [Whole(g)]), row, col)
    {
      BandsHold(g, max, [Whole(g)], row, col);
      HeldOne(Whole(g), row, col);
    }
  }

  lemma ChangesSuffice(g: Geometry, max: nat, before: seq<byte>, pixels: seq<byte>, rects: seq<Rect>)
    requires Coverable(g, max) && |before| == |pixels| == g.Size() && Covers(g, before, pixels, rects, g.height)
    ensures Plannable(g, max, rects)
    ensures Suffices(g, before, pixels, Bands(g, max, rects))
  {
    assert forall k :: 0 <= k < |rects| ==> Tight(g, before, pixels, rects[k]);
    forall row, col | 0 <= row < g.height && 0 <= col < g.Stride() && Differ(g, before, pixels, row, col)
      ensures Held(Bands(g, max, rects), row, col)
    {
      BandsHold(g, max, rects, row, col);
    }
  }

  /** Bands in ascending order have no more rows than the frame, so there are at most as many bands. */
  lemma {:induction false} AscendingHeights(rects: seq<Rect>, low: nat, end: nat)
    requires forall k :: 0 <= k < |rects| ==> low <= rects[k].y && rects[k].y + rects[k].h <= end
    requires forall j, k :: 0 <= j < k < |rects| ==> rects[j].y + rects[j].h <= rects[k].y
    requires low <= end
    ensures SumHeights(rects) <= end - low
  {
    if rects != [] {
      AscendingHeights(rects[1..], rects[0].y + rects[0].h, end);
    }
  }

  lemma FewBands(g: Geometry, max: nat, rects: seq<Rect>)
    requires Plannable(g, max, rects) && SumHeights(rects) <= g.height
    ensures AllOk(g, max, Bands(g, max, rects)) && |Bands(g, max, rects)| <= g.height
  {
    BandsHold(g, max, rects, 0, 0);
  }

  /** The commands are an upload of the frame that the display will take, and that fits its packets. */
  ghost predicate Crosses(g: Geometry, max: nat, d: Display, pixels: seq<byte>, cmds: seq<Command>) {
    exists f, full, bands :: Crossing(g, max, d, f, full, bands, pixels, cmds)
  }

  /**
   The planned commands between BEGIN_FRAME and PRESENT are an upload; its length is the cost, or less with run
   lengths.
   */
  lemma UploadOf(g: Geometry, f: nat, full: bool, bands: seq<Rect>, pixels: seq<byte>, rle: bool, middle: seq<Command>,
                 cmds: seq<Command>)
    requires |pixels| == g.Size() && forall k :: 0 <= k < |bands| ==> Aligned(g, bands[k])
    requires middle == PlanFor(g, f, bands, pixels, rle) && cmds == [BeginFrame(f, full)] + middle + [Present(f)]
    ensures Uploads(g, f, full, bands, pixels, cmds)
    ensures |cmds| <= 2 + BandCost(bands) && (!rle ==> |cmds| == 2 + BandCost(bands) && NoRle(cmds))
  {
    PlanDraws(g, f, bands, pixels, rle);
    assert cmds[1..|cmds| - 1] == middle;
    if !rle {
      RawPlan(g, f, bands, pixels);
    }
  }

  lemma Arrives(g: Geometry, max: nat, d: Display, f: nat, full: bool, bands: seq<Rect>, pixels: seq<byte>,
                cmds: seq<Command>)
    requires Crossing(g, max, d, f, full, bands, pixels, cmds)
    ensures Crosses(g, max, d, pixels, cmds) && Replay(g, max, d, cmds).Some?
    ensures var e := Replay(g, max, d, cmds).value; e.shown == pixels && e.retained && Ready(g, e)
  {
    UploadShows(g, max, d, f, full, bands, pixels, cmds);
  }

  class Sender {
    var g: Geometry
    var max: nat
    var preserve: bool
    var rle: bool
    var sync: bool
    var windowed: bool
    var previous: Option<seq<byte>>
    var frame: nat
    var failed: bool
    var display: Display

    /** While the display keeps its content, that content is the frame the sender remembers. */
    ghost predicate Valid()
      reads this
    {
      && Coverable(g, max) && Ready(g, display)
      && (previous.Some? ==> IsFrame(g, previous.value) && (display.retained ==> display.shown == previous.value))
    }

    /** The fields that hold what the receiver said of itself. */
    function Described(): Descriptor
      reads this
    {
      Descriptor(g, max, preserve, rle, sync)
    }

    constructor (d: Descriptor, windowed: bool, display: Display)
      requires Coverable(d.g, d.max) && Ready(d.g, display)
      ensures Valid() && previous.None? && Described() == d && this.display == display && this.windowed == windowed
              && !failed && frame == 0
    {
      this.g, this.max, this.preserve, this.rle, this.sync := d.g, d.max, d.preserve, d.rle, d.sync;
      this.windowed := windowed;
      this.previous, this.frame, this.failed, this.display := None, 0, false, display;
    }

    /** The display loses its content, as a suspended one may. */
    method Suspend(after: Display)
      requires Valid() && Ready(g, after) && !after.retained
      modifies this`display
      ensures Valid() && display == after
    {
      display := after;
    }

    /**
     The rectangles to send; none when the display says that it already shows the frame. It is asked only if nothing
     changed.
     */
    method Choose(pixels: seq<byte>) returns (full: bool, rects: seq<Rect>, asked: bool)
      requires Valid() && IsFrame(g, pixels)
      ensures rects == [] ==> display.retained && display.shown == pixels && previous == Some(pixels)
      ensures rects != [] ==> Plannable(g, max, rects) && Plannable(g, max, [Whole(g)])
      ensures SumHeights(rects) <= g.height
      ensures rects != [] ==> Cost(g, max, rects) <= Cost(g, max, [Whole(g)]) && (full ==> rects == [Whole(g)])
      ensures !full && rects != [] ==> previous.Some? && Covers(g, previous.value, pixels, rects, g.height)
      ensures full && previous.Some? && preserve && previous.value != pixels ==>
                forall rs :: Covers(g, previous.value, pixels, rs, g.height) ==>
                               Plannable(g, max, rs) && Cost(g, max, rs) >= Cost(g, max, [Whole(g)])
      ensures previous.None? || !preserve ==> full && rects == [Whole(g)]
      ensures !full && rects != [] ==> Cost(g, max, rects) < Cost(g, max, [Whole(g)])
      ensures asked <==> previous == Some(pixels) && preserve && sync
      ensures rects == [] <==> asked && display.retained
      ensures !full && rects != [] ==> previous.Some? && Suffices(g, previous.value, pixels, Bands(g, max, rects))
    {
      WholeSuffices(g, max, pixels, pixels);
      full, asked := previous.None? || !preserve, false;
      if full {
        return true, [Whole(g)], false;
      }
      rects := ChangedRects(g, previous.value, pixels);
      NothingChanged(g, previous.value, pixels, rects);
      if rects == [] {
        if sync && display.retained {
          return false, [], true;
        }
        return true, [Whole(g)], sync;
      }
      ChangesSuffice(g, max, previous.value, pixels, rects);
      AscendingHeights(rects, 0, g.height);
      forall rs | Covers(g, previous.value, pixels, rs, g.height) ensures rs == rects {
        CoverUnique(g, previous.value, pixels, rs, rects);
      }
      if Cost(g, max, rects) >= Cost(g, max, [Whole(g)]) {
        return true, [Whole(g)], false;
      }
    }

    /** The commands of the upload. */
    method Encode(f: nat, full: bool, rects: seq<Rect>, pixels: seq<byte>) returns (cmds: seq<Command>)
      requires Coverable(g, max) && IsFrame(g, pixels) && Plannable(g, max, rects)
      requires AllOk(g, max, Bands(g, max, rects))
      ensures cmds == [BeginFrame(f, full)] + PlanFor(g, f, Bands(g, max, rects), pixels, rle) + [Present(f)]
      ensures AllOk(g, max, Bands(g, max, rects)) && Uploads(g, f, full, Bands(g, max, rects), pixels, cmds)
      ensures |cmds| <= 2 + Cost(g, max, rects) && (!rle ==> |cmds| == 2 + Cost(g, max, rects))
      ensures rle || NoRle(cmds)
    {
      var bands := Bands(g, max, rects);
      assert forall k :: 0 <= k < |bands| ==> BandOk(g, max, bands[k]);
      var middle := EncodeBands(g, f, bands, pixels, rle);
      cmds := [BeginFrame(f, full)] + middle + [Present(f)];
      UploadOf(g, f, full, bands, pixels, rle, middle, cmds);
    }

    /** In lock step a refused partial frame is turned into a full one. */
    method Settle(pixels: seq<byte>, choice: bool, chosen: seq<Rect>) returns (full: bool, rects: seq<Rect>)
      requires Valid() && IsFrame(g, pixels)
      requires Plannable(g, max, chosen) && Plannable(g, max, [Whole(g)]) && SumHeights(chosen) <= g.height
      requires Cost(g, max, chosen) <= Cost(g, max, [Whole(g)])
      requires if choice then chosen == [Whole(g)]
               else previous.Some? && Suffices(g, previous.value, pixels, Bands(g, max, chosen))
      ensures full == (choice || (!windowed && !display.retained))
      ensures rects == if full then [Whole(g)] else chosen
      ensures Plannable(g, max, rects) && SumHeights(rects) <= g.height
              && Cost(g, max, rects) <= Cost(g, max, [Whole(g)])
      ensures full || display.retained ==>
                Suffices(g, if full then display.work else display.shown, pixels, Bands(g, max, rects))
    {
      WholeSuffices(g, max, display.work, pixels);
      full, rects := choice, chosen;
      if !full && !display.retained && !windowed {
        full, rects := true, [Whole(g)];
      }
    }

    /** Settle what is sent, and encode it. */
    method Prepare(pixels: seq<byte>, choice: bool, chosen: seq<Rect>)
        returns (full: bool, bands: seq<Rect>, cmds: seq<Command>)
      requires Valid() && IsFrame(g, pixels)
      requires Plannable(g, max, chosen) && Plannable(g, max, [Whole(g)]) && SumHeights(chosen) <= g.height
      requires Cost(g, max, chosen) <= Cost(g, max, [Whole(g)])
      requires if choice then chosen == [Whole(g)]
               else previous.Some? && Suffices(g, previous.value, pixels, Bands(g, max, chosen))
      ensures full == (choice || (!windowed && !display.retained))
      ensures full || display.retained ==> Suffices(g, if full then display.work else display.shown, pixels, bands)
      ensures Uploads(g, frame, full, bands, pixels, cmds) && AllOk(g, max, bands) && |bands| <= g.height
      ensures |cmds| <= 2 + Cost(g, max, [Whole(g)]) && cmds[0] == BeginFrame(frame, full) && (rle || NoRle(cmds))
    {
      var rects;
      full, rects := Settle(pixels, choice, chosen);
      FewBands(g, max, rects);
      bands := Bands(g, max, rects);
      cmds := Encode(frame, full, rects, pixels);
    }

    /** The commands cross the link, and the frame is remembered when it is shown. */
    method Transmit(pixels: seq<byte>, full: bool, ghost bands: seq<Rect>, cmds: seq<Command>, fault: Option<Fault>)
        returns (r: Outcome)
      requires Coverable(g, max) && Ready(g, display) && IsFrame(g, pixels)
              && (fault.Some? ==> Ready(g, fault.value.after))
      requires Uploads(g, frame, full, bands, pixels, cmds) && AllOk(g, max, bands) && |bands| <= g.height
              && frame <= LAST_FRAME
      requires full || display.retained ==> Suffices(g, if full then display.work else display.shown, pixels, bands)
      modifies this`previous, this`display
      ensures Ready(g, display)
      ensures r.Shown? ==> Valid() && previous == Some(pixels) && display.shown == pixels && display.retained
      ensures r.Shown? ==> Crosses(g, max, old(display), pixels, cmds)
      ensures r.Raised? ==> previous == old(previous)
      ensures r == if fault.Some? then Raised(fault.value.result)
                   else if !full && !old(display.retained) then Raised(Some(REFUSED))
                   else Shown(frame)
      ensures r.Raised? ==> display == if fault.Some? then fault.value.after else old(display)
    {
      if fault.Some? {
        display := fault.value.after;
        return Raised(fault.value.result);
      }
      if !full && !display.retained {
        return Raised(Some(REFUSED));
      }
      Arrives(g, max, display, frame, full, bands, pixels, cmds);
      display := Replay(g, max, display, cmds).value;
      previous := Some(pixels);
      return Shown(frame);
    }

    /** The part of _upload_frame behind the choice: number the frame and send it. */
    method Send(pixels: seq<byte>, choice: bool, chosen: seq<Rect>, fault: Option<Fault>)
        returns (r: Outcome, cmds: seq<Command>)
      requires Valid() && IsFrame(g, pixels) && (fault.Some? ==> Ready(g, fault.value.after))
      requires chosen != [] && Plannable(g, max, chosen) && Plannable(g, max, [Whole(g)])
              && SumHeights(chosen) <= g.height
      requires Cost(g, max, chosen) <= Cost(g, max, [Whole(g)])
      requires if choice then chosen == [Whole(g)]
               else previous.Some? && Suffices(g, previous.value, pixels, Bands(g, max, chosen))
      modifies this`previous, this`frame, this`display
      ensures frame == old(frame) + 1 && Ready(g, display)
      ensures r.Shown? ==> Valid() && previous == Some(pixels) && display.shown == pixels && display.retained
      ensures r.Shown? ==> cmds != [] && Crosses(g, max, old(display), pixels, cmds)
      ensures r.Raised? ==> previous == old(previous)
      ensures |cmds| <= 2 + Cost(g, max, [Whole(g)])
      ensures cmds != [] ==> cmds[0] == BeginFrame(frame, choice || (!windowed && !old(display.retained)))
      ensures rle || NoRle(cmds)
      ensures r == if frame > LAST_FRAME then Raised(None)
                   else if fault.Some? then Raised(fault.value.result)
                   else if !choice && !old(display.retained) && windowed then Raised(Some(REFUSED))
                   else Shown(frame)
      ensures r.Raised? ==>
                display == if frame <= LAST_FRAME && fault.Some? then fault.value.after else old(display)
    {
      frame := frame + 1;
      if frame > LAST_FRAME {
        return Raised(None), [];
      }
      var full, bands;
      full, bands, cmds := Prepare(pixels, choice, chosen);
      r := Transmit(pixels, full, bands, cmds, fault);
    }

    /** Nothing goes wrong, or only in answering a question that is not asked. */
    predicate Harmless(fault: Option<Fault>, previous: Option<seq<byte>>, pixels: seq<byte>)
      reads this`preserve, this`sync
    {
      fault.None? || (fault.value.atSync && !(previous == Some(pixels) && preserve && sync))
    }

    /**
     _upload_frame. A display that has lost its content refuses a partial frame: in lock step the sender turns to a
     full one, with a window the error comes later and ends the upload. A frame number that has outgrown its field
     ends it as well.
     */
    method UploadFrame(pixels: seq<byte>, fault: Option<Fault>) returns (r: Outcome, cmds: seq<Command>)
      requires Valid() && IsFrame(g, pixels) && (fault.Some? ==> Ready(g, fault.value.after))
      modifies this`previous, this`frame, this`display
      ensures Ready(g, display)
      ensures r.Shown? ==> Valid() && previous == Some(pixels) && display.shown == pixels && display.retained
      ensures r.Shown? ==> r.frame == frame
      ensures r.Shown? ==> if cmds == [] then display == old(display) && frame == old(frame)
                           else frame == old(frame) + 1 <= LAST_FRAME && Crosses(g, max, old(display), pixels, cmds)
      ensures r.Raised? ==> previous == old(previous)
      ensures cmds != [] ==> cmds[0].BeginFrame? && cmds[0].frame == frame
      ensures cmds != [] && !(old(previous).Some? && preserve) ==> cmds[0].full
      ensures rle || NoRle(cmds)
      ensures Harmless(fault, old(previous), pixels) && old(frame) < LAST_FRAME
              && (windowed && old(previous).Some? ==> old(display.retained)) ==>
                r.Shown?
      ensures Harmless(fault, old(previous), pixels) && r.Raised? ==>
                r == Raised(if old(frame) < LAST_FRAME then Some(REFUSED) else None) && display == old(display)
      ensures fault.Some? && !fault.value.atSync && old(previous) != Some(pixels) && old(frame) < LAST_FRAME
              ==> r == Raised(fault.value.result) && display == fault.value.after
      ensures fault.Some? && fault.value.atSync && old(previous) == Some(pixels) && preserve && sync
              ==> r == Raised(fault.value.result) && frame == old(frame) && cmds == [] && display == fault.value.after
      ensures Plannable(g, max, [Whole(g)]) && |cmds| <= 2 + Cost(g, max, [Whole(g)])
    {
      WholeSuffices(g, max, pixels, pixels);
      var full, rects, asked := Choose(pixels);
      if asked && fault.Some? && fault.value.atSync {
        display := fault.value.after;
        return Raised(fault.value.result), [];
      }
      if rects == [] {
        return Shown(frame), [];
      }
      r, cmds := Send(pixels, full, rects, if fault.Some? && fault.value.atSync then None else fault);
    }

    method Adopt(d: Descriptor)
      modifies this`g, this`max, this`preserve, this`rle, this`sync
      ensures Described() == d
    {
      g, max, preserve, rle, sync := d.g, d.max, d.preserve, d.rle, d.sync;
    }

    /**
     connect(). Everything kept is forgotten before the first command; what the receiver says of itself is taken over
     when it has been read, and a window is in force only once it has been negotiated.
     */
    method Reconnect(conn: Connection) returns (connected: bool)
      requires Coverable(g, max) && Plausible(g, conn)
      modifies this
      ensures Valid() && previous.None? && frame == 0 && !failed && display == conn.peer
      ensures connected == conn.Connected?
      ensures windowed == (conn.Connected? && conn.windowed)
      ensures Described() == if conn.Connected? then conn.d else if conn.read.Some? then conn.read.value
              else old(Described())
    {
      previous, frame, failed, windowed := None, 0, false, false;
      display := conn.peer;
      match conn
      case Refused(read, _) =>
        if read.Some? {
          Adopt(read.value);
        }
        return false;
      case Connected(d, negotiated, _) =>
        Adopt(d);
        windowed := negotiated;
        return true;
    }

    /** The checks in front: the window, the size and the padding. */
    method Admit(pixels: seq<byte>) returns (admitted: bool)
      requires Valid()
      ensures admitted == (!failed && IsFrame(g, pixels))
    {
      if failed || |pixels| != g.Size() {
        return false;
      }
      admitted := PaddingClean(g, pixels);
    }

    /** What send_frame does once a rejected window has made it reconnect. */
    method Recover(pixels: seq<byte>, conn: Connection, second: Option<Fault>) returns (r: Outcome)
      requires Coverable(g, max) && IsFrame(g, pixels) && Plausible(g, conn)
      requires second.Some? && conn.Connected? ==> Ready(conn.d.g, second.value.after)
      modifies this
      ensures Coverable(g, max) && Ready(g, display) && !failed && windowed == (conn.Connected? && conn.windowed)
      ensures r.Shown? ==> Valid() && g == old(g) && display.shown == pixels && previous == Some(pixels)
      ensures r.Shown? ==> r.frame == frame
      ensures conn.Refused? || conn.d.g != old(g) ==> r.Raised?
      ensures conn.Connected? && conn.d.g == old(g) && second.None? ==> r.Shown?
    {
      var geometry := g;
      var connected := Reconnect(conn);
      if !connected || g != geometry {
        return Raised(None);
      }
      var cmds;
      r, cmds := UploadFrame(pixels, second);
    }

    /** The two tries of send_frame: a first upload, and if a window was rejected a second one in a new session. */
    method Attempt(pixels: seq<byte>, first: Option<Fault>, conn: Connection, second: Option<Fault>)
        returns (r: Outcome)
      requires Valid() && IsFrame(g, pixels) && Plausible(g, conn) && !failed
      requires first.Some? ==> Ready(g, first.value.after)
      requires second.Some? && conn.Connected? ==> Ready(conn.d.g, second.value.after)
      modifies this
      ensures Coverable(g, max) && Ready(g, display) && !failed
      ensures r.Shown? ==> Valid() && g == old(g) && display.shown == pixels && previous == Some(pixels)
      ensures r.Shown? ==> r.frame == frame
      ensures SurelyFails(old(previous), old(frame), pixels, first)
              && !Recovers(old(windowed), old(previous), old(frame), pixels, first) ==>
                r == Raised(first.value.result) && windowed == old(windowed) && Described() == old(Described())
      ensures Recovers(old(windowed), old(previous), old(frame), pixels, first) ==>
                && windowed == (conn.Connected? && conn.windowed)
                && (conn.Refused? || conn.d.g != old(g) ==> r.Raised?)
                && (conn.Connected? && conn.d.g == old(g) && second.None? ==> r.Shown?)
      ensures first.None? && old(frame) < LAST_FRAME && second.None? && conn.Connected? && conn.d.g == old(g) ==>
              r.Shown?
    {
      var cmds;
      r, cmds := UploadFrame(pixels, first);
      if r.Raised? && windowed && previous.Some? && r.result in {Some(2), Some(3)} {
        r := Recover(pixels, conn, second);
      }
    }

    /**
     send_frame. It returns only with exactly this frame on the display. Whatever else happens, a frame is remembered
     only while the display shows it, so the next call may rely on it. After an exception the sender is shut exactly
     when a window was in force at that moment: not after a reconnect that failed, because connect() has given up the
     window by then.
     */
    method SendFrame(pixels: seq<byte>, first: Option<Fault>, conn: Connection, second: Option<Fault>)
        returns (r: Outcome)
      requires Valid() && Plausible(g, conn)
      requires first.Some? ==> Ready(g, first.value.after)
      requires second.Some? && conn.Connected? ==> Ready(conn.d.g, second.value.after)
      modifies this
      ensures Valid()
      ensures !IsFrame(old(g), pixels) || old(failed) ==> r.Raised? && unchanged(this)
      ensures r.Shown? ==>
              IsFrame(g, pixels) && g == old(g) && display.shown == pixels && previous == Some(pixels) && !failed
      ensures IsFrame(old(g), pixels) && !old(failed) && r.Raised? ==> previous.None? && failed == windowed
      ensures IsFrame(old(g), pixels) && !old(failed)
              && Recovers(old(windowed), old(previous), old(frame), pixels, first) ==>
                && windowed == (conn.Connected? && conn.windowed)
                && (conn.Refused? || conn.d.g != old(g) ==> r.Raised?)
                && (conn.Connected? && conn.d.g == old(g) && second.None? ==> r.Shown?)
      ensures r.Shown? ==> r.frame == frame
      ensures IsFrame(old(g), pixels) && !old(failed) && SurelyFails(old(previous), old(frame), pixels, first)
              && !Recovers(old(windowed), old(previous), old(frame), pixels, first) ==>
                r == Raised(first.value.result) && windowed == old(windowed) && Described() == old(Described())
      ensures IsFrame(old(g), pixels) && !old(failed) && first.None? && old(frame) < LAST_FRAME && second.None?
              && conn.Connected? && conn.d.g == old(g)
              ==> r.Shown?
    {
      var admitted := Admit(pixels);
      if !admitted {
        return Raised(None);
      }
      r := Attempt(pixels, first, conn, second);
      if r.Raised? {
        previous, failed := None, windowed;
      }
    }
  }

  /** A first upload that is sure to fail behind the choice of rectangles. */
  predicate SurelyFails(previous: Option<seq<byte>>, frame: nat, pixels: seq<byte>, first: Option<Fault>) {
    previous != Some(pixels) && frame < LAST_FRAME && first.Some? && !first.value.atSync
  }

  /** A first upload that is sure to fail with a result that makes a windowed sender reconnect. */
  predicate Recovers(windowed: bool, previous: Option<seq<byte>>, frame: nat, pixels: seq<byte>, first: Option<Fault>) {
    windowed && previous.Some? && SurelyFails(previous, frame, pixels, first)
        && first.value.result in {Some(2), Some(3)}
  }
}
