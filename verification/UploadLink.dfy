/**
 From frames to packets and back: the commands of scripts/dlp_image.py as payloads, and what the display shows while
 and after they cross the window.
 */
module UploadLink {
  import opened Wrappers
  import opened Words
  import opened CellCodec
  import opened Frames
  import opened FramePlan
  import opened Screen
  import opened Window

  const BEGIN_FRAME: byte := 0x10
  const BEGIN_RECT: byte := 0x11
  const RECT_DATA: byte := 0x12
  const RECT_RLE: byte := 0x15

  // ---------------------------------------------------------------- payloads

  /** The opcode and the packed payload of a command. */
  function Pack(c: Command): (r: Upload)
    requires Room(c) <= 208
    ensures |r.payload| <= MAX_PAYLOAD
  {
    match c
    case BeginFrame(f, full) => Upload(BEGIN_FRAME, Le(f, 4) + Le(if full then 1 else 0, 4))
    case BeginRect(f, id, r) => Upload(BEGIN_RECT,
        Le(f, 4) + Le(id, 4) + Le(r.x, 2) + Le(r.y, 2) + Le(r.w, 2) + Le(r.h, 2))
    case RectData(f, id, offset, bytes) => Upload(RECT_DATA, Le(f, 4) + Le(id, 4) + Le(offset, 4) + bytes)
    case RectRle(f, id, offset, count, encoded) =>
      Upload(RECT_RLE, Le(f, 4) + Le(id, 4) + Le(offset, 4) + Le(count, 2) + encoded)
    case Present(f) => Upload(PRESENT, Le(f, 4))
  }

  /** The fields fit their widths. */
  predicate Sendable(c: Command) {
    && Room(c) <= 208 && c.frame <= 0xFFFF_FFFF
    && match c
       case BeginRect(_, id, r) => id <= 0xFFFF_FFFF && r.x <= 0xFFFF && r.y <= 0xFFFF && r.w <= 0xFFFF && r.h <= 0xFFFF
       case RectData(_, id, offset, _) => id <= 0xFFFF_FFFF && offset <= 0xFFFF_FFFF
       case RectRle(_, id, offset, count, _) => id <= 0xFFFF_FFFF && offset <= 0xFFFF_FFFF && count <= 0xFFFF
       case _ => true
  }

  /** The receiver's reading of a payload. */
  function Unpack(u: Upload): (r: Option<Command>) {
    var p := u.payload;
    if |p| < 4 then None
    else
      var f := Field(p, 0, 4);
      if u.opcode == BEGIN_FRAME then
        if |p| == 8 && Field(p, 4, 4) <= 1 then Some(BeginFrame(f, Field(p, 4, 4) == 1)) else None
      else if u.opcode == PRESENT then
        if |p| == 4 then Some(Present(f)) else None
      else if u.opcode == BEGIN_RECT then
        if |p| == 16 then
          Some(BeginRect(f, Field(p, 4, 4), Rect(Field(p, 8, 2), Field(p, 10, 2), Field(p, 12, 2), Field(p, 14, 2))))
        else None
      else if |p| < 12 then None
      else if u.opcode == RECT_DATA then Some(RectData(f, Field(p, 4, 4), Field(p, 8, 4), p[12..]))
      else if u.opcode == RECT_RLE && |p| >= 14 then
        Some(RectRle(f, Field(p, 4, 4), Field(p, 8, 4), Field(p, 12, 2), p[14..]))
      else None
  }

  /** A field in front of the rest, and behind it. */
  lemma Leading(x: nat, n: nat, rest: seq<byte>)
    requires x < Pow256(n)
    ensures Field(Le(x, n) + rest, 0, n) == x && (Le(x, n) + rest)[n..] == rest
  {
    var p := Le(x, n) + rest;
    assert p[0..0 + n] == Le(x, n);
    ValueOfLe(x, n);
  }

  lemma Later(p: seq<byte>, skip: nat, at: nat, n: nat)
    requires skip + at + n <= |p|
    ensures Field(p, skip + at, n) == Field(p[skip..], at, n)
  {
    assert p[skip + at..skip + at + n] == p[skip..][at..at + n];
  }

  lemma Dropped(p: seq<byte>, i: nat, j: nat)
    requires i + j <= |p|
    ensures p[i + j..] == p[i..][j..]
  {
  }

  lemma Rejoin(x: seq<byte>, y: seq<byte>, z: seq<byte>, rest: seq<byte>)
    ensures x + y + z + rest == x + y + (z + rest)
  {
  }

  lemma TwoFields(a: nat, b: nat, rest: seq<byte>, p: seq<byte>)
    requires a <= 0xFFFF_FFFF && b <= 0xFFFF_FFFF && p == Le(a, 4) + Le(b, 4) + rest
    ensures Field(p, 0, 4) == a && Field(p, 4, 4) == b && p[8..] == rest
  {
    Widths();
    var r1 := Le(b, 4) + rest;
    assert p == Le(a, 4) + r1;
    Leading(a, 4, r1);
    Leading(b, 4, rest);
    Later(p, 4, 0, 4);
    assert p[8..] == r1[4..];
  }

  /** Three leading fields of four bytes. */
  lemma ThreeFields(a: nat, b: nat, c: nat, rest: seq<byte>, p: seq<byte>)
    requires a <= 0xFFFF_FFFF && b <= 0xFFFF_FFFF && c <= 0xFFFF_FFFF && p == Le(a, 4) + Le(b, 4) + Le(c, 4) + rest
    ensures Field(p, 0, 4) == a && Field(p, 4, 4) == b && Field(p, 8, 4) == c && p[12..] == rest
  {
    Widths();
    Rejoin(Le(a, 4), Le(b, 4), Le(c, 4), rest);
    TwoFields(a, b, Le(c, 4) + rest, p);
    Leading(c, 4, rest);
    Later(p, 8, 0, 4);
    Dropped(p, 8, 4);
  }

  /** Two leading fields of two bytes. */
  lemma TwoShorts(a: nat, b: nat, rest: seq<byte>, p: seq<byte>)
    requires a <= 0xFFFF && b <= 0xFFFF && p == Le(a, 2) + Le(b, 2) + rest
    ensures Field(p, 0, 2) == a && Field(p, 2, 2) == b && p[4..] == rest
  {
    Widths();
    var r1 := Le(b, 2) + rest;
    assert p == Le(a, 2) + r1;
    Leading(a, 2, r1);
    Leading(b, 2, rest);
    Later(p, 2, 0, 2);
    Dropped(p, 2, 2);
  }

  lemma FourFields(a: nat, b: nat, c: nat, d: nat, p: seq<byte>)
    requires a <= 0xFFFF && b <= 0xFFFF && c <= 0xFFFF && d <= 0xFFFF && p == Le(a, 2) + Le(b, 2) + Le(c, 2) + Le(d, 2)
    ensures Field(p, 0, 2) == a && Field(p, 2, 2) == b && Field(p, 4, 2) == c && Field(p, 6, 2) == d
  {
    var tail := Le(c, 2) + Le(d, 2);
    Rejoin(Le(a, 2), Le(b, 2), Le(c, 2), Le(d, 2));
    TwoShorts(a, b, tail, p);
    assert tail == tail + [];
    TwoShorts(c, d, [], tail);
    Later(p, 4, 0, 2);
    Later(p, 4, 2, 2);
  }

  lemma UnpackRect(f: nat, id: nat, r: Rect)
    requires Sendable(BeginRect(f, id, r))
    ensures Unpack(Pack(BeginRect(f, id, r))) == Some(BeginRect(f, id, r))
  {
    var p, tail := Pack(BeginRect(f, id, r)).payload, Le(r.x, 2) + Le(r.y, 2) + Le(r.w, 2) + Le(r.h, 2);
    assert p == Le(f, 4) + Le(id, 4) + tail;
    TwoFields(f, id, tail, p);
    FourFields(r.x, r.y, r.w, r.h, tail);
    Later(p, 8, 0, 2);
    Later(p, 8, 2, 2);
    Later(p, 8, 4, 2);
    Later(p, 8, 6, 2);
  }

  lemma UnpackRle(f: nat, id: nat, offset: nat, count: nat, encoded: seq<byte>)
    requires Sendable(RectRle(f, id, offset, count, encoded))
    ensures Unpack(Pack(RectRle(f, id, offset, count, encoded))) == Some(RectRle(f, id, offset, count, encoded))
  {
    var p, tail := Pack(RectRle(f, id, offset, count, encoded)).payload, Le(count, 2) + encoded;
    assert p == Le(f, 4) + Le(id, 4) + Le(offset, 4) + tail;
    ThreeFields(f, id, offset, tail, p);
    Widths();
    Leading(count, 2, encoded);
    Later(p, 12, 0, 2);
    Dropped(p, 12, 2);
  }

  lemma UnpackSmall(c: Command)
    requires Sendable(c) && (c.BeginFrame? || c.Present? || c.RectData?)
    ensures Unpack(Pack(c)) == Some(c)
  {
    Widths();
    var p := Pack(c).payload;
    match c
    case BeginFrame(f, full) =>
      assert p == p + [];
      TwoFields(f, if full then 1 else 0, [], p);
    case Present(f) =>
      assert p == Le(f, 4) + [];
      Leading(f, 4, []);
    case RectData(f, id, offset, bytes) =>
      ThreeFields(f, id, offset, bytes, p);
  }

  /** The receiver reads back every command that fits. */
  lemma UnpackPack(c: Command)
    requires Sendable(c)
    ensures Unpack(Pack(c)) == Some(c)
  {
    match c
    case BeginRect(f, id, r) => UnpackRect(f, id, r);
    case RectRle(f, id, offset, count, encoded) => UnpackRle(f, id, offset, count, encoded);
    case _ => UnpackSmall(c);
  }

  /** The payload of a command, byte by byte, all numbers least significant byte first. */
  predicate PayloadLaid(c: Command, opcode: byte, p: seq<byte>) {
    && |p| >= 4 && Four(p, 0) == c.frame
    && match c
       case BeginFrame(_, full) => opcode == 16 && |p| == 8 && Four(p, 4) == if full then 1 else 0
       case BeginRect(_, id, r) =>
         && opcode == 17 && |p| == 16 && Four(p, 4) == id
         && Two(p, 8) == r.x && Two(p, 10) == r.y && Two(p, 12) == r.w && Two(p, 14) == r.h
       case RectData(_, id, offset, bytes) =>
         opcode == 18 && |p| == 12 + |bytes| && Four(p, 4) == id && Four(p, 8) == offset && p[12..] == bytes
       case RectRle(_, id, offset, count, encoded) =>
         && opcode == 21 && |p| == 14 + |encoded| && Four(p, 4) == id && Four(p, 8) == offset
         && Two(p, 12) == count && p[14..] == encoded
       case Present(_) => opcode == 19 && |p| == 4
  }

  lemma RectLaid(f: nat, id: nat, r: Rect)
    requires Sendable(BeginRect(f, id, r))
    ensures PayloadLaid(BeginRect(f, id, r), Pack(BeginRect(f, id, r)).opcode, Pack(BeginRect(f, id, r)).payload)
  {
    var p := Pack(BeginRect(f, id, r)).payload;
    UnpackRect(f, id, r);
    FourIsField(p, 0);
    FourIsField(p, 4);
    TwoIsField(p, 8);
    TwoIsField(p, 10);
    TwoIsField(p, 12);
    TwoIsField(p, 14);
  }

  lemma RleLaid(f: nat, id: nat, offset: nat, count: nat, encoded: seq<byte>)
    requires Sendable(RectRle(f, id, offset, count, encoded))
    ensures var c := RectRle(f, id, offset, count, encoded); PayloadLaid(c, Pack(c).opcode, Pack(c).payload)
  {
    var p := Pack(RectRle(f, id, offset, count, encoded)).payload;
    UnpackRle(f, id, offset, count, encoded);
    FourIsField(p, 0);
    FourIsField(p, 4);
    FourIsField(p, 8);
    TwoIsField(p, 12);
  }

  lemma SmallLaid(c: Command)
    requires Sendable(c) && (c.BeginFrame? || c.Present? || c.RectData?)
    ensures PayloadLaid(c, Pack(c).opcode, Pack(c).payload)
  {
    var p := Pack(c).payload;
    UnpackSmall(c);
    FourIsField(p, 0);
    if |p| >= 8 { FourIsField(p, 4); }
    if |p| >= 12 { FourIsField(p, 8); }
  }

  /** Every command is packed as it is laid out. */
  lemma PackMeans(c: Command)
    requires Sendable(c)
    ensures PayloadLaid(c, Pack(c).opcode, Pack(c).payload)
  {
    match c
    case BeginRect(f, id, r) => RectLaid(f, id, r);
    case RectRle(f, id, offset, count, encoded) => RleLaid(f, id, offset, count, encoded);
    case _ => SmallLaid(c);
  }

  // ---------------------------------------------------------------- every planned command fits

  predicate AllSendable(cmds: seq<Command>) {
    forall i :: 0 <= i < |cmds| ==> Sendable(cmds[i])
  }

  lemma {:induction false} DataSendable(cmds: seq<Command>, f: nat, rect: nat, offset: nat, data: seq<byte>)
    requires Carries(cmds, f, rect, offset, data)
    requires f <= 0xFFFF_FFFF && rect <= 0xFFFF_FFFF && offset + |data| <= 0xFFFF_FFFF
    ensures AllSendable(cmds)
    decreases |cmds|
  {
    if cmds != [] {
      var n := |Content(cmds[0]).value|;
      DataSendable(cmds[1..], f, rect, offset + n, data[n..]);
      assert cmds == [cmds[0]] + cmds[1..];
    }
  }

  lemma {:induction false} BandsSendable(g: Geometry, max: nat, f: nat, bands: seq<Rect>, pixels: seq<byte>,
                                         cmds: seq<Command>)
    requires g.Valid() && |pixels| == g.Size() && AllOk(g, max, bands) && Draws(g, f, bands, pixels, cmds)
    requires f <= 0xFFFF_FFFF && max <= 0xFFFF_FFFF && |bands| <= 0xFFFF
    ensures AllSendable(cmds)
    decreases |bands|
  {
    if bands != [] {
      var m :| 0 <= m <= |cmds| && DrawnAt(g, f, bands, pixels, cmds, m);
      var r := bands[|bands| - 1];
      assert BandOk(g, max, r);
      BandsSendable(g, max, f, bands[..|bands| - 1], pixels, cmds[..m]);
      DataSendable(cmds[m..][1..], f, |bands|, 0, Cut(g, pixels, r, r.h));
      assert cmds == cmds[..m] + ([cmds[m]] + cmds[m..][1..]);
      assert Sendable(cmds[m]);
    }
  }

  lemma UploadSendable(g: Geometry, max: nat, f: nat, full: bool, bands: seq<Rect>, pixels: seq<byte>,
                       cmds: seq<Command>)
    requires g.Valid() && |pixels| == g.Size() && AllOk(g, max, bands) && Uploads(g, f, full, bands, pixels, cmds)
    requires f <= 0xFFFF_FFFF && max <= 0xFFFF_FFFF && |bands| <= 0xFFFF
    ensures AllSendable(cmds)
  {
    var middle := cmds[1..|cmds| - 1];
    BandsSendable(g, max, f, bands, pixels, middle);
    forall i | 0 <= i < |cmds| ensures Sendable(cmds[i]) {
      if 0 < i < |cmds| - 1 {
        assert cmds[i] == middle[i - 1];
      }
    }
  }

  // ---------------------------------------------------------------- the display at the end of the link

  function PackAll(cmds: seq<Command>): (r: seq<Upload>)
    requires AllSendable(cmds)
    ensures |r| == |cmds| && forall i :: 0 <= i < |r| ==> r[i] == Pack(cmds[i])
  {
    seq(|cmds|, i requires 0 <= i < |cmds| => Pack(cmds[i]))
  }

  /** The display after it has applied some uploads; None once it has refused one. */
  function Applied(g: Geometry, max: nat, d: Display, us: seq<Upload>): (r: Option<Display>)
    requires |d.shown| == |d.work| == g.Size()
    decreases |us|
  {
    if us == [] then Some(d)
    else
      match Unpack(us[0])
      case None => None
      case Some(c) =>
        match Apply(g, max, d, c)
        case None => None
        case Some(e) => Applied(g, max, e, us[1..])
  }

  /** Packing loses nothing on the way to the display. */
  lemma {:induction false} AppliedIsReplay(g: Geometry, max: nat, d: Display, cmds: seq<Command>)
    requires |d.shown| == |d.work| == g.Size() && AllSendable(cmds)
    ensures Applied(g, max, d, PackAll(cmds)) == Replay(g, max, d, cmds)
    decreases |cmds|
  {
    if cmds != [] {
      UnpackPack(cmds[0]);
      assert PackAll(cmds)[1..] == PackAll(cmds[1..]);
      var e := Apply(g, max, d, cmds[0]);
      if e.Some? {
        AppliedIsReplay(g, max, e.value, cmds[1..]);
      }
    }
  }

  /** Nothing but PRESENT changes what is shown. */
  lemma {:induction false} OnlyPresentShows(g: Geometry, max: nat, d: Display, cmds: seq<Command>)
    requires |d.shown| == |d.work| == g.Size() && Replay(g, max, d, cmds).Some?
    requires forall i :: 0 <= i < |cmds| ==> !cmds[i].Present?
    ensures Replay(g, max, d, cmds).value.shown == d.shown
    decreases |cmds|
  {
    if cmds != [] {
      OnlyPresentShows(g, max, Apply(g, max, d, cmds[0]).value, cmds[1..]);
    }
  }

  lemma {:induction false} PrefixAccepted(g: Geometry, max: nat, d: Display, a: seq<Command>, b: seq<Command>)
    requires |d.shown| == |d.work| == g.Size() && Replay(g, max, d, a + b).Some?
    ensures Replay(g, max, d, a).Some?
    decreases |a|
  {
    if a != [] {
      assert (a + b)[0] == a[0] && (a + b)[1..] == a[1..] + b;
      PrefixAccepted(g, max, Apply(g, max, d, a[0]).value, a[1..], b);
    }
  }

  lemma {:induction false} DataHasNoPresent(cmds: seq<Command>, f: nat, rect: nat, offset: nat, data: seq<byte>)
    requires Carries(cmds, f, rect, offset, data)
    ensures forall i :: 0 <= i < |cmds| ==> !cmds[i].Present?
    decreases |cmds|
  {
    if cmds != [] {
      var n := |Content(cmds[0]).value|;
      DataHasNoPresent(cmds[1..], f, rect, offset + n, data[n..]);
      assert cmds == [cmds[0]] + cmds[1..];
    }
  }

  lemma {:induction false} BandsHaveNoPresent(g: Geometry, f: nat, bands: seq<Rect>, pixels: seq<byte>,
                                              cmds: seq<Command>)
    requires |pixels| == g.Size() && Draws(g, f, bands, pixels, cmds)
    ensures forall i :: 0 <= i < |cmds| ==> !cmds[i].Present?
    decreases |bands|
  {
    if bands != [] {
      var m :| 0 <= m <= |cmds| && DrawnAt(g, f, bands, pixels, cmds, m);
      var r := bands[|bands| - 1];
      BandsHaveNoPresent(g, f, bands[..|bands| - 1], pixels, cmds[..m]);
      DataHasNoPresent(cmds[m..][1..], f, |bands|, 0, Cut(g, pixels, r, r.h));
      assert cmds == cmds[..m] + ([cmds[m]] + cmds[m..][1..]);
    }
  }

  /** The upload of a frame as it crosses the link, from a display that has applied everything before it. */
  ghost predicate Crossing(g: Geometry, max: nat, d: Display, f: nat, full: bool, bands: seq<Rect>, pixels: seq<byte>,
                           cmds: seq<Command>)
  {
    && Ready(g, d) && IsFrame(g, pixels) && AllOk(g, max, bands) && Uploads(g, f, full, bands, pixels, cmds)
    && f <= 0xFFFF_FFFF && max <= 0xFFFF_FFFF && |bands| <= 0xFFFF
    && (full || d.retained) && Suffices(g, if full then d.work else d.shown, pixels, bands)
  }

  /**
   While the upload crosses the link the display shows the old frame or the new one, never a mixture, and refuses
   nothing.
   */
  lemma NeverTorn(g: Geometry, max: nat, d: Display, f: nat, full: bool, bands: seq<Rect>, pixels: seq<byte>,
                  cmds: seq<Command>, k: nat)
    requires Crossing(g, max, d, f, full, bands, pixels, cmds) && k <= |cmds|
    ensures AllSendable(cmds) && AllSendable(cmds[..k])
    ensures var e := Applied(g, max, d, PackAll(cmds[..k]));
            e.Some? && e.value.shown == if k == |cmds| then pixels else d.shown
  {
    UploadSendable(g, max, f, full, bands, pixels, cmds);
    UploadShows(g, max, d, f, full, bands, pixels, cmds);
    AppliedIsReplay(g, max, d, cmds[..k]);
    assert cmds == cmds[..k] + cmds[k..];
    PrefixAccepted(g, max, d, cmds[..k], cmds[k..]);
    if k == |cmds| {
      assert cmds[..k] == cmds;
    } else {
      BandsHaveNoPresent(g, f, bands, pixels, cmds[1..|cmds| - 1]);
      forall i | 0 <= i < k ensures !cmds[..k][i].Present? {
        if i > 0 {
          assert cmds[i] == cmds[1..|cmds| - 1][i - 1];
        }
      }
      OnlyPresentShows(g, max, d, cmds[..k]);
    }
  }

  lemma {:induction false} AppliedConcat(g: Geometry, max: nat, d: Display, a: seq<Upload>, b: seq<Upload>)
    requires |d.shown| == |d.work| == g.Size() && Applied(g, max, d, a).Some?
    ensures |Applied(g, max, d, a).value.shown| == |Applied(g, max, d, a).value.work| == g.Size()
    ensures Applied(g, max, d, a + b) == Applied(g, max, Applied(g, max, d, a).value, b)
    decreases |a|
  {
    if a == [] {
      assert a + b == b;
    } else {
      assert (a + b)[0] == a[0] && (a + b)[1..] == a[1..] + b;
      AppliedConcat(g, max, Apply(g, max, d, Unpack(a[0]).value).value, a[1..], b);
    }
  }

  /** What the receiver's display shows after some uploads is known and is one of these frames. */
  predicate Shows(g: Geometry, max: nat, start: Display, applied: seq<Upload>, frames: set<seq<byte>>)
    requires |start.shown| == |start.work| == g.Size()
  {
    var e := Applied(g, max, start, applied);
    e.Some? && e.value.shown in frames
  }

  /**
   A frame's upload is being issued, or has been, behind earlier uploads that led the display to d. At every moment,
   once the receiver is past the earlier uploads it has refused nothing and shows what d showed or the new frame; and
   when all of the upload is issued and the sender keeps nothing, it shows exactly the new frame.
   */
  lemma OldOrNew(crc: Checksum, s: Session, w: World, g: Geometry, max: nat, start: Display, earlier: seq<Upload>,
                 d: Display, f: nat, full: bool, bands: seq<Rect>, pixels: seq<byte>, cmds: seq<Command>)
    requires Sound(crc, s, w)
    requires |start.shown| == |start.work| == g.Size() && Applied(g, max, start, earlier) == Some(d)
    requires Crossing(g, max, d, f, full, bands, pixels, cmds) && AllSendable(cmds)
    requires w.issued <= earlier + PackAll(cmds)
    ensures |w.applied| >= |earlier| ==> Shows(g, max, start, w.applied, {d.shown, pixels})
    ensures w.issued == earlier + PackAll(cmds) && w.client.packets == [] ==> Shows(g, max, start, w.applied, {pixels})
  {
    if |w.applied| >= |earlier| {
      var k := |w.applied| - |earlier|;
      Behind(earlier, cmds, w.applied, k);
      NeverTorn(g, max, d, f, full, bands, pixels, cmds, k);
      AppliedConcat(g, max, start, earlier, PackAll(cmds[..k]));
    }
  }

  /** So it is at every moment of every run of the window, over a link that drops, repeats and reorders. */
  lemma EndToEnd(crc: Checksum, s: Session, size: nat, run: seq<World>, g: Geometry, max: nat, start: Display,
                 earlier: seq<Upload>, d: Display, f: nat, full: bool, bands: seq<Rect>, pixels: seq<byte>,
                 cmds: seq<Command>)
    requires 1 <= size <= LAST_SEQUENCE && Run(crc, s, size, run)
    requires |start.shown| == |start.work| == g.Size() && Applied(g, max, start, earlier) == Some(d)
    requires Crossing(g, max, d, f, full, bands, pixels, cmds) && AllSendable(cmds)
    requires run[|run| - 1].issued <= earlier + PackAll(cmds)
    ensures var w := run[|run| - 1];
            && (|w.applied| >= |earlier| ==> Shows(g, max, start, w.applied, {d.shown, pixels}))
            && (w.issued == earlier + PackAll(cmds) && w.client.packets == [] ==>
                Shows(g, max, start, w.applied, {pixels}))
  {
    EveryRunInOrder(crc, s, size, run);
    OldOrNew(crc, s, run[|run| - 1], g, max, start, earlier, d, f, full, bands, pixels, cmds);
  }

  lemma Behind(earlier: seq<Upload>, cmds: seq<Command>, applied: seq<Upload>, k: nat)
    requires AllSendable(cmds) && k <= |cmds| && |applied| == |earlier| + k && applied <= earlier + PackAll(cmds)
    ensures AllSendable(cmds[..k]) && applied == earlier + PackAll(cmds[..k])
  {
  }
}
