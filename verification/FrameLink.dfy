/**
 A frame's commands through DisplayLink._upload_command of scripts/dlp_image.py, as _upload_frame sends them when a
 window is in force, and what the display at the far end shows whenever that stops.
 */
module FrameLink {
  import opened Wrappers
  import opened Words
  import opened Frames
  import opened FramePlan
  import opened Screen
  import opened Window
  import opened WindowLink
  import opened UploadLink
  import opened FrameSender

  /** What the link does around one command: the exchanges of a flush in front of it, and of one behind it. */
  datatype Weather = Weather(before: seq<Exchange>, behind: seq<Exchange>)

  lemma OneMore(earlier: seq<Upload>, all: seq<Upload>, i: nat)
    requires i < |all|
    ensures earlier + all[..i] + [all[i]] == earlier + all[..i + 1]
    ensures earlier <= earlier + all[..i] <= earlier + all && earlier <= earlier + all[..i + 1] <= earlier + all
  {
    assert all == all[..i] + all[i..] && all == all[..i + 1] + all[i + 1..];
  }

  /** One command after the other, until one fails. */
  method SendCommands(link: Link, cmds: seq<Command>, weather: seq<Weather>) returns (r: Queued)
    requires link.Valid() && AllSendable(cmds) && |weather| == |cmds|
    modifies link
    ensures link.Valid() && old(link.applied) <= link.applied
    ensures old(link.issued) <= link.issued <= old(link.issued) + PackAll(cmds)
    ensures r == Queued.Issued ==> link.issued == old(link.issued) + PackAll(cmds)
    ensures r == Queued.Issued && cmds != [] && cmds[|cmds| - 1].Present? ==> link.pushPackets == []
    ensures r == CreditExhausted ==> link.pushSent == LAST_SEQUENCE
    ensures r.FlushFailed? ==>
              r.why != Done && (|old(link.pushPackets)| + |cmds| > link.size || exists c :: c in cmds && c.Present?)
  {
    ghost var all, earlier := PackAll(cmds), link.issued;
    r := Queued.Issued;
    for i := 0 to |cmds|
      invariant link.Valid() && old(link.applied) <= link.applied
      invariant r == Queued.Issued && link.issued == earlier + all[..i]
      invariant i > 0 && cmds[i - 1].Present? ==> link.pushPackets == []
      invariant |link.pushPackets| <= |old(link.pushPackets)| + i
    {
      OneMore(earlier, all, i);
      r := link.UploadCommand(Pack(cmds[i]), weather[i].before, weather[i].behind);
      assert cmds[i] in cmds;
      if r != Queued.Issued {
        return;
      }
    }
    assert all[..|cmds|] == all;
  }

  /**
   The upload of a frame over the window. However it ends, a display that is past the earlier uploads shows what it
   showed or the new frame; a normal end means that it shows exactly the new frame.
   */
  method UploadOverWindow(link: Link, g: Geometry, max: nat, ghost start: Display, ghost d: Display,
                          ghost pixels: seq<byte>, cmds: seq<Command>, weather: seq<Weather>)
      returns (r: Queued)
    requires link.Valid() && |weather| == |cmds|
    requires |start.shown| == |start.work| == g.Size() && Applied(g, max, start, link.issued) == Some(d)
    requires Crosses(g, max, d, pixels, cmds)
    modifies link
    ensures link.Valid() && old(link.applied) <= link.applied
    ensures |link.applied| >= |old(link.issued)| ==> Shows(g, max, start, link.applied, {d.shown, pixels})
    ensures r == Queued.Issued ==> Shows(g, max, start, link.applied, {pixels})
    ensures r == CreditExhausted ==> link.pushSent == LAST_SEQUENCE
    ensures r.FlushFailed? ==>
              r.why != Done && (|old(link.pushPackets)| + |cmds| > link.size || exists c :: c in cmds && c.Present?)
  {
    ghost var earlier := link.issued;
    ghost var f, full, bands :| Crossing(g, max, d, f, full, bands, pixels, cmds);
    UploadSendable(g, max, f, full, bands, pixels, cmds);
    r := SendCommands(link, cmds, weather);
    OldOrNew(link.crc, link.session, link.Now(), g, max, start, earlier, d, f, full, bands, pixels, cmds);
  }
}
