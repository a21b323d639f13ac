/**
 DisplayLink._flush_window and _upload_command of scripts/dlp_image.py over the window model.

 `issued`, `channel` and `applied` are the rest of the world: what was queued, what is on the link and what the
 receiver has done. Each exchange of a flush says what the link delivers meanwhile and what the receiver then answers;
 packets that were never sent are not delivered, and an acknowledgement above what is applied is cut down to it.
 */
module WindowLink {
  import opened Wrappers
  import opened Words
  import opened Arith
  import opened CellCodec
  import opened Window

  const WINDOW_VERSION := 2

  datatype Progress = Progress(version: nat, size: nat, ack: nat, grant: nat, failed: nat, uploadError: nat,
                               frameError: nat, completed: nat, failedFrame: nat, needFull: nat)

  /**
   One exchange. The answer is missing when `command` raised, and has no progress when its payload is not 32 bytes.
   */
  datatype Exchange = Exchange(deliveries: seq<seq<byte>>, answer: Option<Option<Progress>>)

  datatype Flushed =
    | Done
    | Malformed
    | UploadFailed(code: nat)
    | FrameFailed(code: nat)
    | Overacknowledged
    | NotPresented
    | TimedOut

  datatype Queued = Issued | CreditExhausted | FlushFailed(why: Flushed)

  function Feasible(crc: Checksum, s: Session, w: World, ps: seq<seq<byte>>): (r: seq<seq<byte>>)
    ensures forall p :: p in r ==> Possible(crc, s, w, p)
    ensures (forall p :: p in ps ==> Possible(crc, s, w, p)) ==> r == ps
  {
    if ps == [] then [] else (if Possible(crc, s, w, ps[0]) then [ps[0]] else []) + Feasible(crc, s, w, ps[1..])
  }

  /** The kept packets have gone out and some packets have arrived. */
  function Exchanged(crc: Checksum, s: Session, w: World, ps: seq<seq<byte>>): World {
    var v := Transmitted(w);
    DeliverAll(crc, s, v, Feasible(crc, s, v, ps))
  }

  /** Nothing but the receiver changes, and it has everything if just the kept packets arrive in order. */
  lemma ExchangeKeeps(crc: Checksum, s: Session, w: World, ps: seq<seq<byte>>)
    requires Sound(crc, s, w)
    ensures var v := Exchanged(crc, s, w, ps);
            Sound(crc, s, v) && v.client == w.client && v.issued == w.issued && w.applied <= v.applied
    ensures ps == w.client.packets ==> Exchanged(crc, s, w, ps).applied == w.issued
  {
    var v := Transmitted(w);
    TransmitKeeps(crc, s, w);
    DeliverAllKeeps(crc, s, v, Feasible(crc, s, v, ps));
    if ps == w.client.packets {
      ResendCompletes(crc, s, v, |ps|);
      assert ps[..|ps|] == ps;
    }
  }

  class Link {
    const crc: Checksum
    const session: Session
    const size: nat
    /** The number of the last command, which every command counts up. */
    var sequence: nat
    var pushSent: nat
    var pushAck: nat
    var pushGrant: nat
    var pushPackets: seq<seq<byte>>
    var issued: seq<Upload>
    var channel: set<seq<byte>>
    var applied: seq<Upload>

    function Now(): World
      reads this
    {
      World(Client(size, pushSent, pushAck, pushGrant, pushPackets), issued, channel, applied)
    }

    ghost predicate Valid()
      reads this
    {
      Sound(crc, session, Now())
    }

    constructor (crc: Checksum, session: Session, size: nat)
      requires 1 <= size <= 16
      ensures Valid() && Now() == Fresh(size) && sequence == 0
    {
      sequence := 0;
      this.crc, this.session, this.size := crc, session, size;
      pushSent, pushAck, pushGrant, pushPackets := 0, 0, size, [];
      issued, channel, applied := [], {}, [];
    }

    /** The kept packets go out, packets arrive, and the receiver answers. */
    method Command(x: Exchange) returns (answer: Option<Option<Progress>>)
      requires Valid()
      modifies this`sequence, this`channel, this`applied
      ensures Valid() && old(applied) <= applied && sequence == old(sequence) + 1
      ensures x.answer.None? ==> answer.None?
      ensures x.answer == Some(None) ==> answer == Some(None)
      ensures x.answer.Some? && x.answer.value.Some? ==>
                && answer.Some? && answer.value.Some?
                && var p, q := answer.value.value, x.answer.value.value;
                   p == q.(ack := if q.ack <= |applied| then q.ack else |applied|)
      ensures x.deliveries == pushPackets ==> applied == issued
    {
      sequence := sequence + 1;
      ExchangeKeeps(crc, session, Now(), x.deliveries);
      var after := Exchanged(crc, session, Now(), x.deliveries);
      channel, applied := after.channel, after.applied;
      assert Now() == after;
      answer := x.answer;
      if answer.Some? && answer.value.Some? {
        var p := answer.value.value;
        answer := Some(Some(p.(ack := Least(p.ack, |applied|))));
      }
    }

    /** The checks on a progress report that raise ValueError. */
    predicate Acceptable(p: Progress)
      reads this
    {
      && p.version == WINDOW_VERSION && p.size == size && pushAck <= p.ack <= pushSent
      && p.grant == Least(LAST_SEQUENCE, p.ack + size) && p.needFull <= 1
      && (p.failed != 0 <==> p.uploadError != 0) && p.failed <= pushSent
    }

    /** The complaints about a report, in their order. */
    method Complain(frame: nat, p: Progress) returns (r: Option<Flushed>)
      ensures r == Some(Malformed) <==> (
                p.version != 2 || p.size != size || p.ack < pushAck || p.ack > pushSent
                || p.grant != (if p.ack + size < 0xFFFF_FFFF then p.ack + size else 0xFFFF_FFFF) || p.needFull >= 2
                || (p.failed == 0 && p.uploadError > 0) || (p.failed > 0 && p.uploadError == 0) || p.failed > pushSent)
      ensures r == if r == Some(Malformed) then r
                else if p.uploadError > 0 then Some(UploadFailed(p.uploadError))
                else if frame > 0 && (p.failedFrame == frame || p.frameError > 0) then Some(FrameFailed(p.frameError))
                else None
    {
      if !Acceptable(p) {
        return Some(Malformed);
      }
      if p.uploadError != 0 {
        return Some(UploadFailed(p.uploadError));
      }
      if frame != 0 && (p.failedFrame == frame || p.frameError != 0) {
        return Some(FrameFailed(p.frameError));
      }
      return None;
    }

    /** The acknowledged packets are dropped. */
    method Take(removed: nat, p: Progress)
      requires Valid() && p.ack <= |applied| && p.ack == pushAck + removed <= pushSent
      requires p.grant == Least(LAST_SEQUENCE, p.ack + size)
      modifies this`pushAck, this`pushGrant, this`pushPackets
      ensures Valid() && pushAck == p.ack && removed <= |old(pushPackets)| && pushPackets == old(pushPackets)[removed..]
      ensures |pushPackets| == pushSent - p.ack && (pushPackets == [] ==> applied == issued)
    {
      AcknowledgeKeeps(crc, session, Now(), p.ack);
      pushPackets := pushPackets[removed..];
      pushAck, pushGrant := p.ack, p.grant;
    }

    /** One report. None: not everything is acknowledged yet. */
    method Report(frame: nat, p: Progress) returns (r: Option<Flushed>)
      requires Valid() && p.ack <= |applied|
      modifies this`pushAck, this`pushGrant, this`pushPackets
      ensures Valid() && pushAck >= old(pushAck)
      ensures r == Some(Done) ==> pushPackets == [] && applied == issued
      ensures r == Some(Malformed) <==> (
                p.version != 2 || p.size != size || p.ack < old(pushAck) || p.ack > pushSent
                || p.grant != (if p.ack + size < 0xFFFF_FFFF then p.ack + size else 0xFFFF_FFFF) || p.needFull >= 2
                || (p.failed == 0 && p.uploadError > 0) || (p.failed > 0 && p.uploadError == 0) || p.failed > pushSent)
      ensures r == if r == Some(Malformed) then r
                else if p.uploadError > 0 then Some(UploadFailed(p.uploadError))
                else if frame > 0 && (p.failedFrame == frame || p.frameError > 0) then Some(FrameFailed(p.frameError))
                else if p.ack < pushSent then None
                else if frame > 0 && !(p.completed == frame && p.needFull == 0) then Some(NotPresented)
                else Some(Done)
      ensures if r in {None, Some(Done), Some(NotPresented)} then
                pushAck == p.ack && pushPackets == old(pushPackets)[p.ack - old(pushAck)..]
              else
                pushAck == old(pushAck) && pushGrant == old(pushGrant) && pushPackets == old(pushPackets)
    {
      r := Complain(frame, p);
      if r.Some? {
        return;
      }
      var removed := p.ack - pushAck;
      if removed > |pushPackets| {
        return Some(Overacknowledged);
      }
      Take(removed, p);
      if pushPackets == [] {
        if frame != 0 && (p.completed != frame || p.needFull != 0) {
          return Some(NotPresented);
        }
        return Some(Done);
      }
      return None;
    }

    /** The answer says that the frame was presented and nothing went wrong. */
    ghost predicate Presents(x: Exchange, frame: nat) {
      && x.answer.Some? && x.answer.value.Some?
      && var p := x.answer.value.value;
         p.completed == frame && p.failedFrame != frame && p.uploadError == 0 && p.frameError == 0 && p.needFull == 0
    }

    /** The answer reports no error, so that the flush goes on as long as something is unacknowledged. */
    ghost predicate Pending(x: Exchange, frame: nat) {
      && x.answer.Some? && x.answer.value.Some?
      && var p := x.answer.value.value;
         p.version == 2 && p.uploadError == 0 && (frame > 0 ==> p.failedFrame != frame && p.frameError == 0)
    }

    /** The answer acknowledges all that was sent, and with a frame its presentation. */
    ghost predicate Completes(x: Exchange, sent: nat, frame: nat) {
      && x.answer.Some? && x.answer.value.Some?
      && var p := x.answer.value.value;
         && p.version == 2 && p.size == size && p.ack == sent && p.failed == 0 && p.uploadError == 0
         && p.grant == (if sent + size < 0xFFFF_FFFF then sent + size else 0xFFFF_FFFF)
         && (frame > 0 ==> p.failedFrame != frame && p.frameError == 0 && p.completed == frame) && p.needFull == 0
    }

    /** One turn of the flush: the kept packets and the question, and how the flush ends, if it does. */
    method Turn(frame: nat, x: Exchange) returns (done: Option<Flushed>)
      requires Valid()
      modifies this`sequence, this`channel, this`applied, this`pushAck, this`pushGrant, this`pushPackets
      ensures Valid() && old(applied) <= applied && |pushPackets| <= |old(pushPackets)|
      ensures sequence == old(sequence) + 1 && done != Some(Overacknowledged)
      ensures done == Some(TimedOut) <==> x.answer.None?
      ensures done == Some(Done) ==> pushPackets == [] && pushAck == pushSent && applied == issued
      ensures done == Some(Done) && frame > 0 ==> Presents(x, frame)
      ensures done == None ==> Pending(x, frame) && pushAck < pushSent
      ensures x.deliveries == old(pushPackets) && Completes(x, pushSent, frame) ==> done == Some(Done)
    {
      var answer := Command(x);
      if answer.None? {
        return Some(TimedOut);
      }
      if answer.value.None? {
        return Some(Malformed);
      }
      done := Report(frame, answer.value.value);
    }

    /**
     _flush_window: returns normally only when the receiver has applied everything that was issued. It goes on after a
     report that leaves something open, and times out only when an answer is missing or no exchange is left.
     */
    method Flush(frame: nat, exchanges: seq<Exchange>) returns (r: Flushed)
      requires Valid()
      modifies this`sequence, this`channel, this`applied, this`pushAck, this`pushGrant, this`pushPackets
      ensures Valid() && old(applied) <= applied && |pushPackets| <= |old(pushPackets)|
      ensures r == Done ==> pushPackets == [] && pushAck == pushSent && applied == issued
      ensures r == Done && frame > 0 ==> exists x :: x in exchanges && Presents(x, frame)
      ensures r != Overacknowledged
      ensures old(sequence) <= sequence <= old(sequence) + |exchanges|
      ensures var used := sequence - old(sequence);
              && (forall i :: 0 <= i < used - 1 ==> Pending(exchanges[i], frame))
              && (used == 0 ==> exchanges == [] && r == TimedOut)
              && (used > 0 ==>
                    var last := exchanges[used - 1];
                    && (last.answer.None? ==> r == TimedOut)
                    && (last.answer.Some? && r == TimedOut ==>
                          used == |exchanges| && Pending(last, frame) && pushAck < pushSent))
      ensures exchanges != [] && exchanges[0].deliveries == old(pushPackets) && Completes(exchanges[0], pushSent, frame)
              ==> r == Done && sequence == old(sequence) + 1
    {
      for i := 0 to |exchanges|
        invariant Valid() && old(applied) <= applied && |pushPackets| <= |old(pushPackets)|
        invariant sequence == old(sequence) + i
        invariant forall k :: 0 <= k < i ==> Pending(exchanges[k], frame)
        invariant i > 0 ==> pushAck < pushSent
        invariant i == 0 ==> pushPackets == old(pushPackets)
        invariant i > 0 && exchanges[0].deliveries == old(pushPackets) ==> !Completes(exchanges[0], pushSent, frame)
      {
        var done := Turn(frame, exchanges[i]);
        if done.Some? {
          return done.value;
        }
      }
      return TimedOut;
    }

    /** The packet of a push. */
    ghost function Packet(u: Upload, n: nat): (p: seq<byte>)
      requires |u.payload| <= MAX_PAYLOAD && 0 < n <= LAST_SEQUENCE
      ensures PushIn(crc, session, p) == Some((n, u))
    {
      PushReceived(crc, session, u, n);
      PushPacket(crc, session, u, n).value
    }

    method Push(u: Upload)
      requires Valid() && |u.payload| <= MAX_PAYLOAD && |pushPackets| < size && pushSent < LAST_SEQUENCE
      modifies this`pushSent, this`pushPackets, this`issued
      ensures Valid() && issued == old(issued) + [u] && pushSent == old(pushSent) + 1
      ensures pushPackets == old(pushPackets) + [Packet(u, pushSent)]
    {
      var next := Window.Issued(crc, session, Now(), u);
      IssueKeeps(crc, session, Now(), u);
      pushSent, pushPackets, issued := pushSent + 1, next.client.packets, issued + [u];
      assert Now() == next;
    }

    /** A full window is flushed; how that fails, if it does. */
    method MakeRoom(before: seq<Exchange>) returns (failed: Option<Flushed>)
      requires Valid()
      modifies this`sequence, this`channel, this`applied, this`pushAck, this`pushGrant, this`pushPackets
      ensures Valid() && old(applied) <= applied && |pushPackets| <= |old(pushPackets)|
      ensures |old(pushPackets)| < size ==>
                failed == None && Now() == old(Now()) && sequence == old(sequence)
      ensures |old(pushPackets)| == size && failed == None ==> pushPackets == [] && applied == issued
      ensures |old(pushPackets)| == size && before != [] && before[0].deliveries == old(pushPackets)
              && Completes(before[0], pushSent, 0)
              ==> failed == None
      ensures failed == None ==> |pushPackets| < size && (pushSent < LAST_SEQUENCE ==> pushSent < pushGrant)
      ensures failed != Some(Done)
    {
      failed := None;
      if |pushPackets| == size {
        var flushed := Flush(0, before);
        failed := if flushed != Done then Some(flushed) else None;
      }
    }

    /** One more push, and a flush behind a PRESENT. */
    method Queue(u: Upload, behind: seq<Exchange>) returns (r: Queued)
      requires Valid() && |u.payload| <= MAX_PAYLOAD && (u.opcode == PRESENT ==> |u.payload| == 4)
      requires |pushPackets| < size && pushSent < LAST_SEQUENCE
      modifies this
      ensures Valid() && old(applied) <= applied && |pushPackets| <= |old(pushPackets)| + 1
      ensures issued == old(issued) + [u] && pushSent == old(pushSent) + 1
      ensures u.opcode != PRESENT ==> r == Queued.Issued && channel == old(channel) && applied == old(applied)
                                      && sequence == old(sequence)
      ensures r == Queued.Issued || (r.FlushFailed? && r.why != Done)
      ensures r == Queued.Issued && u.opcode == PRESENT ==> applied == issued && pushPackets == []
      ensures r == Queued.Issued && u.opcode == PRESENT && Field(u.payload, 0, 4) > 0
              ==> exists x :: x in behind && Presents(x, Field(u.payload, 0, 4))
      ensures u.opcode == PRESENT && behind != [] && Completes(behind[0], pushSent, Field(u.payload, 0, 4))
              && behind[0].deliveries == old(pushPackets) + [Packet(u, pushSent)]
              ==> r == Queued.Issued
    {
      Push(u);
      if u.opcode == PRESENT {
        var flushed := Flush(Field(u.payload, 0, 4), behind);
        if flushed != Done {
          return FlushFailed(flushed);
        }
      }
      return Queued.Issued;
    }

    /**
     _upload_command with a window: flush first if the window is full, issue, and flush again behind a PRESENT. Credit
     is refused only when the sequence numbers have run out.
     */
    method UploadCommand(u: Upload, before: seq<Exchange>, behind: seq<Exchange>) returns (r: Queued)
      requires Valid() && |u.payload| <= MAX_PAYLOAD && (u.opcode == PRESENT ==> |u.payload| == 4)
      modifies this
      ensures Valid() && old(applied) <= applied
      ensures r == CreditExhausted ==> pushSent == LAST_SEQUENCE && issued == old(issued)
      ensures r == Queued.Issued ==> issued == old(issued) + [u] && pushSent == old(pushSent) + 1
      ensures r == Queued.Issued && u.opcode == PRESENT ==> applied == issued && pushPackets == []
      ensures r == Queued.Issued && u.opcode == PRESENT && Field(u.payload, 0, 4) > 0
              ==> exists x :: x in behind && Presents(x, Field(u.payload, 0, 4))
      ensures |pushPackets| <= |old(pushPackets)| + 1
      ensures r.FlushFailed? ==> r.why != Done && (|old(pushPackets)| == size || u.opcode == PRESENT)
      ensures |old(pushPackets)| < size && u.opcode != PRESENT
              ==> channel == old(channel) && applied == old(applied) && sequence == old(sequence)
      ensures |old(pushPackets)| == size && r == Queued.Issued ==> old(issued) <= applied
      ensures issued == old(issued) || issued == old(issued) + [u]
      ensures old(pushSent) < LAST_SEQUENCE && u.opcode != PRESENT
              && (|old(pushPackets)| == size ==> before != [] && before[0].deliveries == old(pushPackets)
                                                 && Completes(before[0], old(pushSent), 0))
              ==> r == Queued.Issued
      ensures old(pushSent) < LAST_SEQUENCE && u.opcode == PRESENT && |old(pushPackets)| < size && behind != []
              && behind[0].deliveries == old(pushPackets) + [Packet(u, old(pushSent) + 1)]
              && Completes(behind[0], old(pushSent) + 1, Field(u.payload, 0, 4))
              ==> r == Queued.Issued
    {
      var failed := MakeRoom(before);
      if failed.Some? {
        return FlushFailed(failed.value);
      }
      if pushSent == LAST_SEQUENCE || pushSent >= pushGrant {
        return CreditExhausted;
      }
      r := Queue(u, behind);
    }
  }
}
