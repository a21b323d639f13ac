/**
 The credit window of scripts/dlp_image.py: pushes numbered from 1, kept until they are acknowledged, resent from the
 first unacknowledged one, against a receiver that applies only the next expected push and acknowledges no more than
 it has applied. The link may drop, repeat and reorder packets.
 */
module Window {
  import opened Wrappers
  import opened Words
  import opened Arith
  import opened CellCodec

  const LAST_SEQUENCE := 0xFFFF_FFFF
  const PRESENT: byte := 0x13

  datatype Upload = Upload(opcode: byte, payload: seq<byte>)

  datatype Session = Session(session: uint32, boot: uint64, compact: bool)

  /** The sender's window fields. */
  datatype Client = Client(size: nat, sent: nat, ack: nat, grant: nat, packets: seq<seq<byte>>)

  /**
   Besides the sender: everything issued, every packet that was ever on the link, and what the receiver has applied.
   */
  datatype World = World(client: Client, issued: seq<Upload>, channel: set<seq<byte>>, applied: seq<Upload>)

  function PushPacket(crc: Checksum, s: Session, u: Upload, n: int): (r: Option<seq<byte>>) {
    Encode(crc, u.opcode, s.session, n, s.boot, u.payload, s.compact, PUSH)
  }

  /** What the receiver makes of a packet: the number and content of a push of this session, or nothing. */
  function PushIn(crc: Checksum, s: Session, p: seq<byte>): (r: Option<(nat, Upload)>) {
    match Decode(crc, p)
    case None => None
    case Some(c) =>
      if c.kind == PUSH && c.session == s.session && c.boot == s.boot
          then Some((c.sequence, Upload(c.opcode, c.payload)))
      else None
  }

  lemma PushReceived(crc: Checksum, s: Session, u: Upload, n: int)
    requires |u.payload| <= MAX_PAYLOAD && 0 < n <= LAST_SEQUENCE
    ensures PushPacket(crc, s, u, n).Some? && PushIn(crc, s, PushPacket(crc, s, u, n).value) == Some((n, u))
  {
    DecodeOfEncode(crc, u.opcode, s.session, n, s.boot, u.payload, s.compact, PUSH);
  }

  /** A push of another session, or from before a restart, is nothing to the receiver; nor is anything but a push. */
  lemma ForeignIgnored(crc: Checksum, s: Session, p: seq<byte>)
    requires Decode(crc, p).Some?
    ensures var c := Decode(crc, p).value;
            PushIn(crc, s, p).Some? <==> c.kind == 3 && c.session == s.session && c.boot == s.boot
  {
  }

  // ---------------------------------------------------------------- steps

  /** Queue one more push. */
  function Issued(crc: Checksum, s: Session, w: World, u: Upload): (r: World)
    requires |u.payload| <= MAX_PAYLOAD && w.client.sent < LAST_SEQUENCE
  {
    var c := w.client;
    var p := PushPacket(crc, s, u, c.sent + 1).value;
    w.(client := c.(sent := c.sent + 1, packets := c.packets + [p]), issued := w.issued + [u])
  }

  /** Put the kept packets on the link. */
  function Transmitted(w: World): World {
    w.(channel := w.channel + set p | p in w.client.packets)
  }

  /** A packet reaches the receiver. */
  function Delivered(crc: Checksum, s: Session, w: World, p: seq<byte>): World {
    match PushIn(crc, s, p)
    case None => w
    case Some((n, u)) => if n == |w.applied| + 1 then w.(applied := w.applied + [u]) else w
  }

  /** An acceptable progress report. */
  function Acknowledged(w: World, ack: nat): World
    requires w.client.ack <= ack <= w.client.ack + |w.client.packets|
  {
    var c := w.client;
    w.(client := c.(ack := ack, grant := Least(LAST_SEQUENCE, ack + c.size), packets := c.packets[ack - c.ack..]))
  }

  /** A packet that the link can hand over: one that was sent, or anything that is no push of this session. */
  predicate Possible(crc: Checksum, s: Session, w: World, p: seq<byte>) {
    p in w.channel || PushIn(crc, s, p).None?
  }

  datatype Event = Issue(u: Upload) | Transmit | Deliver(p: seq<byte>) | Acknowledge(ack: nat)

  /**
   What can happen: the sender issues within its window and credit; reports are checked, and never exceed what is
   applied.
   */
  predicate Enabled(crc: Checksum, s: Session, w: World, e: Event) {
    match e
    case Issue(u) =>
      && |u.payload| <= MAX_PAYLOAD && |w.client.packets| < w.client.size
      && w.client.sent < LAST_SEQUENCE && w.client.sent < w.client.grant
    case Transmit => true
    case Deliver(p) => Possible(crc, s, w, p)
    case Acknowledge(ack) =>
      w.client.ack <= ack <= w.client.sent && ack <= w.client.ack + |w.client.packets| && ack <= |w.applied|
  }

  function Next(crc: Checksum, s: Session, w: World, e: Event): World
    requires Enabled(crc, s, w, e)
  {
    match e
    case Issue(u) => Issued(crc, s, w, u)
    case Transmit => Transmitted(w)
    case Deliver(p) => Delivered(crc, s, w, p)
    case Acknowledge(ack) => Acknowledged(w, ack)
  }

  // ---------------------------------------------------------------- invariant

  /** The packet of push number k + 1. */
  predicate IsPacket(crc: Checksum, s: Session, issued: seq<Upload>, k: int, p: seq<byte>) {
    0 <= k < |issued| && PushPacket(crc, s, issued[k], k + 1) == Some(p)
  }

  predicate Sent(crc: Checksum, s: Session, issued: seq<Upload>, p: seq<byte>) {
    PushIn(crc, s, p).None? || exists k :: 0 <= k < |issued| && PushIn(crc, s, p) == Some((k + 1, issued[k]))
  }

  /** The kept packets are exactly those numbered ack + 1 to sent, and there is room for no more than the window. */
  predicate Window(crc: Checksum, s: Session, w: World) {
    var c := w.client;
    && 1 <= c.size && c.sent == |w.issued| <= LAST_SEQUENCE && c.ack <= c.sent
        && c.grant == Least(LAST_SEQUENCE, c.ack + c.size)
    && |c.packets| == c.sent - c.ack <= c.size
    && forall i :: 0 <= i < |c.packets| ==> IsPacket(crc, s, w.issued, c.ack + i, c.packets[i])
  }

  predicate Sound(crc: Checksum, s: Session, w: World) {
    && Window(crc, s, w)
    && (forall u :: u in w.issued ==> |u.payload| <= MAX_PAYLOAD)
    && (forall p :: p in w.channel ==> Sent(crc, s, w.issued, p))
    && w.client.ack <= |w.applied| <= |w.issued| && w.applied == w.issued[..|w.applied|]
  }

  lemma IssueKeeps(crc: Checksum, s: Session, w: World, u: Upload)
    requires Sound(crc, s, w) && Enabled(crc, s, w, Issue(u))
    ensures Sound(crc, s, Issued(crc, s, w, u))
  {
    var v := Issued(crc, s, w, u);
    IssueKeepsWindow(crc, s, w, u);
    forall p | p in v.channel ensures Sent(crc, s, v.issued, p) {
      StillSent(crc, s, w.issued, u, p);
    }
    assert v.issued[..|v.applied|] == w.issued[..|w.applied|];
  }

  lemma StillSent(crc: Checksum, s: Session, issued: seq<Upload>, u: Upload, p: seq<byte>)
    requires Sent(crc, s, issued, p)
    ensures Sent(crc, s, issued + [u], p)
  {
    if PushIn(crc, s, p).Some? {
      var k :| 0 <= k < |issued| && PushIn(crc, s, p) == Some((k + 1, issued[k]));
      assert (issued + [u])[k] == issued[k];
    }
  }

  lemma IssueKeepsWindow(crc: Checksum, s: Session, w: World, u: Upload)
    requires Window(crc, s, w) && Enabled(crc, s, w, Issue(u))
    ensures Window(crc, s, Issued(crc, s, w, u))
  {
    var v := Issued(crc, s, w, u);
    forall i | 0 <= i < |v.client.packets| ensures IsPacket(crc, s, v.issued, v.client.ack + i, v.client.packets[i]) {
      if i < |w.client.packets| {
        assert IsPacket(crc, s, w.issued, w.client.ack + i, w.client.packets[i]);
      }
    }
  }

  lemma KeptPacketSent(crc: Checksum, s: Session, w: World, i: nat)
    requires Sound(crc, s, w) && i < |w.client.packets|
    ensures PushIn(crc, s, w.client.packets[i]) == Some((w.client.ack + i + 1, w.issued[w.client.ack + i]))
    ensures Sent(crc, s, w.issued, w.client.packets[i])
  {
    var k := w.client.ack + i;
    assert IsPacket(crc, s, w.issued, k, w.client.packets[i]);
    assert w.issued[k] in w.issued;
    PushReceived(crc, s, w.issued[k], k + 1);
  }

  lemma TransmitKeeps(crc: Checksum, s: Session, w: World)
    requires Sound(crc, s, w)
    ensures Sound(crc, s, Transmitted(w))
  {
    var v := Transmitted(w);
    forall p | p in v.channel ensures Sent(crc, s, v.issued, p) {
      if p in w.client.packets {
        var i :| 0 <= i < |w.client.packets| && w.client.packets[i] == p;
        KeptPacketSent(crc, s, w, i);
      }
    }
  }

  lemma DeliverKeeps(crc: Checksum, s: Session, w: World, p: seq<byte>)
    requires Sound(crc, s, w) && Possible(crc, s, w, p)
    ensures Sound(crc, s, Delivered(crc, s, w, p)) && w.applied <= Delivered(crc, s, w, p).applied
  {
    if PushIn(crc, s, p).Some? {
      assert Sent(crc, s, w.issued, p);
      var k :| 0 <= k < |w.issued| && PushIn(crc, s, p) == Some((k + 1, w.issued[k]));
      if k == |w.applied| {
        assert w.issued[..k + 1] == w.issued[..k] + [w.issued[k]];
      }
    }
  }

  lemma AcknowledgeKeeps(crc: Checksum, s: Session, w: World, ack: nat)
    requires Sound(crc, s, w) && Enabled(crc, s, w, Acknowledge(ack))
    ensures Sound(crc, s, Acknowledged(w, ack))
  {
    var v := Acknowledged(w, ack);
    forall i | 0 <= i < |v.client.packets| ensures IsPacket(crc, s, v.issued, v.client.ack + i, v.client.packets[i]) {
      var j := ack - w.client.ack + i;
      assert v.client.packets[i] == w.client.packets[j];
      assert IsPacket(crc, s, w.issued, w.client.ack + j, w.client.packets[j]);
    }
  }

  lemma NextKeeps(crc: Checksum, s: Session, w: World, e: Event)
    requires Sound(crc, s, w) && Enabled(crc, s, w, e)
    ensures Sound(crc, s, Next(crc, s, w, e))
    ensures w.applied <= Next(crc, s, w, e).applied && w.issued <= Next(crc, s, w, e).issued
  {
    match e
    case Issue(u) => IssueKeeps(crc, s, w, u);
    case Transmit => TransmitKeeps(crc, s, w);
    case Deliver(p) => DeliverKeeps(crc, s, w, p);
    case Acknowledge(ack) => AcknowledgeKeeps(crc, s, w, ack);
  }

  /** A fresh session with a negotiated window. */
  function Fresh(size: nat): World {
    World(Client(size, 0, 0, size, []), [], {}, [])
  }

  /** The worlds of a run, one event apart. */
  ghost predicate Run(crc: Checksum, s: Session, size: nat, run: seq<World>) {
    && run != [] && run[0] == Fresh(size)
    && forall i :: 0 < i < |run| ==> Follows(crc, s, run[i - 1], run[i])
  }

  ghost predicate Follows(crc: Checksum, s: Session, w: World, v: World) {
    exists e :: Enabled(crc, s, w, e) && Next(crc, s, w, e) == v
  }

  /**
   In every run, at every moment: the applied uploads are a prefix of the issued ones, each once and in order; exactly
   the pushes after the acknowledged ones are kept, never more than the window; and once nothing is kept, everything
   issued is applied.
   */
  lemma {:induction false} EveryRunInOrder(crc: Checksum, s: Session, size: nat, run: seq<World>)
    requires 1 <= size <= LAST_SEQUENCE && Run(crc, s, size, run)
    ensures var w := run[|run| - 1];
            && w.applied <= w.issued
            && |w.client.packets| <= size && |w.client.packets| == w.client.sent - w.client.ack
            && (forall i :: 0 <= i < |w.client.packets| ==>
                IsPacket(crc, s, w.issued, w.client.ack + i, w.client.packets[i]))
            && (w.client.packets == [] ==> w.applied == w.issued)
    ensures Sound(crc, s, run[|run| - 1]) && run[|run| - 1].client.size == size
    decreases |run|
  {
    if |run| > 1 {
      var before := run[..|run| - 1];
      assert Run(crc, s, size, before) by {
        forall i | 0 < i < |before| ensures Follows(crc, s, before[i - 1], before[i]) {
          assert Follows(crc, s, run[i - 1], run[i]);
        }
      }
      EveryRunInOrder(crc, s, size, before);
      var w, v := before[|before| - 1], run[|run| - 1];
      assert Follows(crc, s, run[|run| - 2], v);
      var e :| Enabled(crc, s, w, e) && Next(crc, s, w, e) == v;
      NextKeeps(crc, s, w, e);
    }
  }

  // ---------------------------------------------------------------- resending is enough

  function DeliverAll(crc: Checksum, s: Session, w: World, ps: seq<seq<byte>>): World
    decreases |ps|
  {
    if ps == [] then w else Delivered(crc, s, DeliverAll(crc, s, w, ps[..|ps| - 1]), ps[|ps| - 1])
  }

  lemma {:induction false} DeliverAllKeeps(crc: Checksum, s: Session, w: World, ps: seq<seq<byte>>)
    requires Sound(crc, s, w) && forall p :: p in ps ==> Possible(crc, s, w, p)
    ensures var v := DeliverAll(crc, s, w, ps);
            Sound(crc, s, v) && v.client == w.client && v.issued == w.issued && v.channel == w.channel
                && w.applied <= v.applied
    decreases |ps|
  {
    if ps != [] {
      DeliverAllKeeps(crc, s, w, ps[..|ps| - 1]);
      assert ps[|ps| - 1] in ps;
      DeliverKeeps(crc, s, DeliverAll(crc, s, w, ps[..|ps| - 1]), ps[|ps| - 1]);
    }
  }

  /** If the kept packets arrive in order, the receiver has everything, wherever it was. */
  lemma {:induction false} ResendCompletes(crc: Checksum, s: Session, w: World, i: nat)
    requires Sound(crc, s, w) && i <= |w.client.packets|
    ensures var v := DeliverAll(crc, s, w, w.client.packets[..i]);
            |v.applied| == if |w.applied| > w.client.ack + i then |w.applied| else w.client.ack + i
    decreases i
  {
    if i > 0 {
      var ps := w.client.packets;
      ResendCompletes(crc, s, w, i - 1);
      KeptPacketSent(crc, s, w, i - 1);
      assert ps[..i][..i - 1] == ps[..i - 1] && ps[..i][i - 1] == ps[i - 1];
    }
  }
}
