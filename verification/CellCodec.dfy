/**
 The cell codec of scripts/dlp_image.py: requests and pushes as fixed 256-byte or compact packets.

 The checksum is a parameter: nothing below depends on which 32-bit function it is.
 */
module CellCodec {
  import opened Wrappers
  import opened Words

  type Checksum = seq<byte> -> uint32

  const CELL_SIZE := 256
  const REQUEST: byte := 1
  const PUSH: byte := 3
  const MAX_PAYLOAD := 220
  const FIXED_MAGIC: seq<byte> := [0x53, 0x44, 0x4C, 0x50]
  const COMPACT_MAGIC: seq<byte> := [0x44, 0x4C, 0x50, 0x31]

  datatype Cell = Cell(kind: byte, opcode: byte, session: uint32, sequence: uint32, result: uint16, boot: uint64,
                       payload: seq<byte>)

  // ---------------------------------------------------------------- little-endian fields

  function Pow256(n: nat): (r: nat)
    ensures r > 0
  {
    if n == 0 then 1 else 256 * Pow256(n - 1)
  }

  /** `n` bytes of x, least significant first. */
  function Le(x: nat, n: nat): (r: seq<byte>)
    ensures |r| == n
  {
    if n == 0 then [] else [x % 256] + Le(x / 256, n - 1)
  }

  function Value(bs: seq<byte>): (r: nat)
    ensures r < Pow256(|bs|)
  {
    if bs == [] then 0 else bs[0] + 256 * Value(bs[1..])
  }

  lemma {:induction false} ValueOfLe(x: nat, n: nat)
    requires x < Pow256(n)
    ensures Value(Le(x, n)) == x
  {
    if n > 0 {
      ValueOfLe(x / 256, n - 1);
      assert Le(x, n)[1..] == Le(x / 256, n - 1);
    }
  }

  lemma {:induction false} LeOfValue(bs: seq<byte>)
    ensures Le(Value(bs), |bs|) == bs
  {
    if bs != [] {
      LeOfValue(bs[1..]);
      assert Value(bs) % 256 == bs[0] && Value(bs) / 256 == Value(bs[1..]);
    }
  }

  lemma Widths()
    ensures Pow256(2) == 0x1_0000 && Pow256(4) == 0x1_0000_0000 && Pow256(8) == 0x1_0000_0000_0000_0000
  {
    assert Pow256(1) == 256;
    assert Pow256(2) == 0x1_0000;
    assert Pow256(3) == 0x100_0000;
    assert Pow256(4) == 0x1_0000_0000;
    assert Pow256(5) == 0x100_0000_0000;
    assert Pow256(6) == 0x1_0000_0000_0000;
    assert Pow256(7) == 0x100_0000_0000_0000;
  }

  // ---------------------------------------------------------------- packets

  function Zeros(n: nat): (r: seq<byte>)
    ensures |r| == n && forall i :: 0 <= i < n ==> r[i] == 0
  {
    seq(n, _ => 0)
  }

  /** The 32-byte header: magic, version 1, a zero, kind, opcode, then the numbers and four zeros. */
  function Header(magic: seq<byte>, kind: byte, opcode: byte, session: nat, sequence: nat, n: nat,
                  boot: nat): (r: seq<byte>)
    requires |magic| == 4
    ensures |r| == 32
  {
    magic + [1, 0, kind, opcode] + Le(session, 4) + Le(sequence, 4) + Le(0, 2) + Le(n, 2) + Le(boot, 8) + Zeros(4)
  }

  /** The bytes that the checksum covers. */
  function Body(kind: byte, opcode: byte, session: nat, sequence: nat, boot: nat, payload: seq<byte>, compact: bool)
      : (r: seq<byte>)
    requires |payload| <= MAX_PAYLOAD
    ensures |r| == if compact then 32 + |payload| else 252
  {
    Header(if compact then COMPACT_MAGIC else FIXED_MAGIC, kind, opcode, session, sequence, |payload|, boot)
    + payload + (if compact then [] else Zeros(MAX_PAYLOAD - |payload|))
  }

  predicate Encodable(kind: byte, sequence: int, payload: seq<byte>) {
    |payload| <= MAX_PAYLOAD && 0 < sequence <= 0xFFFF_FFFF && kind in {REQUEST, PUSH}
  }

  /** encode_cell; None where it raises "Invalid SDLP request". */
  function Encode(crc: Checksum, opcode: byte, session: uint32, sequence: int, boot: uint64, payload: seq<byte>,
                  compact: bool, kind: byte): (r: Option<seq<byte>>)
  {
    if !Encodable(kind, sequence, payload) then None
    else
      var body := Body(kind, opcode, session, sequence, boot, payload, compact);
      Some(body + Le(crc(body), 4))
  }

  /** An unsigned field of a packet. */
  function Field(p: seq<byte>, at: nat, n: nat): (r: nat)
    requires at + n <= |p|
  {
    Value(p[at..at + n])
  }

  function LengthField(p: seq<byte>): (r: nat)
    requires |p| >= 32
  {
    Field(p, 18, 2)
  }

  predicate AllZero(p: seq<byte>) {
    forall i :: 0 <= i < |p| ==> p[i] == 0
  }

  /** The tests of decode_cell on a packet whose length already agrees with its header. */
  predicate WellFormed(crc: Checksum, p: seq<byte>)
    requires 36 <= |p| <= CELL_SIZE && LengthField(p) <= MAX_PAYLOAD
    requires |p| == if p[..4] == COMPACT_MAGIC then 36 + LengthField(p) else CELL_SIZE
  {
    var compact := p[..4] == COMPACT_MAGIC;
    var kind, op, seq0, result, n := p[6], p[7], Field(p, 12, 4), Field(p, 16, 2), LengthField(p);
    && (p[..4] == FIXED_MAGIC || compact)
    && p[4] == 1 && p[5] == 0 && kind <= PUSH
    && AllZero(p[28..32]) && (compact || AllZero(p[32 + n..252]))
    && Field(p, |p| - 4, 4) == crc(p[..|p| - 4])
    && (kind != 0 ==> seq0 != 0)
    && (kind == 0 ==> op == 0 && seq0 == 0 && result == 0 && n == 0)
    && (kind in {REQUEST, PUSH} ==> result == 0)
  }

  /** decode_cell; None where it raises. */
  function Decode(crc: Checksum, p: seq<byte>): (r: Option<Cell>) {
    if |p| < 36 || |p| > CELL_SIZE then None
    else
      var n := LengthField(p);
      if |p| != (if p[..4] == COMPACT_MAGIC then 36 + n else CELL_SIZE) || n > MAX_PAYLOAD then None
      else if !WellFormed(crc, p) then None
      else
        Widths();
        Some(Cell(p[6], p[7], Field(p, 8, 4), Field(p, 12, 4), Field(p, 16, 2), Field(p, 20, 8), p[32..32 + n]))
  }

  // ---------------------------------------------------------------- the codec is a bijection

  lemma Behind(front: seq<byte>, back: seq<byte>, h: seq<byte>)
    requires h == front + back
    ensures h[|front|..|h|] == back
  {
  }

  lemma HeaderFields(magic: seq<byte>, kind: byte, opcode: byte, session: uint32, sequence: uint32, n: uint16,
                     boot: uint64)
    requires |magic| == 4
    ensures var h := Header(magic, kind, opcode, session, sequence, n, boot);
            && h[..4] == magic && h[4] == 1 && h[5] == 0 && h[6] == kind && h[7] == opcode
            && Field(h, 8, 4) == session && Field(h, 12, 4) == sequence && Field(h, 16, 2) == 0
            && Field(h, 18, 2) == n && Field(h, 20, 8) == boot && AllZero(h[28..32])
  {
    var h := Header(magic, kind, opcode, session, sequence, n, boot);
    Widths();
    assert h[8..12] == Le(session, 4) && h[12..16] == Le(sequence, 4) && h[16..18] == Le(0, 2);
    assert h[18..20] == Le(n, 2) && h[20..28] == Le(boot, 8);
    ghost var front := magic + [1, 0, kind, opcode] + Le(session, 4) + Le(sequence, 4) + Le(0, 2) + Le(n, 2)
        + Le(boot, 8);
    Behind(front, Zeros(4), h);
    ValueOfLe(session, 4);
    ValueOfLe(sequence, 4);
    ValueOfLe(0, 2);
    ValueOfLe(n, 2);
    ValueOfLe(boot, 8);
  }

  /** The packet starts with the header. */
  lemma HeaderSlices(h: seq<byte>, rest: seq<byte>, p: seq<byte>)
    requires |h| == 32 && p == h + rest
    ensures p[..4] == h[..4] && p[8..12] == h[8..12] && p[12..16] == h[12..16] && p[16..18] == h[16..18]
    ensures p[18..20] == h[18..20] && p[20..28] == h[20..28] && p[28..32] == h[28..32]
    ensures p[4] == h[4] && p[5] == h[5] && p[6] == h[6] && p[7] == h[7]
  {
  }

  /** Cutting a packet at its header, payload, padding and checksum. */
  lemma PacketSlices(h: seq<byte>, payload: seq<byte>, pad: seq<byte>, tail: seq<byte>, p: seq<byte>)
    requires |h| == 32 && |tail| == 4 && p == h + payload + pad + tail
    ensures var n := |payload|;
            && p[32..32 + n] == payload && p[32 + n..|p| - 4] == pad
            && p[..|p| - 4] == h + payload + pad && p[|p| - 4..|p|] == tail
  {
  }

  /** What the tests ask of a request or push packet, field by field. */
  lemma Accepted(crc: Checksum, p: seq<byte>, payload: seq<byte>)
    requires 36 <= |p| <= CELL_SIZE && |payload| <= MAX_PAYLOAD && LengthField(p) == |payload|
    requires p[..4] in {FIXED_MAGIC, COMPACT_MAGIC} && p[4] == 1 && p[5] == 0 && p[6] in {REQUEST, PUSH}
    requires |p| == if p[..4] == COMPACT_MAGIC then 36 + |payload| else CELL_SIZE
    requires Field(p, 12, 4) != 0 && Field(p, 16, 2) == 0 && AllZero(p[28..32])
    requires p[..4] == FIXED_MAGIC ==> AllZero(p[32 + |payload|..252])
    requires Field(p, |p| - 4, 4) == crc(p[..|p| - 4]) && p[32..32 + |payload|] == payload
    ensures Decode(crc, p).Some?
    ensures var c := Decode(crc, p).value;
            && c.kind == p[6] && c.opcode == p[7] && c.session == Field(p, 8, 4) && c.sequence == Field(p, 12, 4)
            && c.result == 0 && c.boot == Field(p, 20, 8) && c.payload == payload
  {
  }

  /** A header followed by what it announces passes the tests and decodes to its fields. */
  lemma DecodesAs(crc: Checksum, h: seq<byte>, payload: seq<byte>, pad: seq<byte>, tail: seq<byte>, p: seq<byte>)
    requires |h| == 32 && h[..4] in {FIXED_MAGIC, COMPACT_MAGIC} && h[4] == 1 && h[5] == 0
    requires h[6] in {REQUEST, PUSH} && Field(h, 12, 4) != 0 && Field(h, 16, 2) == 0 && AllZero(h[28..32])
    requires Field(h, 18, 2) == |payload| <= MAX_PAYLOAD
    requires |pad| == (if h[..4] == COMPACT_MAGIC then 0 else MAX_PAYLOAD - |payload|) && AllZero(pad)
    requires |tail| == 4 && Value(tail) == crc(h + payload + pad) && p == h + payload + pad + tail
    ensures Decode(crc, p).Some?
    ensures var c := Decode(crc, p).value;
            && c.kind == h[6] && c.opcode == h[7] && c.session == Field(h, 8, 4) && c.sequence == Field(h, 12, 4)
            && c.result == 0 && c.boot == Field(h, 20, 8) && c.payload == payload
  {
    HeaderFirst(h, payload, pad, tail, p);
    PacketSlices(h, payload, pad, tail, p);
    Accepted(crc, p, payload);
  }

  lemma HeaderFirst(h: seq<byte>, payload: seq<byte>, pad: seq<byte>, tail: seq<byte>, p: seq<byte>)
    requires |h| == 32 && p == h + payload + pad + tail
    ensures p[..4] == h[..4] && p[8..12] == h[8..12] && p[12..16] == h[12..16] && p[16..18] == h[16..18]
    ensures p[18..20] == h[18..20] && p[20..28] == h[20..28] && p[28..32] == h[28..32]
    ensures p[4] == h[4] && p[5] == h[5] && p[6] == h[6] && p[7] == h[7]
  {
    assert p == h + (payload + pad + tail);
    HeaderSlices(h, payload + pad + tail, p);
  }

  /** Decoding what was encoded gives the cell back, in both framings. */
  lemma DecodeOfEncode(crc: Checksum, opcode: byte, session: uint32, sequence: uint32, boot: uint64, payload: seq<byte>,
                       compact: bool, kind: byte)
    requires Encodable(kind, sequence, payload)
    ensures Decode(crc, Encode(crc, opcode, session, sequence, boot, payload, compact, kind).value)
         == Some(Cell(kind, opcode, session, sequence, 0, boot, payload))
  {
    var pad := if compact then [] else Zeros(MAX_PAYLOAD - |payload|);
    var body := Body(kind, opcode, session, sequence, boot, payload, compact);
    var magic := if compact then COMPACT_MAGIC else FIXED_MAGIC;
    Widths();
    ValueOfLe(crc(body), 4);
    HeaderFields(magic, kind, opcode, session, sequence, |payload|, boot);
    DecodesAs(crc, Header(magic, kind, opcode, session, sequence, |payload|, boot), payload, pad, Le(crc(body), 4),
              body + Le(crc(body), 4));
  }

  /** The header of a packet is its fields written back. */
  lemma HeaderRewritten(h: seq<byte>)
    requires |h| == 32 && h[4] == 1 && h[5] == 0 && AllZero(h[28..32]) && Field(h, 16, 2) == 0
    ensures h == Header(h[..4], h[6], h[7], Field(h, 8, 4), Field(h, 12, 4), Field(h, 18, 2), Field(h, 20, 8))
  {
    LeOfValue(h[8..12]);
    LeOfValue(h[12..16]);
    LeOfValue(h[16..18]);
    LeOfValue(h[18..20]);
    LeOfValue(h[20..28]);
    assert h[28..32] == Zeros(4);
    assert h == h[..4] + h[4..8] + h[8..12] + h[12..16] + h[16..18] + h[18..20] + h[20..28] + h[28..32];
  }

  /** A packet with the shape decode_cell asks for is its body and its checksum. */
  lemma PacketRewritten(p: seq<byte>)
    requires 36 <= |p| <= CELL_SIZE && LengthField(p) <= MAX_PAYLOAD && p[4] == 1 && p[5] == 0 && AllZero(p[28..32])
    requires |p| == (if p[..4] == COMPACT_MAGIC then 36 + LengthField(p) else CELL_SIZE)
    requires p[..4] == FIXED_MAGIC ==> AllZero(p[32 + LengthField(p)..252])
    requires p[..4] in {FIXED_MAGIC, COMPACT_MAGIC} && Field(p, 16, 2) == 0
    ensures p == Body(p[6], p[7], Field(p, 8, 4), Field(p, 12, 4), Field(p, 20, 8), p[32..32 + LengthField(p)],
                      p[..4] == COMPACT_MAGIC) + p[|p| - 4..]
  {
    var n, h := LengthField(p), p[..32];
    assert h[..4] == p[..4] && h[8..12] == p[8..12] && h[12..16] == p[12..16] && h[16..18] == p[16..18];
    assert h[18..20] == p[18..20] && h[20..28] == p[20..28] && h[28..32] == p[28..32];
    HeaderRewritten(h);
    var pad := if p[..4] == COMPACT_MAGIC then [] else Zeros(MAX_PAYLOAD - n);
    assert p[32 + n..|p| - 4] == pad;
    assert p == h + p[32..32 + n] + p[32 + n..|p| - 4] + p[|p| - 4..];
  }

  /** An accepted request or push packet is the encoding of the cell it decodes to. */
  lemma EncodeOfDecode(crc: Checksum, p: seq<byte>)
    requires Decode(crc, p).Some? && Decode(crc, p).value.kind in {REQUEST, PUSH}
    ensures var c := Decode(crc, p).value;
            Encode(crc, c.opcode, c.session, c.sequence, c.boot, c.payload, p[..4] == COMPACT_MAGIC, c.kind) == Some(p)
  {
    var c := Decode(crc, p).value;
    PacketRewritten(p);
    LeOfValue(p[|p| - 4..|p|]);
    var body := Body(c.kind, c.opcode, c.session, c.sequence, c.boot, c.payload, p[..4] == COMPACT_MAGIC);
    assert p == body + p[|p| - 4..] && |body| == |p| - 4;
    assert p[..|p| - 4] == body && p[|p| - 4..] == p[|p| - 4..|p|];
    assert Value(p[|p| - 4..|p|]) == crc(body);
    assert Encodable(c.kind, c.sequence, c.payload);
  }

  // ---------------------------------------------------------------- the bytes on the wire

  /** The bytes of a text. */
  function Ascii(text: string): (r: seq<int>)
    ensures |r| == |text| && forall i :: 0 <= i < |r| ==> r[i] == text[i] as int
  {
    seq(|text|, i requires 0 <= i < |text| => text[i] as int)
  }

  function Two(p: seq<byte>, at: nat): (n: int)
    requires at + 2 <= |p|
  {
    var a: int, b: int := p[at], p[at + 1];
    a + 256 * b
  }

  function Four(p: seq<byte>, at: nat): (n: int)
    requires at + 4 <= |p|
  {
    Two(p, at) + 65536 * Two(p, at + 2)
  }

  function Eight(p: seq<byte>, at: nat): (n: int)
    requires at + 8 <= |p|
  {
    Four(p, at) + 4294967296 * Four(p, at + 4)
  }

  lemma TwoIsField(p: seq<byte>, at: nat)
    requires at + 2 <= |p|
    ensures Field(p, at, 2) == Two(p, at)
  {
    var s := p[at..at + 2];
    assert s[1..] == [p[at + 1]] && s[1..][1..] == [];
    assert Value([p[at + 1]]) == p[at + 1];
  }

  lemma Halves(bs: seq<byte>, k: nat)
    requires k <= |bs|
    ensures Value(bs) == Value(bs[..k]) + Pow256(k) * Value(bs[k..])
    decreases k
  {
    if k == 0 {
      assert bs[0..] == bs;
    } else {
      Halves(bs[1..], k - 1);
      assert bs[1..][..k - 1] == bs[..k][1..] && bs[1..][k - 1..] == bs[k..];
      Regroup(Pow256(k - 1), Value(bs[k..]));
    }
  }

  lemma Regroup(a: nat, b: nat)
    ensures 256 * (a * b) == (256 * a) * b
  {
  }

  lemma FourIsField(p: seq<byte>, at: nat)
    requires at + 4 <= |p|
    ensures Field(p, at, 4) == Four(p, at)
  {
    Widths();
    Halves(p[at..at + 4], 2);
    assert p[at..at + 4][..2] == p[at..at + 2] && p[at..at + 4][2..] == p[at + 2..at + 4];
    TwoIsField(p, at);
    TwoIsField(p, at + 2);
  }

  lemma EightIsField(p: seq<byte>, at: nat)
    requires at + 8 <= |p|
    ensures Field(p, at, 8) == Eight(p, at)
  {
    Widths();
    Halves(p[at..at + 8], 4);
    assert p[at..at + 8][..4] == p[at..at + 4] && p[at..at + 8][4..] == p[at + 4..at + 8];
    FourIsField(p, at);
    FourIsField(p, at + 4);
  }

  /** What a cell may hold: an idle one nothing, any other a number; a request and a push have no result. */
  predicate Legal(c: Cell) {
    && c.kind <= 3 && |c.payload| <= 220
    && (c.kind == 0 ==> c.opcode == 0 && c.sequence == 0 && c.result == 0 && c.payload == [])
    && (c.kind != 0 ==> c.sequence != 0)
    && (c.kind == 1 || c.kind == 3 ==> c.result == 0)
  }

  /** The header of a packet, byte by byte, all numbers least significant byte first. */
  predicate HeaderLaid(p: seq<byte>, c: Cell, compact: bool)
    requires |p| >= 32
  {
    && p[..4] == Ascii(if compact then "DLP1" else "SDLP")
    && p[4] == 1 && p[5] == 0 && p[6] == c.kind && p[7] == c.opcode
    && Four(p, 8) == c.session && Four(p, 12) == c.sequence && Two(p, 16) == c.result && Two(p, 18) == |c.payload|
    && Eight(p, 20) == c.boot && p[28] == 0 && p[29] == 0 && p[30] == 0 && p[31] == 0
  }

  /** A packet of 256 bytes, or as long as it needs to be, with the checksum of all before it at its end. */
  predicate Laid(crc: Checksum, p: seq<byte>, c: Cell, compact: bool) {
    && |c.payload| <= 220 && |p| == (if compact then 36 + |c.payload| else 256)
    && HeaderLaid(p, c, compact)
    && p[32..32 + |c.payload|] == c.payload
    && (forall i :: 32 + |c.payload| <= i < |p| - 4 ==> p[i] == 0)
    && Four(p, |p| - 4) == crc(p[..|p| - 4])
  }

  lemma MagicsAre()
    ensures Ascii("SDLP") == FIXED_MAGIC && Ascii("DLP1") == COMPACT_MAGIC && FIXED_MAGIC != COMPACT_MAGIC
  {
    assert FIXED_MAGIC[0] != COMPACT_MAGIC[0];
  }

  lemma FieldsAre(p: seq<byte>)
    requires |p| >= 36
    ensures Field(p, 8, 4) == Four(p, 8) && Field(p, 12, 4) == Four(p, 12) && Field(p, 16, 2) == Two(p, 16)
    ensures Field(p, 18, 2) == Two(p, 18) && Field(p, 20, 8) == Eight(p, 20) && Field(p, |p| - 4, 4) == Four(p, |p| - 4)
  {
    FourIsField(p, 8);
    FourIsField(p, 12);
    TwoIsField(p, 16);
    TwoIsField(p, 18);
    EightIsField(p, 20);
    FourIsField(p, |p| - 4);
  }

  lemma DecodedIsLaid(crc: Checksum, p: seq<byte>)
    requires Decode(crc, p).Some?
    ensures Legal(Decode(crc, p).value) && Laid(crc, p, Decode(crc, p).value, p[..4] == COMPACT_MAGIC)
  {
    MagicsAre();
    FieldsAre(p);
    Widths();
    var n := LengthField(p);
    assert p[28..32][0] == p[28] && p[28..32][1] == p[29] && p[28..32][2] == p[30] && p[28..32][3] == p[31];
    if p[..4] != COMPACT_MAGIC {
      forall i | 32 + n <= i < 252 ensures p[i] == 0 {
        assert p[32 + n..252][i - (32 + n)] == p[i];
      }
    }
  }

  lemma LaidDecodes(crc: Checksum, p: seq<byte>, c: Cell, compact: bool)
    requires Legal(c) && Laid(crc, p, c, compact)
    ensures Decode(crc, p) == Some(c)
  {
    MagicsAre();
    FieldsAre(p);
    Widths();
    assert LengthField(p) == |c.payload|;
    assert p[..4] == COMPACT_MAGIC <==> compact;
    assert AllZero(p[28..32]);
    assert compact || AllZero(p[32 + |c.payload|..252]);
    assert WellFormed(crc, p);
  }

  /**
   A packet decodes to a cell exactly if it is that cell, laid out in one of the two framings, and the cell is legal.
   */
  lemma DecodeMeans(crc: Checksum, p: seq<byte>, c: Cell)
    ensures Decode(crc, p) == Some(c) <==> Legal(c) && (Laid(crc, p, c, false) || Laid(crc, p, c, true))
  {
    if Decode(crc, p).Some? {
      DecodedIsLaid(crc, p);
    }
    if Legal(c) && Laid(crc, p, c, false) {
      LaidDecodes(crc, p, c, false);
    }
    if Legal(c) && Laid(crc, p, c, true) {
      LaidDecodes(crc, p, c, true);
    }
  }

  /** A request or a push is encoded exactly as it is laid out. */
  lemma EncodeMeans(crc: Checksum, opcode: byte, session: uint32, sequence: uint32, boot: uint64, payload: seq<byte>,
                    compact: bool, kind: byte, p: seq<byte>)
    requires |payload| <= 220 && sequence != 0 && kind in {1, 3}
    ensures Encode(crc, opcode, session, sequence, boot, payload, compact, kind) == Some(p) <==>
              Laid(crc, p, Cell(kind, opcode, session, sequence, 0, boot, payload), compact)
  {
    var c := Cell(kind, opcode, session, sequence, 0, boot, payload);
    var e := Encode(crc, opcode, session, sequence, boot, payload, compact, kind);
    DecodeOfEncode(crc, opcode, session, sequence, boot, payload, compact, kind);
    DecodeMeans(crc, e.value, c);
    EncodedMagic(crc, opcode, session, sequence, boot, payload, compact, kind);
    MagicsAre();
    if Laid(crc, p, c, compact) {
      DecodeMeans(crc, p, c);
      EncodeOfDecode(crc, p);
    }
  }

  lemma EncodedMagic(crc: Checksum, opcode: byte, session: uint32, sequence: uint32, boot: uint64, payload: seq<byte>,
                     compact: bool, kind: byte)
    requires Encodable(kind, sequence, payload)
    ensures var p := Encode(crc, opcode, session, sequence, boot, payload, compact, kind).value;
            |p| >= 36 && p[..4] == if compact then COMPACT_MAGIC else FIXED_MAGIC
  {
    var h := Header(if compact then COMPACT_MAGIC else FIXED_MAGIC, kind, opcode, session, sequence, |payload|, boot);
    var p := Encode(crc, opcode, session, sequence, boot, payload, compact, kind).value;
    HeaderFields(if compact then COMPACT_MAGIC else FIXED_MAGIC, kind, opcode, session, sequence, |payload|, boot);
    assert p[..32] == h;
    assert p[..4] == h[..4];
  }

  // ---------------------------------------------------------------- encode_cell, in place

  /** Bytes written behind a prefix of a packet that is zero from there on. */
  method PutBytes(packet: array<byte>, ghost prefix: seq<byte>, at: nat, bs: seq<byte>)
    requires at == |prefix| && at + |bs| <= packet.Length && packet[..] == prefix + Zeros(packet.Length - at)
    modifies packet
    ensures packet[..] == prefix + bs + Zeros(packet.Length - at - |bs|)
  {
    for i := 0 to |bs|
      invariant packet[..] == prefix + bs[..i] + Zeros(packet.Length - at - i)
    {
      packet[at + i] := bs[i];
    }
  }

  /** struct.pack_into of one little-endian field. */
  method PackLe(packet: array<byte>, ghost prefix: seq<byte>, at: nat, x: nat, n: nat)
    requires at == |prefix| && at + n <= packet.Length && packet[..] == prefix + Zeros(packet.Length - at)
    modifies packet
    ensures packet[..] == prefix + Le(x, n) + Zeros(packet.Length - at - n)
  {
    var rest := x;
    ghost var done: seq<byte> := [];
    for i := 0 to n
      invariant |done| == i && packet[..] == prefix + done + Zeros(packet.Length - at - i)
      invariant rest >= 0 && done + Le(rest, n - i) == Le(x, n)
    {
      packet[at + i] := rest % 256;
      done := done + [rest % 256];
      rest := rest / 256;
    }
    assert done == Le(x, n);
  }

  method PutFirst(packet: array<byte>, bs: seq<byte>)
    requires |bs| <= packet.Length && packet[..] == Zeros(packet.Length)
    modifies packet
    ensures packet[..] == bs + Zeros(packet.Length - |bs|)
  {
    ghost var none: seq<byte> := [];
    assert packet[..] == none + Zeros(packet.Length);
    PutBytes(packet, none, 0, bs);
    assert none + bs == bs;
  }

  /** The header of a fresh cell. */
  method PackHeader(packet: array<byte>, magic: seq<byte>, kind: byte, opcode: byte, session: uint32, sequence: uint32,
                    n: uint16, boot: uint64)
    requires |magic| == 4 && packet.Length >= 32 && packet[..] == Zeros(packet.Length)
    modifies packet
    ensures packet[..] == Header(magic, kind, opcode, session, sequence, n, boot) + Zeros(packet.Length - 32)
  {
    ghost var p := magic + [1, 0, kind, opcode];
    PutFirst(packet, magic + [1, 0, kind, opcode]);
    ghost var q := PackNumbers(packet, p, session, sequence);
    PackCounts(packet, q, n, boot);
  }

  method PackNumbers(packet: array<byte>, ghost p: seq<byte>, session: uint32, sequence: uint32)
      returns (ghost q: seq<byte>)
    requires |p| == 8 && packet.Length >= 32 && packet[..] == p + Zeros(packet.Length - 8)
    modifies packet
    ensures q == p + Le(session, 4) + Le(sequence, 4) && packet[..] == q + Zeros(packet.Length - 16)
  {
    PackLe(packet, p, 8, session, 4);
    PackLe(packet, p + Le(session, 4), 12, sequence, 4);
    q := p + Le(session, 4) + Le(sequence, 4);
  }

  method PackCounts(packet: array<byte>, ghost p: seq<byte>, n: uint16, boot: uint64)
    requires |p| == 16 && packet.Length >= 32 && packet[..] == p + Zeros(packet.Length - 16)
    modifies packet
    ensures packet[..] == p + Le(0, 2) + Le(n, 2) + Le(boot, 8) + Zeros(4) + Zeros(packet.Length - 32)
  {
    PackLe(packet, p, 16, 0, 2);
    PackLe(packet, p + Le(0, 2), 18, n, 2);
    PackLe(packet, p + Le(0, 2) + Le(n, 2), 20, boot, 8);
    assert Zeros(packet.Length - 28) == Zeros(4) + Zeros(packet.Length - 32);
  }

  /** encode_cell: the same bytes, written field by field into a zeroed cell. */
  method EncodeCell(crc: Checksum, opcode: byte, session: uint32, sequence: int, boot: uint64, payload: seq<byte>,
                    compact: bool, kind: byte) returns (r: Option<seq<byte>>)
    ensures r == Encode(crc, opcode, session, sequence, boot, payload, compact, kind)
  {
    if |payload| > MAX_PAYLOAD || !(0 < sequence <= 0xFFFF_FFFF) || !(kind == REQUEST || kind == PUSH) {
      return None;
    }
    var packet := new byte[CELL_SIZE](_ => 0);
    var magic := if compact then COMPACT_MAGIC else FIXED_MAGIC;
    assert packet[..] == Zeros(CELL_SIZE);
    PackHeader(packet, magic, kind, opcode, session, sequence, |payload|, boot);
    ghost var h := Header(magic, kind, opcode, session, sequence, |payload|, boot);
    PutBytes(packet, h, 32, payload);
    var cut := if compact then 32 + |payload| else 252;
    var body := packet[..cut];
    assert body == Body(kind, opcode, session, sequence, boot, payload, compact);
    if compact {
      return Some(body + Le(crc(body), 4));
    }
    PutTail(packet, body, crc(body));
    return Some(packet[..]);
  }

  /** The checksum goes into the last four bytes of a fixed cell. */
  method PutTail(packet: array<byte>, ghost body: seq<byte>, sum: uint32)
    requires packet.Length == CELL_SIZE && |body| == 252 && packet[..252] == body && AllZero(packet[252..])
    modifies packet
    ensures packet[..] == body + Le(sum, 4)
  {
    assert packet[..] == body + Zeros(4);
    PackLe(packet, body, 252, sum, 4);
  }
}
