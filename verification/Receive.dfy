/**
 DisplayLink._receive of scripts/dlp_image.py: a reader that finds cells in a byte stream and resynchronises after junk.
 */
module Receive {
  import opened Wrappers
  import opened Words
  import opened CellCodec

  // ---------------------------------------------------------------- the one-shot leftmost scan

  /** What the bytes at the front of a stream are: a cell of n bytes, certainly not a cell, or too few bytes to tell. */
  datatype Verdict = Found(cell: Cell, n: nat) | Junk | Unknown

  datatype Scanned = Scanned(cells: seq<Cell>, residue: seq<byte>)

  function Judge(crc: Checksum, s: seq<byte>, n: nat): (r: Verdict) {
    if |s| < n then Unknown
    else
      match Decode(crc, s[..n])
      case Some(c) => Found(c, n)
      case None => Junk
  }

  function Front(crc: Checksum, s: seq<byte>): (r: Verdict)
    ensures r.Found? ==> 36 <= r.n <= |s|
  {
    if |s| < 4 then Unknown
    else if s[..4] == FIXED_MAGIC then Judge(crc, s, CELL_SIZE)
    else if s[..4] != COMPACT_MAGIC then Junk
    else if |s| < 32 then Unknown
    else if 36 + LengthField(s) > CELL_SIZE then Junk
    else Judge(crc, s, 36 + LengthField(s))
  }

  /** All cells of a stream, taken leftmost first, and the bytes whose fate is still open. */
  function Scan(crc: Checksum, s: seq<byte>): (r: Scanned)
    ensures |r.residue| <= |s|
    decreases |s|
  {
    match Front(crc, s)
    case Unknown => Scanned([], s)
    case Junk => if s == [] then Scanned([], []) else Scan(crc, s[1..])
    case Found(c, n) => Cons(c, Scan(crc, s[n..]))
  }

  function Cons(c: Cell, r: Scanned): Scanned {
    Scanned([c] + r.cells, r.residue)
  }

  /** A cell is found exactly where some run of bytes from the front decodes, and that run is the only one. */
  lemma FoundIffDecodes(crc: Checksum, s: seq<byte>, c: Cell, n: nat)
    ensures Front(crc, s) == Found(c, n) <==> (n <= |s| && Decode(crc, s[..n]) == Some(c))
  {
    if n <= |s| && Decode(crc, s[..n]) == Some(c) {
      var p := s[..n];
      assert p[..4] == s[..4] && p[18..20] == s[18..20];
    }
  }

  /** More bytes never change a verdict that has been reached. */
  lemma FrontStable(crc: Checksum, s: seq<byte>, x: seq<byte>)
    requires !Front(crc, s).Unknown?
    ensures Front(crc, s + x) == Front(crc, s)
  {
    assert (s + x)[..4] == s[..4];
    if |s| >= 32 {
      assert (s + x)[18..20] == s[18..20];
    }
    if |s| >= CELL_SIZE {
      assert (s + x)[..CELL_SIZE] == s[..CELL_SIZE];
    }
    if |s| >= 32 && 36 + LengthField(s) <= |s| {
      assert (s + x)[..36 + LengthField(s)] == s[..36 + LengthField(s)];
    }
  }

  /** Bytes judged junk start no cell, whatever follows. */
  lemma JunkForever(crc: Checksum, s: seq<byte>, x: seq<byte>, n: nat)
    requires Front(crc, s).Junk? && n <= |s + x|
    ensures Decode(crc, (s + x)[..n]) == None
  {
    FrontStable(crc, s, x);
    if Decode(crc, (s + x)[..n]).Some? {
      FoundIffDecodes(crc, s + x, Decode(crc, (s + x)[..n]).value, n);
    }
  }

  function Join(a: Scanned, b: Scanned): Scanned {
    Scanned(a.cells + b.cells, b.residue)
  }

  lemma PastJunk(crc: Checksum, s: seq<byte>, x: seq<byte>)
    requires Front(crc, s).Junk?
    ensures |s| > 0 && Scan(crc, s) == Scan(crc, s[1..]) && Scan(crc, s + x) == Scan(crc, s[1..] + x)
  {
    FrontStable(crc, s, x);
    assert (s + x)[1..] == s[1..] + x;
  }

  lemma PastCell(crc: Checksum, s: seq<byte>, x: seq<byte>, c: Cell, n: nat)
    requires Front(crc, s) == Found(c, n)
    ensures 0 < n <= |s| && Scan(crc, s) == Cons(c, Scan(crc, s[n..]))
            && Scan(crc, s + x) == Cons(c, Scan(crc, s[n..] + x))
  {
    FrontStable(crc, s, x);
    assert (s + x)[n..] == s[n..] + x;
  }

  lemma JoinCons(c: Cell, a: Scanned, b: Scanned)
    ensures Join(Cons(c, a), b) == Cons(c, Join(a, b))
  {
    assert [c] + a.cells + b.cells == [c] + (a.cells + b.cells);
  }

  /** Scanning a stream in two parts, carrying the residue over, is scanning it whole. */
  lemma {:induction false} ScanSplits(crc: Checksum, s: seq<byte>, x: seq<byte>)
    ensures Scan(crc, s + x) == Join(Scan(crc, s), Scan(crc, Scan(crc, s).residue + x))
    decreases |s|
  {
    var v := Front(crc, s);
    if v.Junk? {
      PastJunk(crc, s, x);
      ScanSplits(crc, s[1..], x);
    } else if v.Found? {
      PastCell(crc, s, x, v.cell, v.n);
      ScanSplits(crc, s[v.n..], x);
      JoinCons(v.cell, Scan(crc, s[v.n..]), Scan(crc, Scan(crc, s).residue + x));
    } else {
      Stuck(crc, s, x);
    }
  }

  lemma Stuck(crc: Checksum, s: seq<byte>, x: seq<byte>)
    requires Front(crc, s).Unknown?
    ensures Scan(crc, s) == Scanned([], s) && Scan(crc, s + x) == Join(Scanned([], s), Scan(crc, s + x))
  {
  }

  /** No run of bytes that begins before position i is a cell. */
  ghost predicate NothingBefore(crc: Checksum, s: seq<byte>, i: nat) {
    forall k, j :: 0 <= k < i && k <= j <= |s| ==> Decode(crc, s[k..j]) == None
  }

  /** The bytes from i to j are the leftmost cell of the stream. */
  ghost predicate LeftmostAt(crc: Checksum, s: seq<byte>, i: nat, j: nat, c: Cell) {
    i <= j <= |s| && Decode(crc, s[i..j]) == Some(c) && NothingBefore(crc, s, i)
  }

  lemma LaterBytes(s: seq<byte>, i: nat, j: nat)
    requires |s| > 0 && i <= j <= |s| - 1
    ensures s[1..][i..j] == s[i + 1..j + 1]
    ensures s[1..][j..] == s[j + 1..]
  {
    var t := s[1..];
    assert t[i..j] == s[i + 1..j + 1];
    assert t[j..] == s[j + 1..];
  }

  lemma DropShifts(crc: Checksum, s: seq<byte>, i: nat)
    requires |s| > 0 && Front(crc, s).Junk? && NothingBefore(crc, s[1..], i)
    ensures NothingBefore(crc, s, i + 1)
  {
    forall k, j | 0 <= k < i + 1 && k <= j <= |s| ensures Decode(crc, s[k..j]) == None {
      if k == 0 {
        assert s + [] == s && s[..j] == s[0..j];
        JunkForever(crc, s, [], j);
      } else {
        LaterBytes(s, k - 1, j - 1);
      }
    }
  }

  /**
   What the scan's result means in terms of decoding alone: the first cell is the leftmost run of bytes that decodes
   and the scan goes on right behind it; without cells, what is left over is the end of the stream from the first
   place where too few bytes were there to tell.
   */
  ghost predicate TakenLeftmost(crc: Checksum, s: seq<byte>, r: Scanned) {
    if r.cells == [] then
      && |r.residue| <= |s| && r.residue == s[|s| - |r.residue|..] && NothingBefore(crc, s, |s| - |r.residue|)
      && |r.residue| < CELL_SIZE && (|r.residue| < 4 || r.residue[..4] in {FIXED_MAGIC, COMPACT_MAGIC})
    else
      exists i: nat, j: nat :: LeftmostAt(crc, s, i, j, r.cells[0])
                               && Scan(crc, s[j..]) == Scanned(r.cells[1..], r.residue)
  }

  lemma TakenHere(crc: Checksum, s: seq<byte>)
    requires Front(crc, s).Found?
    ensures TakenLeftmost(crc, s, Scan(crc, s))
  {
    var v := Front(crc, s);
    FoundIffDecodes(crc, s, v.cell, v.n);
    assert s[0..v.n] == s[..v.n];
    var r, rest := Scan(crc, s), Scan(crc, s[v.n..]);
    assert r == Cons(v.cell, rest);
    assert r.cells[1..] == rest.cells && LeftmostAt(crc, s, 0, v.n, r.cells[0]);
  }

  lemma LeftmostLater(crc: Checksum, s: seq<byte>, i: nat, j: nat, c: Cell)
    requires |s| > 0 && Front(crc, s).Junk? && LeftmostAt(crc, s[1..], i, j, c)
    ensures LeftmostAt(crc, s, i + 1, j + 1, c)
  {
    DropShifts(crc, s, i);
    LaterBytes(s, i, j);
  }

  lemma TakenLater(crc: Checksum, s: seq<byte>, r: Scanned)
    requires |s| > 0 && Front(crc, s).Junk? && TakenLeftmost(crc, s[1..], r)
    ensures TakenLeftmost(crc, s, r)
  {
    var n := |r.residue|;
    if r.cells == [] {
      DropShifts(crc, s, |s| - 1 - n);
      LaterBytes(s, |s| - 1 - n, |s| - 1 - n);
    } else {
      var i: nat, j: nat :| LeftmostAt(crc, s[1..], i, j, r.cells[0])
                            && Scan(crc, s[1..][j..]) == Scanned(r.cells[1..], r.residue);
      LeftmostLater(crc, s, i, j, r.cells[0]);
      LaterBytes(s, i, j);
    }
  }

  lemma {:induction false} ScanTakesLeftmost(crc: Checksum, s: seq<byte>)
    ensures TakenLeftmost(crc, s, Scan(crc, s))
    decreases |s|
  {
    var v := Front(crc, s);
    if v.Found? {
      TakenHere(crc, s);
    } else if v.Junk? {
      PastJunk(crc, s, []);
      ScanTakesLeftmost(crc, s[1..]);
      TakenLater(crc, s, Scan(crc, s[1..]));
    } else {
      Stuck(crc, s, []);
    }
  }

  function Flat(parts: seq<seq<byte>>): (r: seq<byte>) {
    if parts == [] then [] else parts[0] + Flat(parts[1..])
  }

  lemma {:induction false} FlatAppend(parts: seq<seq<byte>>, p: seq<byte>)
    ensures Flat(parts + [p]) == Flat(parts) + p
  {
    if parts == [] {
      assert parts + [p] == [p];
      assert Flat([p]) == p + Flat([]);
    } else {
      FlatAppend(parts[1..], p);
      assert (parts + [p])[1..] == parts[1..] + [p];
    }
  }

  /** Scanning part by part. */
  function ScanParts(crc: Checksum, held: seq<byte>, parts: seq<seq<byte>>): (r: Scanned)
    decreases |parts|
  {
    var now := Scan(crc, held);
    if parts == [] then now else Join(now, ScanParts(crc, now.residue + parts[0], parts[1..]))
  }

  /** How reads split the bytes does not matter. */
  lemma {:induction false} SplitsDoNotMatter(crc: Checksum, held: seq<byte>, parts: seq<seq<byte>>)
    ensures ScanParts(crc, held, parts) == Scan(crc, held + Flat(parts))
    decreases |parts|
  {
    if parts == [] {
      assert held + Flat(parts) == held;
    } else {
      SplitsDoNotMatter(crc, Scan(crc, held).residue + parts[0], parts[1..]);
      OnePart(crc, held, parts);
    }
  }

  lemma OnePart(crc: Checksum, held: seq<byte>, parts: seq<seq<byte>>)
    requires parts != []
    ensures Scan(crc, held + Flat(parts))
         == Join(Scan(crc, held), Scan(crc, Scan(crc, held).residue + parts[0] + Flat(parts[1..])))
  {
    ScanSplits(crc, held, Flat(parts));
    FlatFirst(Scan(crc, held).residue, parts);
  }

  lemma FlatFirst(left: seq<byte>, parts: seq<seq<byte>>)
    requires parts != []
    ensures left + Flat(parts) == left + parts[0] + Flat(parts[1..])
  {
  }

  lemma FirstPacket(crc: Checksum, packets: seq<seq<byte>>, c: Cell)
    requires packets != [] && Decode(crc, packets[0]) == Some(c)
    ensures Scan(crc, Flat(packets)) == Cons(c, Scan(crc, Flat(packets[1..])))
  {
    var p, s := packets[0], Flat(packets);
    assert s[..|p|] == p && s[|p|..] == Flat(packets[1..]);
    FoundIffDecodes(crc, s, c, |p|);
  }

  /** A stream of valid packets, fixed and compact mixed, yields exactly their cells. */
  lemma {:induction false} StreamOfPackets(crc: Checksum, packets: seq<seq<byte>>, cells: seq<Cell>)
    requires |packets| == |cells|
    requires forall i :: 0 <= i < |packets| ==> Decode(crc, packets[i]) == Some(cells[i])
    ensures Scan(crc, Flat(packets)) == Scanned(cells, [])
  {
    if packets != [] {
      StreamOfPackets(crc, packets[1..], cells[1..]);
      FirstPacket(crc, packets, cells[0]);
      assert cells == [cells[0]] + cells[1..];
    }
  }

  // ---------------------------------------------------------------- the reader

  function Marker(b: seq<byte>, i: nat): (r: seq<byte>)
    requires i + 4 <= |b|
  {
    b[i..i + 4]
  }

  predicate MagicAt(b: seq<byte>, i: nat) {
    i + 4 <= |b| && Marker(b, i) in {FIXED_MAGIC, COMPACT_MAGIC}
  }

  /** bytearray.find: the first position of a marker at or after `from`. */
  function Find(b: seq<byte>, marker: seq<byte>, from: nat := 0): (r: Option<nat>)
    requires |marker| == 4
    ensures r.Some? ==> from <= r.value && r.value + 4 <= |b| && Marker(b, r.value) == marker
    ensures forall i :: from <= i < (if r.Some? then r.value else |b| - 3) ==> Marker(b, i) != marker
    decreases |b| - from
  {
    if from + 4 > |b| then None
    else if Marker(b, from) == marker then Some(from)
    else Find(b, marker, from + 1)
  }

  /** Positions without a marker are junk to the scan. */
  lemma {:induction false} SkipTo(crc: Checksum, b: seq<byte>, index: nat)
    requires index + 3 <= |b|
    requires forall i :: 0 <= i < index ==> Marker(b, i) !in {FIXED_MAGIC, COMPACT_MAGIC}
    ensures Scan(crc, b) == Scan(crc, b[index..])
    decreases index
  {
    if index == 0 {
      assert b[0..] == b;
    } else {
      assert b[..4] == Marker(b, 0);
      forall i | 0 <= i < index - 1 ensures Marker(b[1..], i) !in {FIXED_MAGIC, COMPACT_MAGIC} {
        assert Marker(b[1..], i) == Marker(b, i + 1);
      }
      Unmarked(crc, b);
      SkipTo(crc, b[1..], index - 1);
      assert b[1..][index - 1..] == b[index..];
    }
  }

  lemma Unmarked(crc: Checksum, b: seq<byte>)
    requires |b| >= 4 && b[..4] !in {FIXED_MAGIC, COMPACT_MAGIC}
    ensures Scan(crc, b) == Scan(crc, b[1..])
  {
  }

  lemma FlatNext(before: seq<byte>, chunks: seq<seq<byte>>, used: nat)
    requires used < |chunks|
    ensures before + Flat(chunks[..used + 1]) == before + Flat(chunks[..used]) + chunks[used]
    ensures |Flat(chunks[..used + 1])| == |Flat(chunks[..used])| + |chunks[used]|
  {
    assert chunks[..used + 1] == chunks[..used] + [chunks[used]];
    FlatAppend(chunks[..used], chunks[used]);
  }

  lemma Carry(crc: Checksum, all: seq<byte>, now: seq<byte>, x: seq<byte>)
    requires Scan(crc, all) == Scanned([], now)
    ensures Scan(crc, all + x) == Scan(crc, now + x)
  {
    ScanSplits(crc, all, x);
  }

  class Reader {
    const crc: Checksum
    var buffer: seq<byte>

    constructor (crc: Checksum)
      ensures this.crc == crc && buffer == []
    {
      this.crc := crc;
      buffer := [];
    }

    /** Drop what cannot start a cell: everything before the first marker, or all but three bytes. */
    method Align()
      modifies this
      ensures Scan(crc, buffer) == Scan(crc, old(buffer)) && |buffer| <= |old(buffer)|
      ensures |buffer| <= 3 || MagicAt(buffer, 0)
    {
      var fixed, compact := Find(buffer, FIXED_MAGIC), Find(buffer, COMPACT_MAGIC);
      var index := if fixed.None? then compact
                   else if compact.Some? && compact.value < fixed.value then compact else fixed;
      if index.None? {
        if |buffer| > 3 {
          SkipTo(crc, buffer, |buffer| - 3);
          buffer := buffer[|buffer| - 3..];
        }
      } else {
        SkipTo(crc, buffer, index.value);
        buffer := buffer[index.value..];
        assert Marker(buffer, 0) == Marker(old(buffer), index.value);
      }
    }

    /**
     One turn of the loop without the read: drop what is not a cell, or return the cell at the front. `idle` says that
     more bytes are needed.
     */
    method Look() returns (cell: Option<Cell>, idle: bool)
      modifies this
      ensures cell.Some? ==> Scan(crc, old(buffer)) == Cons(cell.value, Scan(crc, buffer))
      ensures cell.None? ==> Scan(crc, old(buffer)) == Scan(crc, buffer)
      ensures idle ==> cell.None? && Scan(crc, buffer) == Scanned([], buffer)
      ensures if idle then |buffer| <= |old(buffer)| else |buffer| < |old(buffer)|
    {
      Align();
      idle := false;
      var length := CELL_SIZE;
      if |buffer| >= 32 && buffer[..4] == COMPACT_MAGIC {
        length := 36 + LengthField(buffer);
        if length > CELL_SIZE {
          buffer := buffer[1..];
          return None, false;
        }
      }
      if |buffer| >= length {
        cell := Decode(crc, buffer[..length]);
        if cell.None? {
          buffer := buffer[1..];
        } else {
          buffer := buffer[length..];
        }
        return cell, false;
      }
      return None, true;
    }

    /**
     _receive: `chunks` are what the port will deliver, nothing after that, and the deadline passes after `turns`
     turns of the loop (None). Nothing is lost or invented whether or not it passes; and when None comes back although
     there was time to look at every byte, the stream holds no further cell.
     */
    method Receive(chunks: seq<seq<byte>>, turns: nat) returns (cell: Option<Cell>, used: nat, left: nat)
      modifies this
      ensures used <= |chunks| && left <= turns
      ensures cell.Some? ==> Scan(crc, old(buffer) + Flat(chunks[..used])) == Cons(cell.value, Scan(crc, buffer))
      ensures cell.Some? ==> left < turns
      ensures cell.Some? ==> turns - left + |buffer| <= |old(buffer)| + |Flat(chunks[..used])| + used
      ensures cell.None? ==> Scan(crc, old(buffer) + Flat(chunks[..used])) == Scan(crc, buffer)
      ensures cell.None? && turns > |old(buffer)| + |Flat(chunks)| + |chunks|
              ==> used == |chunks| && Scan(crc, old(buffer) + Flat(chunks)) == Scanned([], buffer)
    {
      used := 0;
      ghost var quiet := false;
      assert old(buffer) + Flat(chunks[..0]) == buffer;
      for turn := 0 to turns
        invariant used <= |chunks|
        invariant Scan(crc, old(buffer) + Flat(chunks[..used])) == Scan(crc, buffer)
        invariant !quiet ==> turn + |buffer| <= |old(buffer)| + |Flat(chunks[..used])| + used
        invariant quiet ==> used == |chunks| && Scan(crc, buffer) == Scanned([], buffer)
      {
        var idle;
        cell, idle := Look();
        if cell.Some? {
          return cell, used, turns - turn - 1;
        }
        if idle {
          if used < |chunks| {
            FlatNext(old(buffer), chunks, used);
            Carry(crc, old(buffer) + Flat(chunks[..used]), buffer, chunks[used]);
            buffer := buffer + chunks[used];
            used := used + 1;
          } else {
            quiet := true;
          }
        }
      }
      Prefix(chunks, used);
      assert used == |chunks| ==> chunks[..used] == chunks;
      return None, used, 0;
    }

    /**
     The wait of `command`: receive until a response matches. Whatever comes back is the first match in the stream,
     however the reads split it; and with time for every byte, None means that there is none.
     */
    method Await(chunks: seq<seq<byte>>, turns: nat, wanted: Wanted) returns (answer: Option<Cell>)
      modifies this
      ensures answer.Some? || turns > |old(buffer)| + |Flat(chunks)| + |chunks|
              ==> answer == Sought(crc, old(buffer) + Flat(chunks), wanted)
      ensures answer.Some? ==> Label(answer.value) == (2, wanted.opcode, wanted.sequence, wanted.session)
    {
      ghost var goal := Sought(crc, old(buffer) + Flat(chunks), wanted);
      var rest := chunks;
      var left: nat := turns;
      while true
        invariant goal == Sought(crc, buffer + Flat(rest), wanted)
        invariant turns > |old(buffer)| + |Flat(chunks)| + |chunks| ==> left > |buffer| + |Flat(rest)| + |rest|
        decreases left
      {
        ghost var held := buffer;
        var cell, used, unspent := Receive(rest, left);
        if cell.None? {
          return None;
        }
        AfterCell(crc, held, rest, used, cell.value, buffer, wanted);
        if wanted.Matches(cell.value) {
          return cell;
        }
        rest, left := rest[used..], unspent;
      }
    }
  }

  /** The response that `command` is waiting for. */
  datatype Wanted = Wanted(opcode: byte, sequence: uint32, session: uint32) {
    predicate Matches(c: Cell) {
      c.kind == 2 && c.opcode == opcode && c.sequence == sequence && c.session == session
    }
  }

  function FirstMatch(cells: seq<Cell>, wanted: Wanted): (r: Option<Cell>)
    ensures r.Some? ==> r.value in cells && wanted.Matches(r.value)
    ensures r.None? ==> forall c :: c in cells ==> !wanted.Matches(c)
  {
    if cells == [] then None
    else if wanted.Matches(cells[0]) then Some(cells[0])
    else FirstMatch(cells[1..], wanted)
  }

  /** The kind, opcode, sequence number and session of a cell. */
  function Label(c: Cell): (byte, byte, uint32, uint32) {
    (c.kind, c.opcode, c.sequence, c.session)
  }

  /** The first cell that is a response to the opcode with the sequence number and the session, if there is one. */
  lemma {:induction false} FirstAnswer(cells: seq<Cell>, wanted: Wanted) returns (i: nat)
    ensures i <= |cells|
    ensures FirstMatch(cells, wanted) == if i < |cells| then Some(cells[i]) else None
    ensures i < |cells| ==> Label(cells[i]) == (2, wanted.opcode, wanted.sequence, wanted.session)
    ensures forall k :: 0 <= k < i ==> Label(cells[k]) != (2, wanted.opcode, wanted.sequence, wanted.session)
  {
    if cells == [] || wanted.Matches(cells[0]) {
      i := 0;
    } else {
      var j := FirstAnswer(cells[1..], wanted);
      i := j + 1;
      forall k | 0 <= k < i ensures Label(cells[k]) != (2, wanted.opcode, wanted.sequence, wanted.session) {
        assert k > 0 ==> cells[k] == cells[1..][k - 1];
      }
    }
  }

  lemma MatchCons(c: Cell, r: Scanned, wanted: Wanted)
    ensures FirstMatch(Cons(c, r).cells, wanted) == if wanted.Matches(c) then Some(c) else FirstMatch(r.cells, wanted)
  {
    assert Cons(c, r).cells[1..] == r.cells;
  }

  lemma {:induction false} FlatSplits(parts: seq<seq<byte>>, k: nat)
    requires k <= |parts|
    ensures Flat(parts) == Flat(parts[..k]) + Flat(parts[k..])
    decreases k
  {
    if k == 0 {
      assert parts[0..] == parts && Flat(parts[..0]) == [];
    } else {
      FlatSplits(parts[1..], k - 1);
      assert parts[..k][1..] == parts[1..][..k - 1] && parts[1..][k - 1..] == parts[k..];
      FlatFirst([], parts);
      FlatFirst([], parts[..k]);
    }
  }

  /** A cell taken off the front of a stream is taken off the front of every longer one. */
  lemma TakeCell(crc: Checksum, a: seq<byte>, c: Cell, b: seq<byte>, x: seq<byte>)
    requires Scan(crc, a) == Cons(c, Scan(crc, b))
    ensures Scan(crc, a + x) == Cons(c, Scan(crc, b + x))
  {
    ScanSplits(crc, a, x);
    ScanSplits(crc, b, x);
    JoinCons(c, Scan(crc, b), Scan(crc, Scan(crc, b).residue + x));
  }

  ghost function Sought(crc: Checksum, stream: seq<byte>, wanted: Wanted): Option<Cell> {
    FirstMatch(Scan(crc, stream).cells, wanted)
  }

  lemma CutAt(held: seq<byte>, rest: seq<seq<byte>>, used: nat)
    requires used <= |rest|
    ensures held + Flat(rest) == held + Flat(rest[..used]) + Flat(rest[used..])
    ensures |Flat(rest)| == |Flat(rest[..used])| + |Flat(rest[used..])|
  {
    FlatSplits(rest, used);
  }

  lemma AfterCell(crc: Checksum, held: seq<byte>, rest: seq<seq<byte>>, used: nat, c: Cell, now: seq<byte>,
                  wanted: Wanted)
    requires used <= |rest| && Scan(crc, held + Flat(rest[..used])) == Cons(c, Scan(crc, now))
    ensures Sought(crc, held + Flat(rest), wanted)
         == if wanted.Matches(c) then Some(c) else Sought(crc, now + Flat(rest[used..]), wanted)
    ensures |Flat(rest)| == |Flat(rest[..used])| + |Flat(rest[used..])|
  {
    CutAt(held, rest, used);
    TakeCell(crc, held + Flat(rest[..used]), c, now, Flat(rest[used..]));
    MatchCons(c, Scan(crc, now + Flat(rest[used..])), wanted);
  }

  lemma {:induction false} Prefix(parts: seq<seq<byte>>, k: nat)
    requires k <= |parts|
    ensures |Flat(parts[..k])| <= |Flat(parts)|
    decreases k
  {
    if k > 0 {
      Prefix(parts[1..], k - 1);
      assert parts[..k][1..] == parts[1..][..k - 1];
    }
  }
}
