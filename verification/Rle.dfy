/**
 rle_encode of scripts/dlp_image.py, against the decoder that its control bytes are for: a control byte c below 128
 announces c + 1 literal bytes, any other one a run of c - 125 copies of the next byte.
 */
module Rle {
  import opened Wrappers
  import opened Words

  function Repeat(x: byte, n: nat): (r: seq<byte>)
    ensures |r| == n && forall i :: 0 <= i < n ==> r[i] == x
  {
    seq(n, _ => x)
  }

  /** The first control byte with its operand: how many bytes they take and what they stand for. */
  datatype Unit = Unit(size: nat, bytes: seq<byte>)

  function First(s: seq<byte>): (r: Option<Unit>)
    requires s != []
    ensures r.Some? ==> 2 <= r.value.size <= |s|
  {
    var c := s[0];
    if c < 128 then
      if |s| < c + 2 then None else Some(Unit(c + 2, s[1..c + 2]))
    else if |s| < 2 then None
    else Some(Unit(2, Repeat(s[1], c - 125)))
  }

  /** The bytes that an encoding stands for; None when it is cut short. */
  function Expand(s: seq<byte>): (r: Option<seq<byte>>)
    decreases |s|
  {
    if s == [] then Some([])
    else
      match First(s)
      case None => None
      case Some(t) => Prepend(t.bytes, Expand(s[t.size..]))
  }

  function Prepend(x: seq<byte>, r: Option<seq<byte>>): Option<seq<byte>> {
    if r.None? then None else Some(x + r.value)
  }

  lemma FirstStable(a: seq<byte>, b: seq<byte>)
    requires a != [] && First(a).Some?
    ensures First(a + b) == First(a)
  {
    if a[0] < 128 {
      assert (a + b)[1..a[0] + 2] == a[1..a[0] + 2];
    }
  }

  lemma ExpandFirst(a: seq<byte>, b: seq<byte>)
    requires a != [] && First(a).Some?
    ensures var t := First(a).value; Expand(a + b) == Prepend(t.bytes, Expand(a[t.size..] + b))
  {
    FirstStable(a, b);
    assert (a + b)[First(a).value.size..] == a[First(a).value.size..] + b;
  }

  /** Encodings concatenate. */
  lemma {:induction false} ExpandConcat(a: seq<byte>, b: seq<byte>)
    requires Expand(a).Some?
    ensures Expand(a + b) == Prepend(Expand(a).value, Expand(b))
    decreases |a|
  {
    if a == [] {
      assert a + b == b;
      assert Expand(b).Some? ==> [] + Expand(b).value == Expand(b).value;
    } else {
      var t := First(a).value;
      ExpandFirst(a, b);
      ExpandConcat(a[t.size..], b);
      PrependTwice(t.bytes, Expand(a[t.size..]).value, Expand(b));
    }
  }

  lemma PrependTwice(x: seq<byte>, y: seq<byte>, r: Option<seq<byte>>)
    ensures Prepend(x, Prepend(y, r)) == Prepend(x + y, r)
  {
    if r.Some? {
      assert x + (y + r.value) == x + y + r.value;
    }
  }

  lemma OneUnit(s: seq<byte>, x: seq<byte>)
    requires s != [] && First(s) == Some(Unit(|s|, x))
    ensures Expand(s) == Some(x)
  {
    assert s[|s|..] == [];
    assert x + [] == x;
  }

  lemma Literals(lit: seq<byte>)
    requires 1 <= |lit| <= 128
    ensures Expand([|lit| - 1] + lit) == Some(lit)
  {
    LiteralUnit(lit, [|lit| - 1] + lit);
  }

  lemma LiteralUnit(lit: seq<byte>, s: seq<byte>)
    requires 1 <= |lit| <= 128 && |s| == |lit| + 1 && s[0] == |lit| - 1 && s[1..] == lit
    ensures Expand(s) == Some(lit)
  {
    assert s[1..s[0] + 2] == s[1..];
    OneUnit(s, lit);
  }

  lemma Run(x: byte, n: nat)
    requires 3 <= n <= 130
    ensures Expand([128 + n - 3, x]) == Some(Repeat(x, n))
  {
    OneUnit([128 + n - 3, x], Repeat(x, n));
  }

  // ---------------------------------------------------------------- the encoder, token by token

  /** The length of the run at `at`, counted on from `run`: at most 130. */
  function RunAt(data: seq<byte>, at: nat, run: nat): (r: nat)
    requires 1 <= run <= 130 && at + run <= |data|
    ensures run <= r <= 130 && at + r <= |data|
    decreases 130 - run
  {
    if at + run < |data| && run < 130 && data[at + run] == data[at] then RunAt(data, at, run + 1) else run
  }

  /** It is a run, and as long as it can be. */
  lemma {:induction false} RunIsLongest(data: seq<byte>, at: nat, run: nat)
    requires 1 <= run <= 130 && at + run <= |data| && data[at..at + run] == Repeat(data[at], run)
    ensures var r := RunAt(data, at, run);
            && data[at..at + r] == Repeat(data[at], r)
            && (r == 130 || at + r == |data| || data[at + r] != data[at])
    decreases 130 - run
  {
    if at + run < |data| && run < 130 && data[at + run] == data[at] {
      assert data[at..at + run + 1] == data[at..at + run] + [data[at + run]];
      assert Repeat(data[at], run + 1) == Repeat(data[at], run) + [data[at]];
      RunIsLongest(data, at, run + 1);
    }
  }

  predicate RunOfThree(data: seq<byte>, at: nat) {
    at + 2 < |data| && data[at] == data[at + 1] == data[at + 2]
  }

  /** The end of a literal stretch: the data, 128 bytes, the room left, or a run of three stops it. */
  function StopAt(data: seq<byte>, start: nat, at: nat, room: nat): (r: nat)
    requires start <= at < |data| && at - start < 128 && at - start < room
    ensures at < r <= |data| && r - start <= 128 && r - start <= room
    decreases |data| - at
  {
    var next := at + 1;
    if next == |data| || next - start == 128 || next - start == room || RunOfThree(data, next) then next
    else StopAt(data, start, next, room)
  }

  /** Some bytes of output, and where in the data they end. */
  datatype Piece = Piece(bytes: seq<byte>, next: nat)

  /** The token at `at` when `room` bytes are left behind its control byte. */
  function TokenAt(data: seq<byte>, at: nat, room: nat): (r: Piece)
    requires at < |data| && room >= 1
    ensures at < r.next <= |data| && 2 <= |r.bytes| <= room + 1
  {
    var run := RunAt(data, at, 1);
    if run >= 3 then Piece([128 + run - 3, data[at]], at + run)
    else
      var stop := StopAt(data, at, at, room);
      Piece([stop - at - 1] + data[at..stop], stop)
  }

  /** What a token must be: the longest run when three bytes are equal, otherwise literals up to the first stop. */
  ghost predicate RightToken(data: seq<byte>, at: nat, room: nat, t: Piece) {
    && at < t.next <= |data|
    && var n := t.next - at;
       if at + 2 < |data| && data[at] == data[at + 1] == data[at + 2] then
         && 3 <= n <= 130 && t.bytes == [125 + n, data[at]]
         && (forall k :: at <= k < t.next ==> data[k] == data[at])
         && (n == 130 || t.next == |data| || data[t.next] != data[at])
       else
         && 1 <= n <= 128 && n <= room && t.bytes == [n - 1] + data[at..t.next]
         && (n == 128 || n == room || t.next == |data|
             || (t.next + 2 < |data| && data[t.next] == data[t.next + 1] == data[t.next + 2]))
         && forall k :: at < k < t.next && k + 2 < |data| ==> !(data[k] == data[k + 1] && data[k] == data[k + 2])
  }

  lemma {:induction false} StopIsFirst(data: seq<byte>, start: nat, at: nat, room: nat)
    requires start <= at < |data| && at - start < 128 && at - start < room
    ensures var r := StopAt(data, start, at, room);
            && (r - start == 128 || r - start == room || r == |data|
                || (r + 2 < |data| && data[r] == data[r + 1] == data[r + 2]))
            && forall k :: at < k < r && k + 2 < |data| ==> !(data[k] == data[k + 1] && data[k] == data[k + 2])
    decreases |data| - at
  {
    var next := at + 1;
    if !(next == |data| || next - start == 128 || next - start == room || RunOfThree(data, next)) {
      StopIsFirst(data, start, next, room);
    }
  }

  /** Every token is the right one. */
  lemma TokenIsRight(data: seq<byte>, at: nat, room: nat)
    requires at < |data| && room >= 1
    ensures RightToken(data, at, room, TokenAt(data, at, room))
  {
    var run := RunAt(data, at, 1);
    assert data[at..at + 1] == Repeat(data[at], 1);
    RunIsLongest(data, at, 1);
    var r := data[at..at + run];
    assert r == Repeat(data[at], run);
    forall k | at <= k < at + run ensures data[k] == data[at] {
      assert r[k - at] == data[k];
    }
    if run < 3 {
      StopIsFirst(data, at, at, room);
    }
  }

  /** A right token does not end early, so there is one right token only. */
  lemma NotSooner(data: seq<byte>, at: nat, room: nat, t: Piece, u: Piece)
    requires RightToken(data, at, room, t) && RightToken(data, at, room, u)
    ensures t.next >= u.next
  {
  }

  lemma OneRightToken(data: seq<byte>, at: nat, room: nat, t: Piece, u: Piece)
    requires RightToken(data, at, room, t) && RightToken(data, at, room, u)
    ensures t == u
  {
    NotSooner(data, at, room, t, u);
    NotSooner(data, at, room, u, t);
  }

  lemma TokenExpands(data: seq<byte>, at: nat, room: nat)
    requires at < |data| && room >= 1
    ensures Expand(TokenAt(data, at, room).bytes) == Some(data[at..TokenAt(data, at, room).next])
  {
    var run := RunAt(data, at, 1);
    if run >= 3 {
      assert data[at..at + 1] == Repeat(data[at], 1);
      RunIsLongest(data, at, 1);
      Run(data[at], run);
    } else {
      Literals(data[at..StopAt(data, at, at, room)]);
    }
  }

  lemma ExpandTwo(data: seq<byte>, at: nat, token: Piece, rest: Piece)
    requires at <= token.next <= rest.next <= |data|
    requires Expand(token.bytes) == Some(data[at..token.next])
            && Expand(rest.bytes) == Some(data[token.next..rest.next])
    ensures Expand(token.bytes + rest.bytes) == Some(data[at..rest.next])
  {
    ExpandConcat(token.bytes, rest.bytes);
    Adjacent(data, at, token.next, rest.next);
  }

  lemma Adjacent(data: seq<byte>, a: nat, b: nat, c: nat)
    requires a <= b <= c <= |data|
    ensures data[a..b] + data[b..c] == data[a..c]
  {
  }

  /** The encoding of the data from `at` on, as far as the capacity reaches. */
  function Encoded(data: seq<byte>, at: nat, capacity: nat): (r: Piece)
    requires at <= |data|
    ensures at <= r.next <= |data| && |r.bytes| <= capacity
    decreases |data| - at
  {
    if at == |data| || capacity < 2 then Piece([], at)
    else
      var token := TokenAt(data, at, capacity - 1);
      var rest := Encoded(data, token.next, capacity - |token.bytes|);
      Piece(token.bytes + rest.bytes, rest.next)
  }

  lemma EncodedStep(data: seq<byte>, at: nat, capacity: nat, token: Piece, rest: Piece)
    requires at < |data| && capacity >= 2 && token == TokenAt(data, at, capacity - 1)
    requires rest == Encoded(data, token.next, capacity - |token.bytes|)
    ensures Encoded(data, at, capacity) == Piece(token.bytes + rest.bytes, rest.next)
  {
  }

  /** The output expands to exactly the bytes that are consumed. */
  lemma {:induction false} EncodedExpands(data: seq<byte>, at: nat, capacity: nat) returns (e: Piece)
    requires at <= |data|
    ensures e == Encoded(data, at, capacity)
    ensures at <= e.next <= |data| && Expand(e.bytes) == Some(data[at..e.next])
    decreases |data| - at
  {
    if at == |data| || capacity < 2 {
      e := Piece([], at);
      assert data[at..at] == [];
    } else {
      var token := TokenAt(data, at, capacity - 1);
      TokenExpands(data, at, capacity - 1);
      var rest := EncodedExpands(data, token.next, capacity - |token.bytes|);
      ExpandTwo(data, at, token, rest);
      EncodedStep(data, at, capacity, token, rest);
      e := Piece(token.bytes + rest.bytes, rest.next);
    }
  }

  /**
   All bytes are consumed unless fewer than two bytes of room are left, and always some if there is any room at all.
   */
  lemma {:induction false} EncodedReaches(data: seq<byte>, at: nat, capacity: nat)
    requires at <= |data|
    ensures var e := Encoded(data, at, capacity);
            && (e.next == |data| || |e.bytes| + 2 > capacity)
            && (e.next > at <==> (at < |data| && capacity >= 2))
    decreases |data| - at
  {
    if at < |data| && capacity >= 2 {
      var token := TokenAt(data, at, capacity - 1);
      EncodedReaches(data, token.next, capacity - |token.bytes|);
    }
  }

  /** The whole encoding is what has been written followed by the encoding of the rest. */
  predicate Continues(all: Piece, data: seq<byte>, capacity: nat, output: seq<byte>, at: nat) {
    && at <= |data| && |output| <= capacity
    && var rest := Encoded(data, at, capacity - |output|); all == Piece(output + rest.bytes, rest.next)
  }

  lemma Begins(data: seq<byte>, capacity: nat)
    ensures Continues(Encoded(data, 0, capacity), data, capacity, [], 0)
  {
    var all := Encoded(data, 0, capacity);
    assert [] + all.bytes == all.bytes;
  }

  lemma Goes(all: Piece, data: seq<byte>, capacity: nat, output: seq<byte>, at: nat)
    requires Continues(all, data, capacity, output, at) && at < |data| && |output| + 2 <= capacity
    ensures var token := TokenAt(data, at, capacity - |output| - 1);
            Continues(all, data, capacity, output + token.bytes, token.next)
  {
    var left := capacity - |output|;
    var token := TokenAt(data, at, left - 1);
    var rest := Encoded(data, token.next, left - |token.bytes|);
    EncodedStep(data, at, left, token, rest);
    Rejoin(output, token.bytes, rest.bytes);
  }

  lemma Ends(all: Piece, data: seq<byte>, capacity: nat, output: seq<byte>, at: nat)
    requires Continues(all, data, capacity, output, at) && (at == |data| || |output| + 2 > capacity)
    ensures all == Piece(output, at)
  {
    assert output + [] == output;
  }

  lemma Rejoin(x: seq<byte>, y: seq<byte>, z: seq<byte>)
    ensures x + (y + z) == x + y + z
  {
  }

  // ---------------------------------------------------------------- the loops

  method RunLength(data: seq<byte>, at: nat) returns (run: nat)
    requires at < |data|
    ensures run == RunAt(data, at, 1)
  {
    run := 1;
    while at + run < |data| && run < 130 && data[at + run] == data[at]
      invariant 1 <= run <= 130 && at + run <= |data|
      invariant RunAt(data, at, run) == RunAt(data, at, 1)
    {
      run := run + 1;
    }
  }

  method LiteralEnd(data: seq<byte>, start: nat, room: nat) returns (at: nat)
    requires start < |data| && room >= 1
    ensures at == StopAt(data, start, start, room)
  {
    at := start;
    while true
      invariant start <= at < |data| && at - start < 128 && at - start < room
      invariant StopAt(data, start, at, room) == StopAt(data, start, start, room)
      decreases |data| - at
    {
      at := at + 1;
      if at == |data| || at - start == 128 || at - start == room {
        break;
      }
      if RunOfThree(data, at) {
        break;
      }
    }
  }

  /** One token. */
  method Token(data: seq<byte>, at: nat, room: nat) returns (token: seq<byte>, next: nat)
    requires at < |data| && room >= 1
    ensures Piece(token, next) == TokenAt(data, at, room)
  {
    var run := RunLength(data, at);
    if run >= 3 {
      return [128 + run - 3, data[at]], at + run;
    }
    next := LiteralEnd(data, at, room);
    token := [next - at - 1] + data[at..next];
  }

  /** rle_encode: the tokens one after the other, which expand to exactly the bytes it says it consumed. */
  method RleEncode(data: seq<byte>, capacity: nat := 206) returns (output: seq<byte>, at: nat)
    ensures Piece(output, at) == Encoded(data, 0, capacity)
    ensures at <= |data| && |output| <= capacity && Expand(output) == Some(data[..at])
    ensures at == |data| || |output| + 2 > capacity
    ensures at > 0 <==> (data != [] && capacity >= 2)
  {
    ghost var all := Encoded(data, 0, capacity);
    output, at := [], 0;
    Begins(data, capacity);
    while at < |data| && |output| + 2 <= capacity
      invariant Continues(all, data, capacity, output, at)
      decreases |data| - at
    {
      Goes(all, data, capacity, output, at);
      var token, next := Token(data, at, capacity - |output| - 1);
      output, at := output + token, next;
    }
    Ends(all, data, capacity, output, at);
    EncodedReaches(data, 0, capacity);
    ghost var e := EncodedExpands(data, 0, capacity);
    assert data[0..at] == data[..at];
  }
}
