/**
 Frame thinning in solar_os_stb_decode_gif of components/stb_image/stb_image_port.c: under a pixel budget only every
 step-th frame is kept, and it is shown for as long as the frames it stands for.
 */
module GifThinning {
  import opened Wrappers
  import opened Arith
  import opened Scaling

  const DEFAULT_DELAY := 100
  const MIN_DELAY := 20
  const UINT32_MAX := 0xFFFF_FFFF

  datatype Error = InvalidSize | Failed | NotFound

  // ---------------------------------------------------------------- the plan

  /** solar_os_stbi_div_ceil_u32. */
  function DivCeil(value: nat, divisor: nat): nat {
    if divisor == 0 then 0 else (value + divisor - 1) / divisor
  }

  lemma DivCeilReached(value: nat, divisor: nat, n: nat)
    requires divisor > 0
    ensures DivCeil(value, divisor) <= n <==> value <= n * divisor
  {
    FloorReaches(value + divisor - 1, divisor, n + 1);
    MulAdd(n, 1, divisor);
  }

  datatype Plan = Plan(step: nat, capacity: nat)

  /** At most so many frames fit a budget of pixels (0 for none), and no more are kept than there are. */
  function Most(scanned: nat, pixels: nat, budget: nat): nat
    requires pixels > 0
  {
    if budget == 0 || budget / pixels > scanned then scanned else budget / pixels
  }

  /** The step and the number of kept frames for `scanned` frames of `pixels` pixels. */
  function RawPlan(scanned: nat, pixels: nat, budget: nat): Plan
    requires pixels > 0
  {
    var step := DivCeil(scanned, Most(scanned, pixels, budget));
    Plan(step, DivCeil(scanned, step))
  }

  /** The plan behind the checks; `limit` is the largest number of pixels that can be addressed. */
  function MakePlan(scanned: nat, pixels: nat, budget: nat, limit: nat): (r: Result<Plan, Error>) {
    if pixels == 0 || pixels > limit || (budget != 0 && pixels > budget) then Err(InvalidSize)
    else
      var p := RawPlan(scanned, pixels, budget);
      if p.step == 0 || p.capacity == 0 || p.capacity * pixels > limit || (budget != 0 && p.capacity * pixels > budget)
      then Err(InvalidSize)
      else Ok(p)
  }

  /** Enough for every frame. */
  lemma StepCovers(scanned: nat, most: nat)
    requires scanned > 0 && most > 0
    ensures var step := DivCeil(scanned, most);
            step > 0 && DivCeil(scanned, step) <= most && scanned <= DivCeil(scanned, step) * step
  {
    var step := DivCeil(scanned, most);
    DivCeilReached(scanned, most, step);
    assert scanned <= most * step;
    DivCeilReached(scanned, step, most);
    DivCeilReached(scanned, step, DivCeil(scanned, step));
  }

  /** A budget that has room for a frame is kept. */
  lemma PlanInBudget(scanned: nat, pixels: nat, budget: nat)
    requires scanned > 0 && pixels > 0 && (budget == 0 || pixels <= budget)
    ensures var p := RawPlan(scanned, pixels, budget);
            p.step > 0 && p.capacity > 0 && scanned <= p.capacity * p.step
                && (budget != 0 ==> p.capacity * pixels <= budget)
  {
    var most := Most(scanned, pixels, budget);
    if budget != 0 {
      FloorReaches(budget, pixels, 1);
      FloorReaches(budget, pixels, most);
    }
    StepCovers(scanned, most);
    var p := RawPlan(scanned, pixels, budget);
    MulLe(p.capacity, most, pixels);
    DivCeilReached(scanned, p.step, 0);
  }

  /** Accepted exactly with a frame, room for one in the budget, and a plan that can be addressed. */
  lemma PlanAccepted(scanned: nat, pixels: nat, budget: nat, limit: nat)
    ensures MakePlan(scanned, pixels, budget, limit).Ok?
       <==> && scanned > 0 && pixels > 0 && (budget == 0 || pixels <= budget)
            && RawPlan(scanned, pixels, budget).capacity * pixels <= limit
  {
    if scanned > 0 && pixels > 0 && (budget == 0 || pixels <= budget) {
      PlanInBudget(scanned, pixels, budget);
      MulLe(1, RawPlan(scanned, pixels, budget).capacity, pixels);
    }
  }

  /** A budget that can be addressed itself never leads to a refusal. */
  lemma BudgetAccepted(scanned: nat, pixels: nat, budget: nat, limit: nat)
    requires scanned > 0 && 0 < pixels <= budget <= limit
    ensures MakePlan(scanned, pixels, budget, limit).Ok?
  {
    PlanInBudget(scanned, pixels, budget);
    PlanAccepted(scanned, pixels, budget, limit);
  }

  lemma PlanCovers(scanned: nat, pixels: nat, budget: nat)
    requires scanned > 0 && pixels > 0 && (budget == 0 || pixels <= budget)
    ensures var p := RawPlan(scanned, pixels, budget); 1 <= p.capacity <= scanned && (budget == 0 ==> p.step == 1)
  {
    PlanInBudget(scanned, pixels, budget);
    var p := RawPlan(scanned, pixels, budget);
    MulLe(1, p.step, scanned);
    DivCeilReached(scanned, p.step, scanned);
    if budget == 0 {
      DivCeilReached(scanned, scanned, 1);
    }
  }

  /** A smaller step would break the budget. */
  lemma NoSmallerStep(scanned: nat, pixels: nat, budget: nat, smaller: nat)
    requires scanned > 0 && 0 < pixels <= budget && 0 < smaller < RawPlan(scanned, pixels, budget).step
    ensures DivCeil(scanned, smaller) * pixels > budget
  {
    var most, n := Most(scanned, pixels, budget), DivCeil(scanned, smaller);
    FloorReaches(budget, pixels, 1);
    DivCeilReached(scanned, most, smaller);
    MulLe(1, smaller, most);
    DivCeilReached(scanned, smaller, most);
    MulLe(1, smaller, scanned);
    FloorReaches(budget, pixels, n);
  }

  /** Kept frames stay in the budget, stand for all frames, and a smaller step would break the budget. */
  lemma PlanIsBest(scanned: nat, pixels: nat, budget: nat, limit: nat, smaller: nat)
    requires scanned > 0 && MakePlan(scanned, pixels, budget, limit).Ok?
    ensures var p := MakePlan(scanned, pixels, budget, limit).value;
            && 1 <= p.capacity <= scanned && scanned <= p.capacity * p.step
            && (budget == 0 ==> p.step == 1)
            && (budget != 0 ==> p.capacity * pixels <= budget)
            && (budget != 0 && 0 < smaller < p.step ==> DivCeil(scanned, smaller) * pixels > budget)
  {
    PlanAccepted(scanned, pixels, budget, limit);
    PlanInBudget(scanned, pixels, budget);
    PlanCovers(scanned, pixels, budget);
    if budget != 0 && 0 < smaller < RawPlan(scanned, pixels, budget).step {
      NoSmallerStep(scanned, pixels, budget, smaller);
    }
  }

  // ---------------------------------------------------------------- delays

  /** solar_os_stbi_normalize_gif_delay. */
  function Normalize(delay: int): (r: nat)
    ensures delay <= 0 ==> r == 100
    ensures 0 < delay < 20 ==> r == 20
    ensures delay >= 20 ==> r == delay
  {
    if delay <= 0 then DEFAULT_DELAY else if delay < MIN_DELAY then MIN_DELAY else delay
  }

  /** solar_os_stbi_add_delay. */
  function AddDelay(current: nat, add: nat): (r: nat)
    requires current <= UINT32_MAX
    ensures r <= UINT32_MAX && r == if current + add <= UINT32_MAX then current + add else UINT32_MAX
  {
    if UINT32_MAX - current < add then UINT32_MAX else current + add
  }

  /** The play time of some frames. */
  function PlayTime(delays: seq<int>): nat {
    if delays == [] then 0 else PlayTime(delays[..|delays| - 1]) + Normalize(delays[|delays| - 1])
  }

  function Clamp(n: nat): nat { if n <= UINT32_MAX then n else UINT32_MAX }

  lemma PlayOneMore(delays: seq<int>, d: int)
    ensures PlayTime(delays + [d]) == PlayTime(delays) + Normalize(d)
  {
    assert (delays + [d])[..|delays|] == delays;
  }

  lemma {:induction false} PlayConcat(a: seq<int>, b: seq<int>)
    ensures PlayTime(a + b) == PlayTime(a) + PlayTime(b)
    ensures |a| == 1 ==> PlayTime(a) == Normalize(a[0])
    decreases |b|
  {
    if |a| == 1 {
      assert a == [] + [a[0]];
      PlayOneMore([], a[0]);
    }
    if b == [] {
      assert a + b == a;
    } else {
      var before := b[..|b| - 1];
      PlayConcat(a, before);
      PlayOneMore(a + before, b[|b| - 1]);
      assert a + b == (a + before) + [b[|b| - 1]];
    }
  }

  lemma {:induction false} PlayPositive(delays: seq<int>)
    requires delays != []
    ensures PlayTime(delays) >= MIN_DELAY
    decreases |delays|
  {
    if |delays| > 1 {
      PlayPositive(delays[..|delays| - 1]);
    }
  }

  // ---------------------------------------------------------------- the loop

  /** What the decoder returns next: a frame, or a failure. The stream ends behind the last event. */
  datatype Event = Frame(delay: int, rightSize: bool) | Broken

  predicate Good(events: seq<Event>) {
    forall i :: 0 <= i < |events| ==> events[i].Frame? && events[i].rightSize
  }

  function Delays(events: seq<Event>): (r: seq<int>)
    requires Good(events)
    ensures |r| == |events| && forall i :: 0 <= i < |r| ==> r[i] == events[i].delay
  {
    seq(|events|, i requires 0 <= i < |events| => events[i].delay)
  }

  function Slice(delays: seq<int>, from: nat, to: nat): (r: seq<int>)
    requires from <= to
  {
    delays[Least(from, |delays|)..Least(to, |delays|)]
  }

  lemma SliceGrows(delays: seq<int>, d: int, from: nat, to: nat)
    requires from <= to
    ensures to <= |delays| ==> Slice(delays + [d], from, to) == Slice(delays, from, to)
    ensures from <= |delays| < to ==> Slice(delays + [d], from, to) == Slice(delays, from, to) + [d]
  {
  }

  /** The delays of the frames that kept frame j stands for, as far as they are known. */
  function Group(delays: seq<int>, step: nat, j: nat): (r: seq<int>) {
    MulLe(j, j + 1, step);
    Slice(delays, j * step, (j + 1) * step)
  }

  /** Slot j holds frame j * step for the time of its group. */
  predicate Kept(frames: seq<nat>, times: seq<nat>, delays: seq<int>, step: nat, j: nat)
    requires j < |frames| && j < |times|
  {
    frames[j] == j * step && times[j] == Clamp(PlayTime(Group(delays, step, j)))
  }

  /** How things stand after the frames in `delays`: all groups but the last are closed, and the last one is pending. */
  ghost predicate Thinned(delays: seq<int>, p: Plan, frames: seq<nat>, times: seq<nat>, stored: nat, pending: nat)
    requires |frames| == |times| == p.capacity
  {
    && stored <= p.capacity && p.step > 0
    && (if |delays| == 0 then stored == 0 && pending == 0
        else stored > 0 && (stored - 1) * p.step < |delays| <= stored * p.step)
    && (forall j :: 0 <= j < stored ==> frames[j] == j * p.step)
    && (forall j :: 0 <= j < stored - 1 ==> times[j] == Clamp(PlayTime(Group(delays, p.step, j))))
    && (stored > 0 ==> pending == Clamp(PlayTime(Group(delays, p.step, stored - 1))) && pending > 0)
  }

  /** The frame that is decoded next joins the pending group unless that one is full. */
  lemma NextGroup(delays: seq<int>, d: int, step: nat, stored: nat, j: nat)
    requires step > 0 && j < stored && (stored - 1) * step < |delays| <= stored * step
    ensures j < stored - 1 || |delays| == stored * step ==> Group(delays + [d], step, j) == Group(delays, step, j)
    ensures j == stored - 1 && |delays| < stored * step ==> Group(delays + [d], step, j) == Group(delays, step, j) + [d]
  {
    MulLe(j, j + 1, step);
    MulLe(j + 1, stored, step);
    if j < stored - 1 {
      MulLe(j + 1, stored - 1, step);
    }
    SliceGrows(delays, d, j * step, (j + 1) * step);
  }

  lemma FullGroup(n: nat, step: nat, stored: nat)
    requires step > 0 && stored > 0 && (stored - 1) * step < n <= stored * step
    ensures n % step == 0 <==> n == stored * step
  {
    MulAdd(stored - 1, 1, step);
    if n == stored * step {
      Quotient(stored, 0, step);
    } else {
      Quotient(stored - 1, n - (stored - 1) * step, step);
    }
  }

  /** A group that starts with the next frame. */
  lemma FreshGroup(delays: seq<int>, d: int, step: nat, stored: nat)
    requires step > 0 && |delays| == stored * step
    ensures Group(delays + [d], step, stored) == [d]
  {
    MulAdd(stored, 1, step);
    MulLe(stored, stored + 1, step);
    SliceGrows(delays, d, stored * step, (stored + 1) * step);
    assert Slice(delays, stored * step, (stored + 1) * step) == [];
  }

  lemma ClampAdds(total: nat, add: nat)
    ensures AddDelay(Clamp(total), add) == Clamp(total + add)
  {
  }

  /** A frame that only adds to the pending time. */
  lemma Joins(delays: seq<int>, d: int, p: Plan, frames: seq<nat>, times: seq<nat>, stored: nat, pending: nat)
    requires |frames| == |times| == p.capacity && pending <= UINT32_MAX
    requires Thinned(delays, p, frames, times, stored, pending) && |delays| % p.step != 0
    ensures Thinned(delays + [d], p, frames, times, stored, AddDelay(pending, Normalize(d)))
  {
    Quotient(0, 0, p.step);
    FullGroup(|delays|, p.step, stored);
    forall j | 0 <= j < stored - 1 ensures times[j] == Clamp(PlayTime(Group(delays + [d], p.step, j))) {
      NextGroup(delays, d, p.step, stored, j);
    }
    NextGroup(delays, d, p.step, stored, stored - 1);
    PlayOneMore(Group(delays, p.step, stored - 1), d);
    ClampAdds(PlayTime(Group(delays, p.step, stored - 1)), Normalize(d));
  }

  /** A frame that is kept: the pending time goes to the slot before. */
  lemma Starts(delays: seq<int>, d: int, p: Plan, frames: seq<nat>, times: seq<nat>, stored: nat, pending: nat,
               frames': seq<nat>, times': seq<nat>)
    requires |frames| == |times| == |frames'| == |times'| == p.capacity && stored < p.capacity
    requires Thinned(delays, p, frames, times, stored, pending) && |delays| % p.step == 0
    requires frames' == frames[stored := |delays|]
            && times' == (if stored > 0 then times[stored - 1 := pending] else times)
    ensures Thinned(delays + [d], p, frames', times', stored + 1, AddDelay(0, Normalize(d)))
  {
    if stored > 0 {
      FullGroup(|delays|, p.step, stored);
    }
    assert |delays| == stored * p.step;
    MulAdd(stored, 1, p.step);
    FreshGroup(delays, d, p.step, stored);
    assert PlayTime([d]) == Normalize(d) by {
      PlayOneMore([], d);
      assert [] + [d] == [d];
    }
    forall j | 0 <= j < stored ensures times'[j] == Clamp(PlayTime(Group(delays + [d], p.step, j))) {
      NextGroup(delays, d, p.step, stored, j);
    }
  }

  /** The time that goes to a slot: the default in place of none. */
  function Filled(pending: nat): nat {
    if pending != 0 then pending else DEFAULT_DELAY
  }

  /** What the loop leaves behind. */
  datatype Loop = Loop(stored: nat, pending: nat, decoded: nat, error: Option<Error>)

  /** One good frame. */
  method TakeFrame(p: Plan, delay: int, frames: array<nat>, times: array<nat>, ghost delays: seq<int>, l: Loop)
      returns (r: Loop)
    requires frames != times && frames.Length == times.Length == p.capacity && l.decoded == |delays|
            && l.pending <= UINT32_MAX
    requires p.capacity > 0
    requires Thinned(delays, p, frames[..], times[..], l.stored, l.pending) && l.error == None
    modifies frames, times
    ensures r.error.Some? <==> |delays| == p.capacity * p.step
    ensures r.error.Some? ==> r.error == Some(InvalidSize)
    ensures r.error.None? ==> Thinned(delays + [delay], p, frames[..], times[..], r.stored, r.pending)
                              && r.decoded == |delays| + 1 && r.pending <= UINT32_MAX
  {
    var stored, pending := l.stored, l.pending;
    CapacityLeft(p, |delays|, stored);
    if l.decoded % p.step == 0 {
      ghost var f0, t0 := frames[..], times[..];
      if stored > 0 {
        times[stored - 1] := Filled(pending);
        pending := 0;
      }
      if stored >= p.capacity {
        return Loop(stored, pending, l.decoded, Some(InvalidSize));
      }
      frames[stored] := l.decoded;
      Starts(delays, delay, p, f0, t0, stored, l.pending, frames[..], times[..]);
      stored := stored + 1;
    } else {
      Joins(delays, delay, p, frames[..], times[..], stored, pending);
    }
    pending := AddDelay(pending, Normalize(delay));
    return Loop(stored, pending, l.decoded + 1, None);
  }

  /** A new group is wanted and there is no slot exactly when all slots stand for full groups. */
  lemma CapacityLeft(p: Plan, n: nat, stored: nat)
    requires p.step > 0 && stored <= p.capacity && p.capacity > 0
    requires if n == 0 then stored == 0 else stored > 0 && (stored - 1) * p.step < n <= stored * p.step
    ensures n == p.capacity * p.step <==> (n % p.step == 0 && stored == p.capacity)
    ensures n % p.step == 0 ==> n == stored * p.step
  {
    if n == 0 {
      MulStrict(0, p.capacity, p.step);
      Quotient(0, 0, p.step);
    } else {
      FullGroup(n, p.step, stored);
      if stored < p.capacity {
        MulStrict(stored, p.capacity, p.step);
      }
    }
  }

  /** The decoder fails behind good frames. */
  predicate BreaksAt(events: seq<Event>, i: nat) {
    i < |events| && events[i].Broken? && Good(events[..i])
  }

  /** Good frames are followed by one of the wrong size, or by one more than there is room for. */
  predicate OverAt(events: seq<Event>, i: nat, room: nat) {
    i < |events| && Good(events[..i]) && events[i].Frame? && (events[i].rightSize ==> i == room)
  }

  /** Why the loop stops at event i. */
  predicate StopsAt(events: seq<Event>, i: nat, room: nat, error: Error) {
    i <= room && if error == Failed then BreaksAt(events, i) else error == InvalidSize && OverAt(events, i, room)
  }

  lemma StopMeans(events: seq<Event>, i: nat, room: nat, error: Error)
    requires StopsAt(events, i, room, error)
    ensures error in {Failed, InvalidSize} && events != [] && !(Good(events) && |events| <= room)
    ensures error == Failed <==> exists k: nat :: BreaksAt(events, k) && k <= room
  {
    if error != Failed {
      forall j | 0 <= j < i ensures events[j].Frame? {
        assert events[..i][j] == events[j];
      }
      forall k: nat | BreaksAt(events, k) ensures k > room {
        assert k > i && events[..k][i] == events[i];
      }
    }
  }

  /**
   The decoding loop. It succeeds exactly when there are frames, all of them good and no more than the plan has room
   for; then slot j holds frame j * step, shown for the normalised delays of the frames it stands for, and no default
   is ever filled in.
   */
  method Thin(events: seq<Event>, p: Plan) returns (r: Result<nat, Error>, frames: array<nat>, times: array<nat>)
    requires p.step > 0 && p.capacity > 0
    ensures frames.Length == times.Length == p.capacity
    ensures r.Ok? <==> events != [] && Good(events) && |events| <= p.capacity * p.step
    ensures r.Ok? ==> r.value <= p.capacity && r.value == DivCeil(|events|, p.step)
    ensures r.Ok? ==> forall j :: 0 <= j < r.value ==> Kept(frames[..], times[..], Delays(events), p.step, j)
    ensures r == Err(NotFound) <==> events == []
    ensures r == Err(Failed) <==> exists i: nat :: BreaksAt(events, i) && i <= p.capacity * p.step
    ensures r.Err? ==> r.error in {NotFound, Failed, InvalidSize}
  {
    frames, times := new nat[p.capacity](_ => 0), new nat[p.capacity](_ => 0);
    var l := Loop(0, 0, 0, None);
    ghost var delays: seq<int> := [];
    var i := 0;
    ghost var last := 0;
    while i < |events| && l.error.None?
      invariant i <= |events| && l.error.None? ==> Good(events[..i]) && delays == Delays(events[..i]) && l.decoded == i
      invariant l.error.None? ==>
              Thinned(delays, p, frames[..], times[..], l.stored, l.pending) && l.pending <= UINT32_MAX
      invariant l.error.None? ==> i <= p.capacity * p.step
      invariant l.error.Some? ==> StopsAt(events, last, p.capacity * p.step, l.error.value)
      invariant i <= |events|
      decreases |events| - i, if l.error.None? then 1 else 0
    {
      assert events[..i + 1] == events[..i] + [events[i]];
      last := i;
      if events[i].Broken? {
        l := l.(error := Some(Failed));
      } else if !events[i].rightSize {
        l := l.(error := Some(InvalidSize));
      } else {
        l := TakeFrame(p, events[i].delay, frames, times, delays, l);
        delays := delays + [events[i].delay];
        i := i + 1;
      }
    }
    if l.error.Some? {
      StopMeans(events, last, p.capacity * p.step, l.error.value);
    }
    if l.error.Some? || l.decoded == 0 || l.stored == 0 {
      return Err(if l.error.Some? then l.error.value else NotFound), frames, times;
    }
    assert events[..i] == events;
    CapacityLeft(p, |events|, l.stored);
    MulLe(l.stored, p.capacity, p.step);
    Groups(|events|, p.step, l.stored);
    times[l.stored - 1] := Filled(l.pending);
    return Ok(l.stored), frames, times;
  }

  lemma Groups(n: nat, step: nat, stored: nat)
    requires step > 0 && stored > 0 && (stored - 1) * step < n <= stored * step
    ensures stored == DivCeil(n, step)
  {
    DivCeilReached(n, step, stored);
    DivCeilReached(n, step, stored - 1);
  }

  // ---------------------------------------------------------------- conservation

  function Sum(times: seq<nat>): nat {
    if times == [] then 0 else Sum(times[..|times| - 1]) + times[|times| - 1]
  }

  /** The groups, one after the other, are the frames. */
  lemma {:induction false} GroupsAddUp(delays: seq<int>, step: nat, n: nat)
    requires step > 0 && n * step <= |delays| + step
    ensures PlayTime(Slice(delays, 0, n * step))
         == if n == 0 then 0 else PlayTime(Slice(delays, 0, (n - 1) * step)) + PlayTime(Group(delays, step, n - 1))
  {
    if n > 0 {
      MulAdd(n - 1, 1, step);
      var a, b := Slice(delays, 0, (n - 1) * step), Group(delays, step, n - 1);
      assert a + b == Slice(delays, 0, n * step);
      PlayConcat(a, b);
    } else {
      assert Slice(delays, 0, 0) == [];
    }
  }

  /** As long as no group reaches 2^32 milliseconds, the kept frames play as long as all frames. */
  lemma {:induction false} PlayTimeKept(delays: seq<int>, step: nat, times: seq<nat>)
    requires step > 0 && |times| * step <= |delays| + step
    requires forall j :: 0 <= j < |times| ==> times[j] == PlayTime(Group(delays, step, j))
    ensures Sum(times) == PlayTime(Slice(delays, 0, |times| * step))
    decreases |times|
  {
    GroupsAddUp(delays, step, |times|);
    if times != [] {
      MulAdd(|times| - 1, 1, step);
      PlayTimeKept(delays, step, times[..|times| - 1]);
    }
  }

  /** Total play time is conserved. */
  lemma Conserved(delays: seq<int>, step: nat, frames: seq<nat>, times: seq<nat>)
    requires step > 0 && delays != [] && |frames| == |times| == DivCeil(|delays|, step)
    requires forall j :: 0 <= j < |times| ==> Kept(frames, times, delays, step, j)
    requires forall j :: 0 <= j < |times| ==> PlayTime(Group(delays, step, j)) <= UINT32_MAX
    ensures Sum(times) == PlayTime(delays)
  {
    forall j | 0 <= j < |times| ensures times[j] == PlayTime(Group(delays, step, j)) {
      assert Kept(frames, times, delays, step, j);
    }
    DivCeilReached(|delays|, step, |times|);
    DivCeilReached(|delays|, step, 0);
    DivCeilReached(|delays|, step, |times| - 1);
    MulAdd(|times| - 1, 1, step);
    PlayTimeKept(delays, step, times);
    assert Slice(delays, 0, |times| * step) == delays;
  }
}
