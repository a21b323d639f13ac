/**
 When the ticker dispatches a job, in every run: exactly when the job runs, nobody is starting or stopping it, it has
 an event callback, and its interval has passed since it was last dispatched.
 */
module JobTicks {
  import opened Wrappers
  import opened Words
  import opened JobTable
  import opened JobProtocol
  import opened JobInvariant
  import opened JobRuns
  import opened JobAccounts
  import opened JobReplay
  import Scheduler

  // ---------------------------------------------------------------- what a step does to the ticks of one slot

  /** From `c` to `r` the ticker enters the event callback of job `i`. */
  predicate Dispatches(c: Core, r: Core, i: nat) {
    !c.ticker.pc.EventCallback? && r.ticker.pc.EventCallback? && r.ticker.at == i
  }

  /** From `c` to `r` a start or a stop takes the lifecycle of slot `i`, or the slot is registered or unregistered. */
  predicate Restarts(c: Core, r: Core, i: nat) {
    i < |c.table.slots| && i < |r.table.slots|
    && (c.table.slots[i].generation != r.table.slots[i].generation || c.table.slots[i].entry != r.table.slots[i].entry)
  }

  /** The dispatches since the last restart, and the time of the last of them. */
  datatype Beat = Beat(count: nat, last: uint32)

  function BeatNow(tr: Track): (b: Beat) {
    Beat(tr.ticks, tr.tickAt)
  }

  /** What the event makes of the beat of slot `i`. */
  function Beaten(b: Beat, c: Core, r: Core, e: Event, i: nat): (n: Beat) {
    if Restarts(c, r, i) then b.(count := 0)
    else if Dispatches(c, r, i) && e.TickerProceed? then Beat(b.count + 1, e.choice.now)
    else b
  }

  /** The generation under which slot `i` is in its event callback. */
  function CallbackGeneration(tk: Ticker, i: nat): (g: uint32) {
    if tk.pc.EventCallback? && tk.at == i then tk.pc.generation else 0
  }

  /** The slot's own counter agrees with its history. */
  predicate TicksOk(sl: Slot, tr: Track, inCallback: nat, g: uint32) {
    && (tr.holder.ByCall? ==> tr.ticks == 0)
    && (sl.state == Waiting ==> tr.ticks == 0 && sl.ticks == NO_TICKS)
    && (sl.state == Running ==>
          && inCallback <= tr.ticks && sl.ticks.dispatches == (tr.ticks - inCallback) % 0x1_0000_0000
          && (tr.ticks > 0 ==> sl.ticks.last == tr.tickAt)
          && (inCallback == 1 ==> sl.generation == g))
  }

  predicate TicksOkAt(c: Core, i: nat) {
    i < |c.table.slots| && i < |c.track|
    && TicksOk(c.table.slots[i], c.track[i], InCallback(c.ticker, i), CallbackGeneration(c.ticker, i))
  }

  /** The step keeps the agreement, and the history follows what can be seen. */
  predicate KeepsTicks(c: Core, r: Core, e: Event, i: nat) {
    && TicksOkAt(r, i) && i < |c.track|
    && BeatNow(r.track[i]) == Beaten(BeatNow(c.track[i]), c, r, e, i)
  }

  lemma NextDiffers(g: uint32)
    ensures NextGeneration(g) != g
  {
  }

  // ---------------------------------------------------------------- one step of a call

  /** Another slot is touched, or this one is left in agreement. */
  lemma TouchTicks(c: Core, k: nat, sl: Slot, tr: Track, id: CallId, pc: Pc, e: Event, i: nat)
    requires TicksOkAt(c, i) && k < |c.table.slots| && k < |c.track| && id in c.calls && e.Proceed?
    requires k == i ==>
      && TicksOk(sl, tr, InCallback(c.ticker, i), CallbackGeneration(c.ticker, i))
      && BeatNow(tr) == if sl.generation != c.table.slots[i].generation || sl.entry != c.table.slots[i].entry
                        then BeatNow(c.track[i]).(count := 0) else BeatNow(c.track[i])
    ensures KeepsTicks(c, Touch(c, k, sl, tr, id, pc), e, i)
  {
  }

  lemma StartClaimTicks(c: Core, id: CallId, name: string, stack: nat, block: Option<Block>, e: Event, i: nat)
    requires Shaped(c) && TicksOkAt(c, i) && id in c.calls && e.Proceed?
    ensures KeepsTicks(c, StepStartClaim(c, id, name, stack, block).0, e, i)
  {
    var found := IndexByName(c.table, name);
    if found.Some? && StartAllowed(c.table.slots[found.value], c.calls[id].task) {
      var k, sl := found.value, c.table.slots[found.value];
      NextDiffers(sl.generation);
      var st := Start(k, NextGeneration(sl.generation), JobOf(sl).value, stack, sl.pending, block);
      TouchTicks(c, k, StartClaimed(sl), ClaimTrack(c.track[k], ByCall(id)), id, StartDrain(st, sl.state == Running),
          e, i);
    }
  }

  lemma CancelTicks(c: Core, id: CallId, k: nat, e: Event, i: nat)
    requires Shaped(c) && TicksOkAt(c, i) && id in c.calls && e.Proceed? && k < |c.table.slots|
    ensures KeepsTicks(c, CancelQueued(c, id, k).0, e, i)
  {
    var sl := c.table.slots[k];
    var pc := if sl.pending.Some? then StopFree(sl.pending.value) else Done;
    TouchTicks(c, k, StartCancelled(sl), c.track[k], id, pc, e, i);
  }

  lemma StopRunningTicks(c: Core, id: CallId, k: nat, e: Event, i: nat)
    requires Shaped(c) && TicksOkAt(c, i) && id in c.calls && e.Proceed? && k < |c.table.slots|
    ensures KeepsTicks(c, StopRunning(c, id, k), e, i)
  {
    var sl, task, r := c.table.slots[k], c.calls[id].task, StopRunning(c, id, k);
    NextDiffers(sl.generation);
    TouchTicks(c, k, StopClaimed(sl, task), r.track[k], id, r.calls[id].pc, e, i);
  }

  lemma StopClaimTicks(c: Core, id: CallId, name: string, e: Event, i: nat)
    requires Shaped(c) && TicksOkAt(c, i) && id in c.calls && e.Proceed?
    ensures KeepsTicks(c, StepStopClaim(c, id, name).0, e, i)
  {
    var found := IndexByName(c.table, name);
    if found.Some? && StopAllowed(c.table.slots[found.value], c.shutdown) {
      if c.table.slots[found.value].state != Running {
        CancelTicks(c, id, found.value, e, i);
      } else {
        StopRunningTicks(c, id, found.value, e, i);
      }
    }
  }

  lemma QueueTicks(c: Core, id: CallId, st: Start, e: Event, i: nat)
    requires Lifecycles(c) && TicksOkAt(c, i) && id in c.calls && c.calls[id].pc == StartQueue(st) && e.Proceed?
    ensures KeepsTicks(c, StepQueue(c, id, st).0, e, i)
  {
    assert CallOk(c, id) && CellOk(c, st.index);
    HolderRechecks(c, id);
    var sl, tr := StartQueued(c.table.slots[st.index], st.spare.value), c.track[st.index].(holder := Nobody);
    TouchTicks(c, st.index, sl, tr, id, QueueNote, e, i);
  }

  lemma PublishTicks(c: Core, id: CallId, st: Start, ret: Ret, e: Event, i: nat)
    requires Lifecycles(c) && TicksOkAt(c, i) && id in c.calls && c.calls[id].pc == StartPublish(st, ret) && e.Proceed?
    ensures KeepsTicks(c, StepPublish(c, id, st, ret).0, e, i)
  {
    assert CallOk(c, id) && CellOk(c, st.index);
    HolderRechecks(c, id);
    var sl, tr := c.table.slots[st.index], c.track[st.index];
    if st.spare.Some? {
      TouchTicks(c, st.index, StartQueued(sl, st.spare.value), tr.(holder := Nobody), id, QueueNote, e, i);
    } else {
      TouchTicks(c, st.index, StartConcluded(sl, ret), ConcludeTrack(tr, ret), id, Done, e, i);
    }
  }

  lemma PlainTicks(c: Core, live: set<Block>, id: CallId, ch: Choice, e: Event, i: nat)
    requires Shaped(c) && TicksOkAt(c, i) && id in c.calls && e.Proceed?
    requires Plain(c.calls[id].pc) && WellStaged(c.calls[id].pc)
    ensures KeepsTicks(c, StepCall(c, live, id, ch).0, e, i)
  {
    PlainMoves(c, live, id, ch);
  }

  lemma CallTicks(c: Core, live: set<Block>, id: CallId, ch: Choice, e: Event, i: nat)
    requires Lifecycles(c) && TicksOkAt(c, i) && id in c.calls && e.Proceed?
    ensures KeepsTicks(c, StepCall(c, live, id, ch).0, e, i)
  {
    assert CallOk(c, id);
    if Plain(c.calls[id].pc) {
      PlainTicks(c, live, id, ch, e, i);
    } else {
      match c.calls[id].pc
      case StartClaiming(name, stack, block) => StartClaimTicks(c, id, name, stack, block, e, i);
      case StopClaiming(name) => StopClaimTicks(c, id, name, e, i);
      case StartQueue(st) => QueueTicks(c, id, st, e, i);
      case StartPublish(st, ret) => PublishTicks(c, id, st, ret, e, i);
      case StartDrain(st, _) => DrainTicks(c, live, id, ch, st.index, e, i);
      case StopDrain(k, _) => DrainTicks(c, live, id, ch, k, e, i);
      case StopComplete(k, g) => CompleteTicks(c, id, k, g, e, i);
      case Done =>
    }
  }

  lemma DrainTicks(c: Core, live: set<Block>, id: CallId, ch: Choice, k: nat, e: Event, i: nat)
    requires Shaped(c) && TicksOkAt(c, i) && id in c.calls && e.Proceed?
    requires Draining(c.calls[id].pc) && Index(c.calls[id].pc) == Some(k)
    ensures KeepsTicks(c, StepCall(c, live, id, ch).0, e, i)
  {
    var sl, tr := c.table.slots[k], c.track[k];
    if sl.refs == 0 {
      var r := StepCall(c, live, id, ch).0;
      TouchTicks(c, k, sl, r.track[k], id, r.calls[id].pc, e, i);
    }
  }

  lemma CompleteTicks(c: Core, id: CallId, k: nat, g: uint32, e: Event, i: nat)
    requires Shaped(c) && TicksOkAt(c, i) && id in c.calls && c.calls[id].pc == StopComplete(k, g) && e.Proceed?
    ensures KeepsTicks(c, StepComplete(c, id, k, g), e, i)
  {
    if HeldUnder(c.table.slots[k], g) {
      TouchTicks(c, k, LifecycleReleased(c.table.slots[k]), c.track[k].(holder := Nobody), id, Done, e, i);
    }
  }

  // ---------------------------------------------------------------- one step of the ticker, and the other events

  lemma DispatchTicks(c: Core, ch: Choice, i: nat)
    requires Lifecycles(c) && TicksOkAt(c, i) && c.ticker.pc.EventBegin?
    ensures KeepsTicks(c, StepTicker(c, ch).0, TickerProceed(ch), i)
  {
    assert CellOk(c, c.ticker.at);
  }

  lemma ReturnTicks(c: Core, ch: Choice, i: nat)
    requires Lifecycles(c) && TicksOkAt(c, i) && c.ticker.pc.EventCallback?
    ensures KeepsTicks(c, StepTicker(c, ch).0, TickerProceed(ch), i)
  {
    assert CellOk(c, c.ticker.at);
    if i == c.ticker.at {
      CountsOn(c.track[i].ticks);
    }
  }

  /** One more completed dispatch, on a counter that wraps. */
  lemma CountsOn(k: nat)
    ensures k > 0 ==> Scheduler.Add32((k - 1) % 0x1_0000_0000, 1) == k % 0x1_0000_0000
  {
  }

  lemma RetryTicks(c: Core, ch: Choice, i: nat)
    requires Lifecycles(c) && TicksOkAt(c, i) && c.ticker.pc.RetryClaim?
    ensures KeepsTicks(c, StepTicker(c, ch).0, TickerProceed(ch), i)
  {
    assert CellOk(c, c.ticker.at);
  }

  lemma RetriedTicks(c: Core, b: Block, g: uint32, ret: Ret, ch: Choice, i: nat)
    requires Lifecycles(c) && TicksOkAt(c, i) && c.ticker.pc == RetryPublish(b, g, ret)
    ensures KeepsTicks(c, StepRetryPublish(c, b, g, ret).0, TickerProceed(ch), i)
  {
    assert CellOk(c, c.ticker.at);
  }

  lemma FinishTicks(c: Core, ch: Choice, i: nat)
    requires Lifecycles(c) && TicksOkAt(c, i) && c.ticker.pc.EventComplete?
    ensures KeepsTicks(c, StepTicker(c, ch).0, TickerProceed(ch), i)
  {
    assert CellOk(c, c.ticker.at);
  }

  lemma TickPlainTicks(c: Core, ch: Choice, i: nat)
    requires Shaped(c) && TicksOkAt(c, i) && TickPlain(c.ticker.pc)
    ensures KeepsTicks(c, StepTicker(c, ch).0, TickerProceed(ch), i)
  {
  }

  lemma TickerTicks(c: Core, ch: Choice, i: nat)
    requires Lifecycles(c) && TicksOkAt(c, i)
    ensures KeepsTicks(c, StepTicker(c, ch).0, TickerProceed(ch), i)
  {
    if c.ticker.pc.EventBegin? {
      DispatchTicks(c, ch, i);
    } else if c.ticker.pc.EventCallback? {
      ReturnTicks(c, ch, i);
    } else if c.ticker.pc.EventComplete? {
      FinishTicks(c, ch, i);
    } else if TickPlain(c.ticker.pc) {
      TickPlainTicks(c, ch, i);
    } else if c.ticker.pc.RetryClaim? {
      RetryTicks(c, ch, i);
    } else {
      RetriedTicks(c, c.ticker.pc.block, c.ticker.pc.generation, c.ticker.pc.ret, ch, i);
    }
  }

  lemma RegisterTicks(c: Core, name: string, summary: bool, job: Job, i: nat)
    requires Lifecycles(c) && TicksOkAt(c, i)
    ensures KeepsTicks(c, StepRegister(c, name, summary, job), RegisterJob(name, summary, job), i)
  {
    assert CellOk(c, i);
  }

  lemma UnregisterTicks(c: Core, name: string, job: Job, i: nat)
    requires Lifecycles(c) && TicksOkAt(c, i)
    ensures KeepsTicks(c, StepUnregister(c, name, job), UnregisterJob(name, job), i)
  {
    assert CellOk(c, i);
  }

  lemma MarkTicks(c: Core, name: string, g: uint32, i: nat)
    requires Lifecycles(c) && TicksOkAt(c, i)
    ensures KeepsTicks(c, StepMark(c, name, g), Mark(name, g), i)
  {
  }

  lemma StepTicks(c: Core, live: set<Block>, e: Event, i: nat)
    requires Lifecycles(c) && TicksOkAt(c, i)
    ensures KeepsTicks(c, StepCore(c, live, e).0, e, i)
  {
    match e
    case Proceed(id, ch) => if id in c.calls { CallTicks(c, live, id, ch, e, i); }
    case TickerProceed(ch) => TickerTicks(c, ch, i);
    case Mark(name, g) => MarkTicks(c, name, g, i);
    case RegisterJob(name, summary, job) => RegisterTicks(c, name, summary, job, i);
    case UnregisterJob(name, job) => UnregisterTicks(c, name, job, i);
    case _ =>
  }

  // ---------------------------------------------------------------- over runs

  /** The dispatches of job slot `i` since its last restart in a run, and the time of the last of them. */
  ghost function BeatOf(s: Sys, events: seq<Event>, i: nat): (b: Beat)
    requires Inv(s)
  {
    if events == [] then Beat(0, 0)
    else
      var last := |events| - 1;
      Beaten(BeatOf(s, events[..last], i), Run(s, events[..last]).core, Run(s, events).core, events[last], i)
  }

  lemma {:induction false} BeatsAreTracked(s: Sys, events: seq<Event>, i: nat)
    requires Inv(s) && TicksOkAt(s.core, i) && BeatNow(s.core.track[i]) == Beat(0, 0)
    ensures TicksOkAt(Run(s, events).core, i)
    ensures BeatOf(s, events, i) == BeatNow(Run(s, events).core.track[i])
    decreases |events|
  {
    if events != [] {
      var last := |events| - 1;
      BeatsAreTracked(s, events[..last], i);
      var m := Run(s, events[..last]);
      StepTicks(m.core, m.memory.live, events[last], i);
    }
  }

  /** The milliseconds between two dispatches that a job asks for: its interval, or 25 if it names none. */
  function AskedFor(job: Job): (ms: uint32) {
    if job.interval == 0 then 25 else job.interval
  }

  /** The ticker, come to a job with this beat, dispatches it exactly when it is due. */
  predicate DispatchedWhenDue(c: Core, b: Beat, ch: Choice)
    requires Shaped(c) && c.ticker.at < |c.table.slots|
  {
    var sl := c.table.slots[c.ticker.at];
    Dispatches(c, StepTicker(c, ch).0, c.ticker.at) <==>
      && sl.state == Running && !sl.busy && JobOf(sl).Some? && JobOf(sl).value.hasEvent
      && (b.count % 0x1_0000_0000 == 0 || (ch.now - b.last) % 0x1_0000_0000 >= AskedFor(JobOf(sl).value))
  }

  lemma DispatchDecides(c: Core, ch: Choice)
    requires Lifecycles(c) && c.ticker.pc.EventBegin? && c.ticker.at < |c.table.slots| && TicksOkAt(c, c.ticker.at)
    ensures DispatchedWhenDue(c, BeatNow(c.track[c.ticker.at]), ch)
  {
  }

  lemma ReachedTicks(statics: seq<Option<Entry>>, extra: nat, events: seq<Event>, i: nat)
    requires i < |Reached(statics, extra, events).core.table.slots|
    ensures var c := Reached(statics, extra, events).core;
            TicksOkAt(c, i) && BeatOf(Reached(statics, extra, []), events, i) == BeatNow(c.track[i])
  {
    var s := Reached(statics, extra, []);
    RunActs(s, events);
    FreshTicks(statics, extra, i);
    BeatsAreTracked(s, events, i);
  }

  /**
   In every run, when the ticker comes to a job, it dispatches it exactly if the job runs, its lifecycle is free, it
   has an event callback, and either it has not been dispatched since it was last started (or a whole multiple of 2^32
   times, where the counter wraps) or the time since the last dispatch, on the wrapping clock, has reached its
   interval.
   */
  lemma EveryDispatchIsDue(statics: seq<Option<Entry>>, extra: nat, events: seq<Event>, ch: Choice)
    requires Reached(statics, extra, events).core.ticker.pc.EventBegin?
    ensures var c := Reached(statics, extra, events).core;
            c.ticker.at < |c.table.slots|
            && DispatchedWhenDue(c, BeatOf(Reached(statics, extra, []), events, c.ticker.at), ch)
  {
    var c := Reached(statics, extra, events).core;
    ReachedTicks(statics, extra, events, c.ticker.at);
    DispatchDecides(c, ch);
  }

  lemma FreshTicks(statics: seq<Option<Entry>>, extra: nat, i: nat)
    requires i < |statics| + extra
    ensures TicksOkAt(Init(statics, extra).core, i) && BeatNow(Init(statics, extra).core.track[i]) == Beat(0, 0)
  {
  }

  /** No other event ever enters an event callback, and the ticker enters one only where it decides to. */
  lemma OnlyTheTickerDispatches(s: Sys, e: Event, i: nat)
    requires Inv(s) && Dispatches(s.core, Step(s, e).core, i)
    ensures e.TickerProceed? && s.core.ticker.pc.EventBegin? && s.core.ticker.at == i < |s.core.table.slots|
  {
    if e.Proceed? && e.id in s.core.calls {
      CallLeavesTicker(s.core, s.memory.live, e.id, e.choice);
    }
  }

  // ---------------------------------------------------------------- a pass over the jobs

  /** The ticker has come to slot `i` and decides about a dispatch, or passes the slot over because no job is in it. */
  ghost predicate ComesTo(c: Core, e: Event, i: nat)
    requires Shaped(c)
  {
    && e.TickerProceed? && c.ticker.at == i < |c.table.slots|
    && (c.ticker.pc.EventBegin? || (c.ticker.pc.Visit? && c.table.slots[i].entry.None?))
  }

  /** The ticker is in a pass over `limit` slots and has not decided about slot `i` yet. */
  predicate Before(tk: Ticker, i: nat, limit: nat) {
    && !tk.pc.Idle? && tk.limit == limit
    && (tk.at < i || (tk.at == i && !tk.pc.EventCallback? && !tk.pc.EventStopping? && !tk.pc.EventComplete?))
  }

  lemma StepBefore(s: Sys, e: Event, i: nat, limit: nat)
    requires Inv(s) && Before(s.core.ticker, i, limit) && i < limit
    ensures Before(Step(s, e).core.ticker, i, limit) || ComesTo(s.core, e, i)
  {
    if e.Proceed? && e.id in s.core.calls {
      CallLeavesTicker(s.core, s.memory.live, e.id, e.choice);
    }
  }

  /** In a run the ticker comes to slot `i`. */
  ghost predicate Comes(s: Sys, events: seq<Event>, i: nat)
    requires Inv(s)
    decreases |events|
  {
    && events != []
    && var before, e := events[..|events| - 1], events[|events| - 1];
       Comes(s, before, i) || ComesTo(Run(s, before).core, e, i)
  }

  lemma {:induction false} ComesOrBefore(s: Sys, events: seq<Event>, i: nat)
    requires Inv(s) && Before(s.core.ticker, i, s.core.ticker.limit) && i < s.core.ticker.limit
    ensures Comes(s, events, i) || Before(Run(s, events).core.ticker, i, s.core.ticker.limit)
    decreases |events|
  {
    if events != [] {
      var before, e := events[..|events| - 1], events[|events| - 1];
      ComesOrBefore(s, before, i);
      if !Comes(s, before, i) {
        StepBefore(Run(s, before), e, i, s.core.ticker.limit);
      }
    }
  }

  /**
   Nothing is left out: between the beginning of a pass and its end the ticker comes to every slot that was in range
   at the beginning, whatever else happens meanwhile.
   */
  lemma EveryPassComesToEveryJob(s: Sys, events: seq<Event>, i: nat)
    requires Inv(s) && s.core.ticker.pc.Visit? && s.core.ticker.at == 0
    requires i < s.core.ticker.limit && Run(s, events).core.ticker.pc.Idle?
    ensures Comes(s, events, i)
  {
    ComesOrBefore(s, events, i);
  }

  /** And a pass begins with the slots in use. */
  lemma PassBegins(s: Sys, ch: Choice)
    requires Inv(s) && s.core.ticker.pc.Idle?
    ensures Step(s, TickerProceed(ch)).core.ticker == Ticker(Visit, 0, s.core.table.count)
  {
  }

  /** What the wait of the runtime loop reads of a slot. */
  function TickedOf(sl: Slot): (j: Scheduler.Ticked) {
    var job := if JobOf(sl).Some? then JobOf(sl).value else Job(0, "", 0, false, false, 0);
    Scheduler.Ticked(sl.state == Running, sl.busy, job.hasEvent, job.interval, sl.ticks.dispatches, sl.ticks.last)
  }

  /** The runtime loop wakes for exactly the jobs that the ticker then dispatches. */
  lemma WaitsForDispatches(sl: Slot, now: uint32)
    ensures Scheduler.Wants(TickedOf(sl), now) <==> Dispatchable(sl, now)
  {
  }
}
