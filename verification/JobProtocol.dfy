/**
 Every run of the job protocol: any number of calls to start and stop, the single ticker,
 asynchronous completions, registration and shutdown, interleaved at critical sections.

 A call is one activation of solar_os_jobs_start or solar_os_jobs_stop on some task; a call made
 from inside a callback is an activation carrying that callback's task. Nothing forces a caller to
 wait for the calls it made, so the runs below include all real runs and more.

 The state has two halves. `Core` is the registry and everybody's program counter; its steps ask
 for at most one `Effect` each, and `Memory` is the heap of queued-start blocks and the counters of
 src/solar_os_task.c that the effects act on. `Track` and `owner` are history: no step reads them.
 */
module JobProtocol {
  import opened Wrappers
  import opened Words
  import opened JobTable

  /** The one task that runs solar_os_jobs_tick. */
  const TICKER: Task := 0

  type CallId = nat

  /** What a start carries from its claim to its end; `stack` is what it read when it was admitted. */
  datatype Start = Start(index: nat, generation: uint32, job: Job, stack: nat, taken: Option<Block>,
                         spare: Option<Block>)

  datatype Pc =
    | StartAdmit(name: string)
    | StartPreflight(name: string, stack: nat)
    | StartClaiming(name: string, stack: nat, block: Option<Block>)
    | StartDrain(st: Start, wasRunning: bool)
    | StartStopping(st: Start)
    | StartFree(st: Start)
    | StartNote(st: Start)
    | StartQueue(st: Start)
    | StartCallback(st: Start)
    | StartPublish(st: Start, ret: Ret)
    | QueueNote
    | Discard(unused: Block)
    | StopClaiming(name: string)
    | StopDrain(index: nat, generation: uint32)
    | StopCallback(index: nat, generation: uint32)
    | StopComplete(index: nat, generation: uint32)
    | StopFree(cancelled: Block)
    | StopNote
    | Done

  datatype Call = Call(task: Task, pc: Pc)

  datatype TickerPc =
    | Idle
    | Visit
    | RetryPeek
    | RetryCheck(block: Block, generation: uint32)
    | RetryClaim(block: Block, generation: uint32)
    | RetryCallback(block: Block, generation: uint32)
    | RetryPublish(block: Block, generation: uint32, ret: Ret)
    | RetryFree(block: Block, launched: bool)
    | RetryNote(launched: bool)
    | EventBegin
    | EventCallback(generation: uint32)
    | EventStopping(generation: uint32)
    | EventComplete(generation: uint32)

  /** The ticker is at `at` of `limit` slots. */
  datatype Ticker = Ticker(pc: TickerPc, at: nat, limit: nat)

  datatype Holder = Nobody | ByCall(id: CallId) | ByTicker | ByDeferral

  /** One slot's history: its holder, the runs begun, the stops and completions, and the number of
      generation bumps since the slot was last registered; and the dispatches since its lifecycle was
      last claimed, with the time of the last of them. */
  datatype Track = Track(holder: Holder, begun: nat, stops: nat, marks: nat, bumps: nat, ticks: nat, tickAt: uint32)

  datatype Core = Core(
    table: Table,
    track: seq<Track>,
    calls: map<CallId, Call>,
    ticker: Ticker,
    shutdown: bool)

  datatype Owner = InSlot(index: nat) | InCall(id: CallId) | InTicker

  datatype Effect =
    | Nothing
    | Allocate(block: Block, to: Owner)
    | Give(block: Block, to: Owner)
    | Use(block: Block)
    | Release(block: Block)
    | NoteQueued
    | NoteFinished(launched: bool)

  datatype Memory = Memory(
    live: set<Block>,
    owner: map<Block, Owner>,
    fault: bool,
    waiting: nat,
    successes: nat,
    cancellations: nat,
    queueNotes: nat,
    lost: nat)

  datatype Sys = Sys(core: Core, memory: Memory)

  /** The choices the environment makes for one step. */
  datatype Choice = Choice(canCreate: bool, block: Option<Block>, ret: Ret, now: uint32)

  datatype Event =
    | CallStart(id: CallId, task: Task, name: string)
    | CallStop(id: CallId, task: Task, name: string)
    | Proceed(id: CallId, choice: Choice)
    | TickerProceed(choice: Choice)
    | Mark(name: string, generation: uint32)
    | RegisterJob(name: string, summary: bool, job: Job)
    | UnregisterJob(name: string, job: Job)
    | Shutdown

  // ---------------------------------------------------------------- shape

  /** The slot whose lifecycle a call holds at this point. */
  function Index(pc: Pc): (r: Option<nat>) {
    match pc
    case StartDrain(st, _) => Some(st.index)
    case StartStopping(st) => Some(st.index)
    case StartFree(st) => Some(st.index)
    case StartNote(st) => Some(st.index)
    case StartQueue(st) => Some(st.index)
    case StartCallback(st) => Some(st.index)
    case StartPublish(st, _) => Some(st.index)
    case StopDrain(i, _) => Some(i)
    case StopCallback(i, _) => Some(i)
    case StopComplete(i, _) => Some(i)
    case _ => None
  }

  predicate InTable(pc: Pc, n: nat) {
    && (Index(pc).Some? ==> Index(pc).value < n)
    && (pc.StartQueue? ==> pc.st.spare.Some?)
  }

  predicate TickerInTable(tk: Ticker, n: nat) {
    && tk.limit <= n
    && (tk.pc != Idle && tk.pc != Visit ==> tk.at < tk.limit)
  }

  ghost predicate Shaped(c: Core) {
    && c.table.Valid()
    && |c.track| == |c.table.slots|
    && TickerInTable(c.ticker, |c.table.slots|)
    && forall id :: id in c.calls ==> InTable(c.calls[id].pc, |c.table.slots|)
  }

  // ---------------------------------------------------------------- the calls

  /** Call `id` moves to `pc` and touches no slot. */
  function At(c: Core, id: CallId, pc: Pc): (r: Core)
    requires id in c.calls
  {
    c.(calls := c.calls[id := c.calls[id].(pc := pc)])
  }

  function Put(c: Core, i: nat, sl: Slot, tr: Track): (r: Core)
    requires i < |c.table.slots| && i < |c.track|
  {
    c.(table := c.table.(slots := c.table.slots[i := sl]), track := c.track[i := tr])
  }

  /** Call `id` moves to `pc` and leaves slot `i` as `sl`. */
  function Touch(c: Core, i: nat, sl: Slot, tr: Track, id: CallId, pc: Pc): (r: Core)
    requires i < |c.table.slots| && i < |c.track| && id in c.calls
  {
    At(Put(c, i, sl, tr), id, pc)
  }

  function AfterFree(st: Start): (r: Pc) {
    if st.spare.Some? then StartQueue(st)
    else if st.job.hasStart then StartCallback(st)
    else StartPublish(st, Success)
  }

  function DiscardOrDone(spare: Option<Block>): (r: Pc) {
    if spare.Some? then Discard(spare.value) else Done
  }

  function ClaimTrack(tr: Track, holder: Holder): (r: Track) {
    tr.(holder := holder, bumps := tr.bumps + 1, ticks := 0)
  }

  /** The lifecycle is given back, and a run has begun if the start callback succeeded. */
  function ConcludeTrack(tr: Track, ret: Ret): (r: Track) {
    tr.(holder := Nobody, begun := tr.begun + (if ret == Success then 1 else 0))
  }

  /** An event callback is entered. */
  function TickTrack(tr: Track, now: uint32): (r: Track) {
    tr.(ticks := tr.ticks + 1, tickAt := now)
  }

  /** Entering a stop callback is the point where the stop of a run is carried out. */
  function StopTrack(tr: Track): (r: Track) {
    tr.(stops := tr.stops + 1)
  }

  function StepStartClaim(c: Core, id: CallId, name: string, stack: nat, block: Option<Block>): (r: (Core, Effect))
    requires Shaped(c) && id in c.calls
  {
    var found := IndexByName(c.table, name);
    if found.None? || !StartAllowed(c.table.slots[found.value], c.calls[id].task) then
      (At(c, id, DiscardOrDone(block)), Nothing)
    else
      var i, sl := found.value, c.table.slots[found.value];
      var st := Start(i, NextGeneration(sl.generation), JobOf(sl).value, stack, sl.pending, block);
      (Touch(c, i, StartClaimed(sl), ClaimTrack(c.track[i], ByCall(id)), id,
             StartDrain(st, sl.state == Running)),
       if sl.pending.Some? then Give(sl.pending.value, InCall(id)) else Nothing)
  }

  /** Stopping a job that is not running: its queued start, if any, is taken off. */
  function CancelQueued(c: Core, id: CallId, i: nat): (r: (Core, Effect))
    requires Shaped(c) && id in c.calls && i < |c.table.slots|
  {
    var sl := c.table.slots[i];
    if sl.pending.Some? then
      (Touch(c, i, StartCancelled(sl), c.track[i], id, StopFree(sl.pending.value)),
       Give(sl.pending.value, InCall(id)))
    else (Touch(c, i, StartCancelled(sl), c.track[i], id, Done), Nothing)
  }

  /** Stopping a running job: at once, or after the callback that asked for it. */
  function StopRunning(c: Core, id: CallId, i: nat): (r: Core)
    requires Shaped(c) && id in c.calls && i < |c.table.slots|
  {
    var sl, task := c.table.slots[i], c.calls[id].task;
    if FromOwnCallback(sl, task) then
      Touch(c, i, StopClaimed(sl, task), ClaimTrack(c.track[i], ByDeferral), id, Done)
    else
      Touch(c, i, StopClaimed(sl, task), ClaimTrack(c.track[i], ByCall(id)), id,
            StopDrain(i, NextGeneration(sl.generation)))
  }

  function StepStopClaim(c: Core, id: CallId, name: string): (r: (Core, Effect))
    requires Shaped(c) && id in c.calls
  {
    var found := IndexByName(c.table, name);
    if found.None? || !StopAllowed(c.table.slots[found.value], c.shutdown) then (At(c, id, Done), Nothing)
    else if c.table.slots[found.value].state != Running then CancelQueued(c, id, found.value)
    else (StopRunning(c, id, found.value), Nothing)
  }

  function StepQueue(c: Core, id: CallId, st: Start): (r: (Core, Effect))
    requires Shaped(c) && id in c.calls && st.index < |c.table.slots| && st.spare.Some?
  {
    var i, sl := st.index, c.table.slots[st.index];
    if HeldUnder(sl, st.generation) then
      (Touch(c, i, StartQueued(sl, st.spare.value), c.track[i].(holder := Nobody), id, QueueNote),
       Give(st.spare.value, InSlot(i)))
    else (At(c, id, Discard(st.spare.value)), Nothing)
  }

  function StepPublish(c: Core, id: CallId, st: Start, ret: Ret): (r: (Core, Effect))
    requires Shaped(c) && id in c.calls && st.index < |c.table.slots|
  {
    var i, sl := st.index, c.table.slots[st.index];
    if !HeldUnder(sl, st.generation) then (At(c, id, DiscardOrDone(st.spare)), Nothing)
    else if st.spare.Some? then
      (Touch(c, i, StartQueued(sl, st.spare.value), c.track[i].(holder := Nobody), id, QueueNote),
       Give(st.spare.value, InSlot(i)))
    else (Touch(c, i, StartConcluded(sl, ret), ConcludeTrack(c.track[i], ret), id, Done), Nothing)
  }

  /** Waiting for the references to drain, then the stop callback of the run that was taken. */
  function StepDrain(c: Core, id: CallId, i: nat, stop: bool, pc: Pc): (r: Core)
    requires Shaped(c) && id in c.calls && i < |c.table.slots|
  {
    if c.table.slots[i].refs != 0 then c
    else Touch(c, i, c.table.slots[i], if stop then StopTrack(c.track[i]) else c.track[i], id, pc)
  }

  function StepComplete(c: Core, id: CallId, i: nat, g: uint32): (r: Core)
    requires Shaped(c) && id in c.calls && i < |c.table.slots|
  {
    if HeldUnder(c.table.slots[i], g) then
      Touch(c, i, LifecycleReleased(c.table.slots[i]), c.track[i].(holder := Nobody), id, Done)
    else At(c, id, Done)
  }

  /** A calloc: the environment may refuse, and never hands out a block that is in use. */
  function Alloc(live: set<Block>, wish: Option<Block>): (r: Option<Block>) {
    if wish.Some? && wish.value !in live then wish else None
  }

  /** One step of one call, as far as its next critical section, callback or free. */
  function StepCall(c: Core, live: set<Block>, id: CallId, e: Choice): (r: (Core, Effect))
    requires Shaped(c) && id in c.calls
  {
    match c.calls[id].pc
    case StartAdmit(name) =>
      var found := IndexByName(c.table, name);
      (At(c, id, if found.None? then Done
                 else StartPreflight(name, StackOf(c.table.slots[found.value]))), Nothing)
    case StartPreflight(name, stack) =>
      if stack > 0 && (c.shutdown || !e.canCreate) then
        var b := Alloc(live, e.block);
        if b.Some? then (At(c, id, StartClaiming(name, stack, b)), Allocate(b.value, InCall(id)))
        else (At(c, id, Done), Nothing)
      else (At(c, id, StartClaiming(name, stack, None)), Nothing)
    case StartClaiming(name, stack, block) => StepStartClaim(c, id, name, stack, block)
    case StartDrain(st, wasRunning) =>
      (StepDrain(c, id, st.index, wasRunning, if wasRunning then StartStopping(st) else StartFree(st)), Nothing)
    case StartStopping(st) => (At(c, id, StartFree(st)), Nothing)
    case StartFree(st) =>
      if st.taken.Some? then (At(c, id, StartNote(st.(taken := None))), Release(st.taken.value))
      else (At(c, id, AfterFree(st)), Nothing)
    case StartNote(st) => (At(c, id, AfterFree(st)), NoteFinished(false))
    case StartQueue(st) => StepQueue(c, id, st)
    case StartCallback(st) =>
      var b := if e.ret == NoMem && st.stack > 0 then Alloc(live, e.block) else None;
      if b.Some? then (At(c, id, StartPublish(st.(spare := b), e.ret)), Allocate(b.value, InCall(id)))
      else (At(c, id, StartPublish(st, e.ret)), Nothing)
    case StartPublish(st, ret) => StepPublish(c, id, st, ret)
    case QueueNote => (At(c, id, Done), NoteQueued)
    case Discard(b) => (At(c, id, Done), Release(b))
    case StopClaiming(name) => StepStopClaim(c, id, name)
    case StopDrain(i, g) => (StepDrain(c, id, i, true, StopCallback(i, g)), Nothing)
    case StopCallback(i, g) => (At(c, id, StopComplete(i, g)), Nothing)
    case StopComplete(i, g) => (StepComplete(c, id, i, g), Nothing)
    case StopFree(b) => (At(c, id, StopNote), Release(b))
    case StopNote => (At(c, id, Done), NoteFinished(false))
    case Done => (c, Nothing)
  }

  // ---------------------------------------------------------------- the ticker

  function TickAt(c: Core, pc: TickerPc): (r: Core) {
    c.(ticker := c.ticker.(pc := pc))
  }

  function NextSlot(c: Core): (r: Core) {
    c.(ticker := c.ticker.(pc := Visit, at := c.ticker.at + 1))
  }

  function StepRetryPublish(c: Core, b: Block, g: uint32, ret: Ret): (r: (Core, Effect))
    requires Shaped(c) && c.ticker.at < |c.table.slots|
  {
    var i, sl, tr := c.ticker.at, c.table.slots[c.ticker.at], c.track[c.ticker.at];
    if !RetryPublishable(sl, b, g) then (TickAt(c, EventBegin), Nothing)
    else if ret == NoMem then
      (TickAt(Put(c, i, RetryConcluded(sl, ret), tr.(holder := Nobody)), EventBegin), Nothing)
    else
      (TickAt(Put(c, i, RetryConcluded(sl, ret), ConcludeTrack(tr, ret)), RetryFree(b, ret == Success)),
       Give(b, InTicker))
  }

  /** The event callback returns; the ticker inherits a stop that the callback asked for. */
  function StepEndEvent(c: Core, g: uint32): (r: Core)
    requires Shaped(c) && c.ticker.at < |c.table.slots|
  {
    var i, sl, tr := c.ticker.at, c.table.slots[c.ticker.at], c.track[c.ticker.at];
    if InheritsStop(sl) then
      TickAt(Put(c, i, Returned(sl, g), StopTrack(tr).(holder := ByTicker)), EventStopping(sl.generation))
    else NextSlot(Put(c, i, Returned(sl, g), tr))
  }

  /** One step of solar_os_jobs_tick. */
  function StepTicker(c: Core, e: Choice): (r: (Core, Effect))
    requires Shaped(c)
  {
    var i := c.ticker.at;
    match c.ticker.pc
    case Idle => (c.(ticker := Ticker(Visit, 0, c.table.count)), Nothing)
    case Visit =>
      if i >= c.ticker.limit then (TickAt(c, Idle), Nothing)
      else if c.table.slots[i].entry.None? then (NextSlot(c), Nothing)
      else (TickAt(c, RetryPeek), Nothing)
    case RetryPeek =>
      if !c.shutdown && i < c.table.count && Retryable(c.table.slots[i]) then
        (TickAt(c, RetryCheck(c.table.slots[i].pending.value, c.table.slots[i].generation)), Nothing)
      else (TickAt(c, EventBegin), Nothing)
    case RetryCheck(b, g) =>
      (TickAt(c, if !c.shutdown && e.canCreate then RetryClaim(b, g) else EventBegin), Nothing)
    case RetryClaim(b, g) =>
      if RetryStill(c.table.slots[i], b, g) then
        (TickAt(Put(c, i, RetryClaimed(c.table.slots[i]), c.track[i].(holder := ByTicker)),
                RetryCallback(b, g)), Nothing)
      else (TickAt(c, EventBegin), Nothing)
    case RetryCallback(b, g) =>
      // The callback reads its queued arguments out of the block.
      (TickAt(c, RetryPublish(b, g, e.ret)), Use(b))
    case RetryPublish(b, g, ret) => StepRetryPublish(c, b, g, ret)
    case RetryFree(b, launched) => (TickAt(c, RetryNote(launched)), Release(b))
    case RetryNote(launched) => (TickAt(c, EventBegin), NoteFinished(launched))
    case EventBegin =>
      if Dispatchable(c.table.slots[i], e.now) then
        (TickAt(Put(c, i, Dispatched(c.table.slots[i], TICKER, e.now), TickTrack(c.track[i], e.now)),
                EventCallback(c.table.slots[i].generation)), Nothing)
      else (NextSlot(c), Nothing)
    case EventCallback(g) => (StepEndEvent(c, g), Nothing)
    case EventStopping(g) => (TickAt(c, EventComplete(g)), Nothing)
    case EventComplete(g) =>
      (NextSlot(if HeldUnder(c.table.slots[i], g)
                then Put(c, i, LifecycleReleased(c.table.slots[i]), c.track[i].(holder := Nobody))
                else c), Nothing)
  }

  // ---------------------------------------------------------------- the other entry points

  function StepMark(c: Core, name: string, g: uint32): (r: Core)
    requires Shaped(c)
  {
    var found := IndexByName(c.table, name);
    if found.None? || !MarkAllowed(c.table.slots[found.value], g) then c
    else
      var i := found.value;
      var ended := if c.table.slots[i].state == Running then 1 else 0;
      Put(c, i, Marked(c.table.slots[i]), c.track[i].(marks := c.track[i].marks + ended))
  }

  function StepRegister(c: Core, name: string, summary: bool, job: Job): (r: Core)
    requires Shaped(c)
  {
    if RegisterAnswer(c.table, name, summary, job) != Accepted then c
    else
      var i := FirstFree(c.table.slots, c.table.statics);
      c.(table := Register(c.table, name, job), track := c.track[i := c.track[i].(bumps := 0, ticks := 0)])
  }

  function StepUnregister(c: Core, name: string, job: Job): (r: Core)
    requires Shaped(c)
  {
    if UnregisterAnswer(c.table, name, job) != Accepted then c
    else
      var i := IndexByName(c.table, name).value;
      c.(table := Unregister(c.table, name, job), track := c.track[i := c.track[i].(bumps := 0, ticks := 0)])
  }

  /** One event; an event that does not apply changes nothing. */
  function StepCore(c: Core, live: set<Block>, e: Event): (r: (Core, Effect))
    requires Shaped(c)
  {
    match e
    case CallStart(id, task, name) =>
      (if id in c.calls || c.shutdown then c
       else c.(calls := c.calls[id := Call(task, StartAdmit(name))]), Nothing)
    case CallStop(id, task, name) =>
      (if id in c.calls then c else c.(calls := c.calls[id := Call(task, StopClaiming(name))]), Nothing)
    case Proceed(id, e) => if id in c.calls then StepCall(c, live, id, e) else (c, Nothing)
    case TickerProceed(e) => StepTicker(c, e)
    case Mark(name, g) => (StepMark(c, name, g), Nothing)
    case RegisterJob(name, summary, job) => (StepRegister(c, name, summary, job), Nothing)
    case UnregisterJob(name, job) => (StepUnregister(c, name, job), Nothing)
    case Shutdown => (c.(shutdown := true), Nothing)
  }

  // ---------------------------------------------------------------- memory and counters

  /** The heap and the counters; using or freeing what is not allocated is recorded as a fault, and
      a decrement that finds the waiting count at zero is recorded as lost. */
  function Apply(m: Memory, e: Effect): (r: Memory) {
    match e
    case Nothing => m
    case Allocate(b, o) => m.(live := m.live + {b}, owner := m.owner[b := o])
    case Give(b, o) => m.(owner := m.owner[b := o])
    case Use(b) => m.(fault := m.fault || b !in m.live)
    case Release(b) => m.(live := m.live - {b}, owner := m.owner - {b}, fault := m.fault || b !in m.live)
    case NoteQueued => m.(waiting := m.waiting + 1, queueNotes := m.queueNotes + 1)
    case NoteFinished(launched) =>
      m.(waiting := if m.waiting > 0 then m.waiting - 1 else 0,
         successes := m.successes + (if launched then 1 else 0),
         cancellations := m.cancellations + (if launched then 0 else 1),
         lost := m.lost + (if m.waiting > 0 then 0 else 1))
  }

  function Step(s: Sys, e: Event): (r: Sys)
    requires Shaped(s.core)
  {
    var (core, effect) := StepCore(s.core, s.memory.live, e);
    Sys(core, Apply(s.memory, effect))
  }

  /** The registry after solar_os_jobs_init, with room for `extra` dynamic jobs. */
  function Init(statics: seq<Option<Entry>>, extra: nat): (r: Sys) {
    var n := |statics| + extra;
    var slots := seq(n, i requires 0 <= i < n =>
      if i < |statics| then BLANK.(entry := statics[i]) else BLANK);
    Sys(Core(Table(slots, |statics|, |statics|), seq(n, _ => Track(Nobody, 0, 0, 0, 0, 0, 0)),
             map[], Ticker(Idle, 0, 0), false),
        Memory({}, map[], false, 0, 0, 0, 0, 0))
  }
}
