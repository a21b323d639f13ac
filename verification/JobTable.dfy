/**
 The job registry of src/solar_os_jobs.c: its slots, and what each critical section does to one.

 Each function below takes a slot (or the registry) as it is at a portENTER_CRITICAL and gives it
 as it is at the matching portEXIT_CRITICAL; the predicates are the tests that the section makes.
 */
module JobTable {
  import opened Wrappers
  import opened Words
  import Scheduler

  /** A task handle; only identity matters. */
  type Task = nat

  /** The address of a queued-start block. */
  type Block = nat

  datatype JobState = Stopped | Waiting | Running | Failed

  /** A job descriptor: its address, the name it carries, and what the registry reads of it. */
  datatype Job = Job(id: nat, name: string, stack: nat, hasStart: bool, hasEvent: bool, interval: uint32)

  datatype Entry = Entry(name: string, job: Option<Job>)

  /** What a start callback can answer. */
  datatype Ret = Success | NoMem | OtherError

  /** What the tick deadlines of a slot depend on: dispatches that have ended, and the time of the last one begun. */
  datatype Ticks = Ticks(dispatches: uint32, last: uint32)

  /** solar_os_tick_stats_reset. */
  const NO_TICKS := Ticks(0, 0)

  datatype Slot = Slot(
    entry: Option<Entry>,
    dynamic: bool,
    state: JobState,
    generation: uint32,
    refs: nat,
    callbackTask: Option<Task>,
    stopAfter: bool,
    busy: bool,
    pending: Option<Block>,
    ticks: Ticks)

  /** A slot after memset to zero. */
  const BLANK := Slot(None, false, Stopped, 0, 0, None, false, false, None, NO_TICKS)

  /** The slots, how many of them are scanned, and how many belong to static jobs. */
  datatype Table = Table(slots: seq<Slot>, count: nat, statics: nat)
  {
    predicate Valid() {
      statics <= count <= |slots|
    }
  }

  // ---------------------------------------------------------------- lookups

  predicate Named(s: Slot, name: string) {
    s.entry.Some? && s.entry.value.name == name
  }

  /** The first of the slots from..count that carries the name. */
  function FirstNamed(slots: seq<Slot>, name: string, from: nat, count: nat): (r: Option<nat>)
    requires from <= count <= |slots|
    ensures r.Some? ==> from <= r.value < count && Named(slots[r.value], name)
    ensures forall k :: from <= k < (if r.Some? then r.value else count) ==> !Named(slots[k], name)
    decreases count - from
  {
    if from == count then None
    else if Named(slots[from], name) then Some(from)
    else FirstNamed(slots, name, from + 1, count)
  }

  function IndexByName(t: Table, name: string): (r: Option<nat>)
    requires t.Valid()
    ensures r.Some? ==> r.value < t.count && Named(t.slots[r.value], name)
  {
    if name == "" then None else FirstNamed(t.slots, name, 0, t.count)
  }

  function JobOf(s: Slot): (r: Option<Job>) {
    if s.entry.Some? then s.entry.value.job else None
  }

  function StackOf(s: Slot): (r: nat) {
    if JobOf(s).Some? then JobOf(s).value.stack else 0
  }

  // ---------------------------------------------------------------- generations

  function NextGeneration(g: uint32): (r: uint32) {
    var bumped := (g + 1) % 0x1_0000_0000;
    if bumped == 0 then 1 else bumped
  }

  // ---------------------------------------------------------------- solar_os_jobs_start

  /** The call comes from inside this slot's own event callback. */
  predicate FromOwnCallback(s: Slot, task: Task) {
    s.refs != 0 && s.callbackTask == Some(task)
  }

  predicate StartAllowed(s: Slot, task: Task) {
    !s.busy && JobOf(s).Some? && !FromOwnCallback(s, task)
  }

  function StartClaimed(s: Slot): (r: Slot) {
    s.(busy := true, pending := None, generation := NextGeneration(s.generation), state := Stopped)
  }

  /** The re-check every holder makes before it publishes. */
  predicate HeldUnder(s: Slot, g: uint32) {
    s.generation == g && s.busy
  }

  function StartQueued(s: Slot, b: Block): (r: Slot) {
    s.(pending := Some(b), state := Waiting, busy := false, ticks := NO_TICKS)
  }

  function StartConcluded(s: Slot, ret: Ret): (r: Slot) {
    s.(state := if ret == Success then Running else Failed, busy := false, ticks := NO_TICKS)
  }

  // ---------------------------------------------------------------- solar_os_jobs_stop

  predicate StopAllowed(s: Slot, shutdown: bool) {
    !s.busy && !(shutdown && s.refs != 0)
  }

  function StartCancelled(s: Slot): (r: Slot) {
    s.(pending := None, state := Stopped)
  }

  function StopClaimed(s: Slot, task: Task): (r: Slot) {
    s.(busy := true, stopAfter := FromOwnCallback(s, task),
       generation := NextGeneration(s.generation), state := Stopped)
  }

  function LifecycleReleased(s: Slot): (r: Slot) {
    s.(busy := false)
  }

  // ---------------------------------------------------------------- solar_os_jobs_mark_stopped

  predicate MarkAllowed(s: Slot, g: uint32) {
    g != 0 && s.generation == g && !s.busy
  }

  function Marked(s: Slot): (r: Slot) {
    s.(state := Stopped)
  }

  // ---------------------------------------------------------------- job_retry_pending_start

  predicate Retryable(s: Slot) {
    s.state == Waiting && !s.busy && s.pending.Some? && JobOf(s).Some?
  }

  predicate RetryStill(s: Slot, b: Block, g: uint32) {
    Retryable(s) && s.generation == g && s.pending == Some(b)
  }

  function RetryClaimed(s: Slot): (r: Slot) {
    s.(busy := true)
  }

  predicate RetryPublishable(s: Slot, b: Block, g: uint32) {
    HeldUnder(s, g) && s.state == Waiting && s.pending == Some(b)
  }

  /** The start stays queued only when memory ran short again. */
  function RetryConcluded(s: Slot, ret: Ret): (r: Slot) {
    if ret == NoMem then s.(busy := false)
    else s.(busy := false, pending := None, state := if ret == Success then Running else Failed)
  }

  // ---------------------------------------------------------------- solar_os_jobs_tick

  /** solar_os_tick_due for the job of a slot. */
  predicate TickDue(ticks: Ticks, job: Job, now: uint32) {
    Scheduler.Due(ticks.dispatches, ticks.last,
                  Scheduler.Interval(job.interval, Scheduler.INTERVAL_DEFAULT_MS), now)
  }

  predicate Dispatchable(s: Slot, now: uint32) {
    s.state == Running && !s.busy && JobOf(s).Some? && JobOf(s).value.hasEvent && TickDue(s.ticks, JobOf(s).value, now)
  }

  function Dispatched(s: Slot, task: Task, now: uint32): (r: Slot) {
    s.(refs := s.refs + 1, callbackTask := Some(task), ticks := s.ticks.(last := now))
  }

  /** The last reference is gone and the callback asked for a stop on its way. */
  predicate InheritsStop(s: Slot) {
    s.refs <= 1 && s.stopAfter && s.busy && s.state == Stopped
  }

  /** A dispatch under generation `g` counts if the job still runs under it. */
  function Ticked(s: Slot, g: uint32): (r: Ticks) {
    if s.generation == g && s.state == Running then s.ticks.(dispatches := Scheduler.Add32(s.ticks.dispatches, 1))
    else s.ticks
  }

  function Returned(s: Slot, g: uint32): (r: Slot) {
    var t := s.(ticks := Ticked(s, g));
    if s.refs <= 1 then t.(refs := 0, callbackTask := None, stopAfter := s.stopAfter && !InheritsStop(s))
    else t.(refs := s.refs - 1)
  }

  // ---------------------------------------------------------------- dynamic registration

  datatype Answer = Accepted | NotFound | InvalidArg | InvalidState | NoSlot

  /** The first free slot from `from` on; the length when there is none. */
  function FirstFree(slots: seq<Slot>, from: nat): (r: nat)
    requires from <= |slots|
    ensures from <= r <= |slots|
    ensures r < |slots| ==> slots[r].entry.None?
    ensures forall k :: from <= k < r ==> slots[k].entry.Some?
    decreases |slots| - from
  {
    if from == |slots| || slots[from].entry.None? then from else FirstFree(slots, from + 1)
  }

  function Registered(name: string, job: Job): (r: Slot) {
    BLANK.(entry := Some(Entry(name, Some(job))), dynamic := true)
  }

  /** The answer to a registration with or without a summary. */
  function RegisterAnswer(t: Table, name: string, summary: bool, job: Job): (r: Answer)
    requires t.Valid()
  {
    if name == "" || !summary || name != job.name || !job.hasStart then InvalidArg
    else if IndexByName(t, name).Some? then InvalidState
    else if FirstFree(t.slots, t.statics) == |t.slots| then NoSlot
    else Accepted
  }

  function Register(t: Table, name: string, job: Job): (r: Table)
    requires t.Valid() && FirstFree(t.slots, t.statics) < |t.slots|
    ensures r.Valid()
  {
    var i := FirstFree(t.slots, t.statics);
    Table(t.slots[i := Registered(name, job)], if i >= t.count then i + 1 else t.count, t.statics)
  }

  predicate Removable(s: Slot) {
    s.state == Stopped && !s.busy && s.refs == 0 && s.pending.None?
  }

  function UnregisterAnswer(t: Table, name: string, job: Job): (r: Answer)
    requires t.Valid()
  {
    match IndexByName(t, name)
    case None => NotFound
    case Some(i) =>
      if !t.slots[i].dynamic || JobOf(t.slots[i]) != Some(job) then InvalidArg
      else if !Removable(t.slots[i]) then InvalidState
      else Accepted
  }

  /** Dropping trailing free dynamic slots from the scanned range. */
  function Trimmed(slots: seq<Slot>, count: nat, statics: nat): (r: nat)
    requires statics <= count <= |slots|
    ensures statics <= r <= count
    ensures forall k :: r <= k < count ==> slots[k].entry.None?
    ensures r > statics ==> slots[r - 1].entry.Some?
  {
    if count > statics && slots[count - 1].entry.None? then Trimmed(slots, count - 1, statics) else count
  }

  function Unregister(t: Table, name: string, job: Job): (r: Table)
    requires t.Valid() && UnregisterAnswer(t, name, job) == Accepted
    ensures r.Valid()
  {
    var slots := t.slots[IndexByName(t, name).value := BLANK];
    Table(slots, Trimmed(slots, t.count, t.statics), t.statics)
  }
}
