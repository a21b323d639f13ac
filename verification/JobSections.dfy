/**
 The critical sections of src/solar_os_jobs.c that change the registry, as values: what each does to the table. The
 protocol's steps and the methods of the registry are both stated by them.
 */
module JobSections {
  import opened Wrappers
  import opened Words
  import opened JobTable

  datatype Section =
    | Observe
    | BeginStart(name: string, task: Task)
    | PublishStart(index: nat, generation: uint32, spare: Option<Block>, ret: Ret)
    | BeginStop(name: string, task: Task, shutdown: bool)
    | CompleteStop(index: nat, generation: uint32)
    | MarkStopped(name: string, generation: uint32)
    | BeginRetry(index: nat, block: Block, generation: uint32)
    | PublishRetry(index: nat, block: Block, generation: uint32, ret: Ret)
    | BeginEvent(index: nat, task: Task, now: uint32)
    | EndEvent(index: nat, generation: uint32)
    | AddJob(name: string, summary: bool, job: Job)
    | RemoveJob(name: string, job: Job)
  {
    /** A slot that the section addresses by its index is one of `n`. */
    predicate Fits(n: nat) {
      PublishStart? || CompleteStop? || BeginRetry? || PublishRetry? || BeginEvent? || EndEvent? ==> index < n
    }
  }

  function With(t: Table, i: nat, sl: Slot): (r: Table)
    requires i < |t.slots|
  {
    t.(slots := t.slots[i := sl])
  }

  /** The slot that a section addressed by index leaves. */
  function ActSlot(sl: Slot, s: Section): (r: Slot) {
    match s
    case PublishStart(_, g, spare, ret) =>
      if !HeldUnder(sl, g) then sl else if spare.Some? then StartQueued(sl, spare.value) else StartConcluded(sl, ret)
    case CompleteStop(_, g) => if HeldUnder(sl, g) then LifecycleReleased(sl) else sl
    case BeginRetry(_, b, g) => if RetryStill(sl, b, g) then RetryClaimed(sl) else sl
    case PublishRetry(_, b, g, ret) => if RetryPublishable(sl, b, g) then RetryConcluded(sl, ret) else sl
    case BeginEvent(_, task, now) => if Dispatchable(sl, now) then Dispatched(sl, task, now) else sl
    case EndEvent(_, g) => Returned(sl, g)
    case _ => sl
  }

  /** The slot that a section leaves of the job it found by name. */
  function ActNamed(sl: Slot, s: Section): (r: Slot) {
    match s
    case BeginStart(_, task) => if StartAllowed(sl, task) then StartClaimed(sl) else sl
    case BeginStop(_, task, shutdown) =>
      if !StopAllowed(sl, shutdown) then sl else if sl.state != Running then StartCancelled(sl)
          else StopClaimed(sl, task)
    case MarkStopped(_, g) => if MarkAllowed(sl, g) then Marked(sl) else sl
    case _ => sl
  }

  /** The table that a section leaves. */
  function Act(t: Table, s: Section): (r: Table)
    requires t.Valid() && s.Fits(|t.slots|)
    ensures r.Valid() && |r.slots| == |t.slots| && r.statics == t.statics
  {
    if s.Observe? then t
    else if s.AddJob? then
      if RegisterAnswer(t, s.name, s.summary, s.job) == Accepted then Register(t, s.name, s.job) else t
    else if s.RemoveJob? then
      if UnregisterAnswer(t, s.name, s.job) == Accepted then Unregister(t, s.name, s.job) else t
    else if s.BeginStart? || s.BeginStop? || s.MarkStopped? then
      var found := IndexByName(t, s.name);
      if found.None? then t else With(t, found.value, ActNamed(t.slots[found.value], s))
    else With(t, s.index, ActSlot(t.slots[s.index], s))
  }

  /** One section after the other. */
  function ActAll(t: Table, ss: seq<Section>): (r: Table)
    requires t.Valid() && forall s :: s in ss ==> s.Fits(|t.slots|)
    ensures r.Valid() && |r.slots| == |t.slots|
  {
    if ss == [] then t else Act(ActAll(t, ss[..|ss| - 1]), ss[|ss| - 1])
  }
}
