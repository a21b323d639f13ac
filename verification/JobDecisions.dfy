/**
 What each decision of src/solar_os_jobs.c depends on, and what state it leaves a job in. The conditions are given by
 the fields that the code tests, so that a job is refused, queued, started, failed or stopped for no other reason.
 */
module JobDecisions {
  import opened Wrappers
  import opened JobTable
  import opened JobProtocol
  import opened JobInvariant
  import opened JobRuns
  import opened JobAccounts

  // ---------------------------------------------------------------- why a job changes its state

  /** A start of job `i` is being concluded with this answer: by a call, or by the ticker for a queued start. */
  predicate Concludes(c: Core, e: Event, i: nat, ret: Ret) {
    match e
    case Proceed(id, _) =>
      && id in c.calls && c.calls[id].pc.StartPublish? && c.calls[id].pc.st.index == i
      && c.calls[id].pc.st.spare.None? && c.calls[id].pc.ret == ret
    case TickerProceed(_) => c.ticker.pc.RetryPublish? && c.ticker.at == i && c.ticker.pc.ret == ret
    case _ => false
  }

  /** A call puts its start of job `i` into the queue: memory was short, or its callback found it short. */
  predicate Queues(c: Core, e: Event, i: nat) {
    match e
    case Proceed(id, _) =>
      && id in c.calls && (c.calls[id].pc.StartQueue? || c.calls[id].pc.StartPublish?)
      && c.calls[id].pc.st.index == i && c.calls[id].pc.st.spare.Some?
    case _ => false
  }

  /** From `c` to `r` job `i` comes into this state. */
  predicate Becomes(c: Core, r: Core, i: nat, state: JobState) {
    i < |c.table.slots| && i < |r.table.slots| && c.table.slots[i].state != state && r.table.slots[i].state == state
  }

  /**
   A job runs exactly from a start that succeeded, fails exactly from one that was answered with an error, and waits
   exactly from one that was queued.
   */
  predicate StateChangesFor(c: Core, r: Core, e: Event, i: nat) {
    && (Becomes(c, r, i, Running) <==> Concludes(c, e, i, Success))
    && (Becomes(c, r, i, Waiting) <==> Queues(c, e, i))
    && (Becomes(c, r, i, Failed) <==>
          Concludes(c, e, i, OtherError) || (e.Proceed? && Concludes(c, e, i, NoMem)))
  }

  lemma ClaimStates(c: Core, id: CallId, name: string, stack: nat, block: Option<Block>, i: nat)
    requires Shaped(c) && id in c.calls && i < |c.table.slots|
    ensures var r := StepStartClaim(c, id, name, stack, block).0;
            i < |r.table.slots| && r.table.slots[i].state in {c.table.slots[i].state, Stopped}
  {
  }

  lemma StopStates(c: Core, id: CallId, name: string, i: nat)
    requires Shaped(c) && id in c.calls && i < |c.table.slots|
    ensures var r := StepStopClaim(c, id, name).0;
            i < |r.table.slots| && r.table.slots[i].state in {c.table.slots[i].state, Stopped}
  {
  }

  lemma QueueStates(c: Core, id: CallId, st: Start, ch: Choice, i: nat)
    requires Lifecycles(c) && id in c.calls && c.calls[id].pc == StartQueue(st) && i < |c.table.slots|
    ensures StateChangesFor(c, StepQueue(c, id, st).0, Proceed(id, ch), i)
  {
    assert CallOk(c, id) && CellOk(c, st.index);
    HolderRechecks(c, id);
  }

  lemma PublishStates(c: Core, id: CallId, st: Start, ret: Ret, ch: Choice, i: nat)
    requires Lifecycles(c) && id in c.calls && c.calls[id].pc == StartPublish(st, ret) && i < |c.table.slots|
    ensures StateChangesFor(c, StepPublish(c, id, st, ret).0, Proceed(id, ch), i)
  {
    assert CallOk(c, id) && CellOk(c, st.index);
    HolderRechecks(c, id);
  }

  /** The points of a call at which no state changes. */
  predicate Stateless(pc: Pc) {
    Plain(pc) || Draining(pc) || pc.StopComplete? || pc.Done?
  }

  lemma StatelessCalls(c: Core, live: set<Block>, id: CallId, ch: Choice, i: nat)
    requires Shaped(c) && id in c.calls && Stateless(c.calls[id].pc) && WellStaged(c.calls[id].pc)
            && i < |c.table.slots|
    ensures var r := StepCall(c, live, id, ch).0;
            i < |r.table.slots| && r.table.slots[i].state == c.table.slots[i].state
  {
    if Plain(c.calls[id].pc) {
      PlainMoves(c, live, id, ch);
    }
  }

  lemma CallStates(c: Core, live: set<Block>, id: CallId, ch: Choice, i: nat)
    requires Lifecycles(c) && id in c.calls && i < |c.table.slots|
    ensures StateChangesFor(c, StepCall(c, live, id, ch).0, Proceed(id, ch), i)
  {
    assert CallOk(c, id);
    match c.calls[id].pc
    case StartClaiming(name, stack, block) => ClaimStates(c, id, name, stack, block, i);
    case StopClaiming(name) => StopStates(c, id, name, i);
    case StartQueue(st) => QueueStates(c, id, st, ch, i);
    case StartPublish(st, ret) => PublishStates(c, id, st, ret, ch, i);
    case _ => StatelessCalls(c, live, id, ch, i);
  }

  lemma TickerStates(c: Core, ch: Choice, i: nat)
    requires Lifecycles(c) && i < |c.table.slots|
    ensures StateChangesFor(c, StepTicker(c, ch).0, TickerProceed(ch), i)
  {
    if TickPlain(c.ticker.pc) {
      TickPlainStates(c, ch, i);
    } else {
      assert CellOk(c, c.ticker.at);
      TickSlotStates(c, ch, i);
    }
  }

  lemma TickPlainStates(c: Core, ch: Choice, i: nat)
    requires Shaped(c) && i < |c.table.slots| && TickPlain(c.ticker.pc)
    ensures StateChangesFor(c, StepTicker(c, ch).0, TickerProceed(ch), i)
  {
  }

  lemma TickSlotStates(c: Core, ch: Choice, i: nat)
    requires Lifecycles(c) && i < |c.table.slots| && !TickPlain(c.ticker.pc) && CellOk(c, c.ticker.at)
    ensures StateChangesFor(c, StepTicker(c, ch).0, TickerProceed(ch), i)
  {
  }

  lemma OtherStates(c: Core, live: set<Block>, e: Event, i: nat)
    requires Lifecycles(c) && i < |c.table.slots| && !e.Proceed? && !e.TickerProceed?
    ensures StateChangesFor(c, StepCore(c, live, e).0, e, i)
  {
    match e
    case Mark(name, g) =>
    case RegisterJob(name, summary, job) => RegisterStates(c, name, summary, job, i);
    case UnregisterJob(name, job) => RegisterStates(c, name, true, job, i);
    case _ =>
  }

  lemma RegisterStates(c: Core, name: string, summary: bool, job: Job, i: nat)
    requires Lifecycles(c) && i < |c.table.slots|
    ensures StepRegister(c, name, summary, job).table.slots[i].state == c.table.slots[i].state
    ensures StepUnregister(c, name, job).table.slots[i].state == c.table.slots[i].state
  {
    assert CellOk(c, i);
  }

  /** Whatever the event: why a job comes to run, to wait or to have failed. */
  lemma EveryStateHasItsReason(s: Sys, e: Event, i: nat)
    requires Inv(s) && i < |s.core.table.slots|
    ensures StateChangesFor(s.core, Step(s, e).core, e, i)
  {
    match e
    case Proceed(id, ch) => if id in s.core.calls { CallStates(s.core, s.memory.live, id, ch, i); }
    case TickerProceed(ch) => TickerStates(s.core, ch, i);
    case _ => OtherStates(s.core, s.memory.live, e, i);
  }

  // ---------------------------------------------------------------- why a job is stopped

  /** Slot `i` is the first one in use that carries the name. */
  ghost predicate Carries(c: Core, name: string, i: nat)
    requires Shaped(c)
  {
    && name != "" && i < c.table.count && Named(c.table.slots[i], name)
    && forall k :: 0 <= k < i ==> !Named(c.table.slots[k], name)
  }

  /**
   The event takes job `i` out of its state: a start or a stop that is not refused, or a completion of this
   generation.
   */
  ghost predicate Halts(c: Core, e: Event, i: nat)
    requires Shaped(c) && i < |c.table.slots|
  {
    var sl := c.table.slots[i];
    match e
    case Proceed(id, _) =>
      && id in c.calls && !sl.busy
      && var pc := c.calls[id].pc;
         || (pc.StartClaiming? && Carries(c, pc.name, i) && JobOf(sl).Some?
             && !(sl.refs != 0 && sl.callbackTask == Some(c.calls[id].task)))
         || (pc.StopClaiming? && Carries(c, pc.name, i) && !(c.shutdown && sl.refs != 0))
    case Mark(name, g) => Carries(c, name, i) && !sl.busy && g != 0 && g == sl.generation
    case _ => false
  }

  lemma CarriesIsFound(c: Core, name: string, i: nat)
    requires Shaped(c) && i < |c.table.slots|
    ensures Carries(c, name, i) <==> IndexByName(c.table, name) == Some(i)
  {
  }

  /** A job comes to a stop only so, and every such event leaves it stopped. */
  lemma EveryStopHasItsReason(s: Sys, e: Event, i: nat)
    requires Inv(s) && i < |s.core.table.slots|
    ensures Becomes(s.core, Step(s, e).core, i, Stopped) ==> Halts(s.core, e, i)
    ensures Halts(s.core, e, i) ==> Step(s, e).core.table.slots[i].state == Stopped
  {
    var c := s.core;
    match e
    case Proceed(id, ch) => if id in c.calls { CallHalts(c, s.memory.live, id, ch, i); }
    case TickerProceed(ch) => TickerStates(c, ch, i); TickerHaltsNothing(c, ch, i);
    case Mark(name, g) => CarriesIsFound(c, name, i);
    case RegisterJob(name, summary, job) => RegisterStates(c, name, summary, job, i);
    case UnregisterJob(name, job) => RegisterStates(c, name, true, job, i);
    case _ =>
  }

  lemma CallHalts(c: Core, live: set<Block>, id: CallId, ch: Choice, i: nat)
    requires Lifecycles(c) && id in c.calls && i < |c.table.slots|
    ensures var r := StepCall(c, live, id, ch).0;
            && (Becomes(c, r, i, Stopped) ==> Halts(c, Proceed(id, ch), i))
            && (Halts(c, Proceed(id, ch), i) ==> i < |r.table.slots| && r.table.slots[i].state == Stopped)
  {
    assert CallOk(c, id);
    match c.calls[id].pc
    case StartClaiming(name, stack, block) =>
      CarriesIsFound(c, name, i);
      StartHalts(c, id, name, stack, block, i);
    case StopClaiming(name) =>
      CarriesIsFound(c, name, i);
      StopHalts(c, id, name, i);
    case StartQueue(st) => PublishingHaltsNothing(c, id, st, Success, i);
    case StartPublish(st, ret) => PublishingHaltsNothing(c, id, st, ret, i);
    case _ => StatelessCalls(c, live, id, ch, i);
  }

  lemma StartHalts(c: Core, id: CallId, name: string, stack: nat, block: Option<Block>, i: nat)
    requires Shaped(c) && id in c.calls && i < |c.table.slots|
    ensures var r, sl := StepStartClaim(c, id, name, stack, block).0, c.table.slots[i];
            i < |r.table.slots|
            && if IndexByName(c.table, name) == Some(i) && !sl.busy && JobOf(sl).Some?
                  && !(sl.refs != 0 && sl.callbackTask == Some(c.calls[id].task))
               then r.table.slots[i].state == Stopped else r.table.slots[i] == sl
  {
  }

  lemma PublishingHaltsNothing(c: Core, id: CallId, st: Start, ret: Ret, i: nat)
    requires Lifecycles(c) && id in c.calls && i < |c.table.slots|
    requires c.calls[id].pc == StartQueue(st) || c.calls[id].pc == StartPublish(st, ret)
    ensures c.calls[id].pc.StartQueue? ==> !Becomes(c, StepQueue(c, id, st).0, i, Stopped)
    ensures c.calls[id].pc.StartPublish? ==> !Becomes(c, StepPublish(c, id, st, ret).0, i, Stopped)
  {
    assert CallOk(c, id) && CellOk(c, st.index);
  }

  lemma StopHalts(c: Core, id: CallId, name: string, i: nat)
    requires Shaped(c) && id in c.calls && i < |c.table.slots|
    ensures var r, sl := StepStopClaim(c, id, name).0, c.table.slots[i];
            i < |r.table.slots|
            && if IndexByName(c.table, name) == Some(i) && !sl.busy && !(c.shutdown && sl.refs != 0)
               then r.table.slots[i].state == Stopped else r.table.slots[i] == sl
  {
  }

  lemma TickerHaltsNothing(c: Core, ch: Choice, i: nat)
    requires Lifecycles(c) && i < |c.table.slots|
    ensures !Becomes(c, StepTicker(c, ch).0, i, Stopped)
  {
    if !TickPlain(c.ticker.pc) {
      assert CellOk(c, c.ticker.at);
    }
  }

  // ---------------------------------------------------------------- memory and callbacks

  /** Memory for a worker of this stack cannot be had now. */
  predicate Short(c: Core, stack: nat, ch: Choice) {
    stack > 0 && (c.shutdown || !ch.canCreate)
  }

  /** The heap has a block to give. */
  predicate Available(live: set<Block>, ch: Choice) {
    ch.block.Some? && ch.block.value !in live
  }

  /**
   A call sets up a queued start exactly when memory is short at its preflight, or its start callback comes back with a
   shortage although the job has a worker; without a block the first gives up and the second fails.
   */
  lemma QueuesWhenShort(c: Core, live: set<Block>, id: CallId, ch: Choice)
    requires Lifecycles(c) && id in c.calls
    ensures var pc, (r, f) := c.calls[id].pc, StepCall(c, live, id, ch);
            && id in r.calls
            && (f.Allocate? <==> Available(live, ch) && ((pc.StartPreflight? && Short(c, pc.stack, ch))
                                                         || (pc.StartCallback? && ch.ret == NoMem && pc.st.stack > 0)))
            && (pc.StartPreflight? ==> (r.calls[id].pc == Done <==> Short(c, pc.stack, ch) && !Available(live, ch)))
            && (pc.StartPreflight? && r.calls[id].pc != Done ==>
                  r.calls[id].pc == StartClaiming(pc.name, pc.stack, if f.Allocate? then Some(f.block) else None))
            && (pc.StartCallback? ==> r.calls[id].pc.StartPublish? && r.calls[id].pc.ret == ch.ret
                                      && r.calls[id].pc.st.spare == if f.Allocate? then Some(f.block) else None)
  {
    assert CallOk(c, id);
    match c.calls[id].pc
    case StartClaiming(name, stack, block) =>
    case StopClaiming(name) =>
    case StartQueue(st) =>
    case StartPublish(st, ret) =>
    case _ =>
  }

  /** The start read the worker stack of the job of that name, and is turned away if there is none of that name. */
  lemma AdmissionReads(c: Core, live: set<Block>, id: CallId, ch: Choice, i: nat)
    requires Shaped(c) && id in c.calls && c.calls[id].pc.StartAdmit? && i < |c.table.slots|
    ensures var name, r := c.calls[id].pc.name, StepCall(c, live, id, ch).0;
            && id in r.calls
            && (Carries(c, name, i) ==>
                  r.calls[id].pc == StartPreflight(name, if JobOf(c.table.slots[i]).Some?
                                                         then JobOf(c.table.slots[i]).value.stack else 0))
            && ((forall k :: 0 <= k < c.table.count ==> !Named(c.table.slots[k], name)) ==> r.calls[id].pc == Done)
  {
    CarriesIsFound(c, c.calls[id].pc.name, i);
  }

  /** A start callback is entered exactly by a start that queues nothing, of a job that has one. */
  lemma CallbackEntered(c: Core, live: set<Block>, id: CallId, ch: Choice)
    requires Lifecycles(c) && id in c.calls && (c.calls[id].pc.StartFree? || c.calls[id].pc.StartNote?)
    ensures var pc, r := c.calls[id].pc, StepCall(c, live, id, ch).0;
            && id in r.calls
            && (r.calls[id].pc.StartCallback? <==> pc.st.taken.None? && pc.st.spare.None? && pc.st.job.hasStart)
            && (r.calls[id].pc.StartQueue? <==> pc.st.taken.None? && pc.st.spare.Some?)
            && (r.calls[id].pc.StartPublish? ==> r.calls[id].pc.ret == Success)
  {
    assert CallOk(c, id);
  }

  /**
   The ticker retries a queued start only while it is still the one it saw, with memory for it, and not after
   shutdown.
   */
  lemma RetriedWhenPossible(c: Core, ch: Choice)
    requires Lifecycles(c) && c.ticker.at < |c.table.slots|
    ensures var tk, sl, next := c.ticker, c.table.slots[c.ticker.at], StepTicker(c, ch).0.ticker.pc;
            && (tk.pc.RetryPeek? ==>
                  (next.RetryCheck? <==> !c.shutdown && tk.at < c.table.count && sl.state == Waiting && !sl.busy
                                         && sl.pending.Some? && JobOf(sl).Some?)
                  && (next.RetryCheck? ==> sl.pending == Some(next.block) && sl.generation == next.generation))
            && (tk.pc.RetryCheck? ==>
                  (next.RetryClaim? <==> !c.shutdown && ch.canCreate)
                  && (next.RetryClaim? ==> next.block == tk.pc.block && next.generation == tk.pc.generation))
            && (tk.pc.RetryClaim? ==>
                  (next.RetryCallback? <==> sl.state == Waiting && !sl.busy && sl.pending == Some(tk.pc.block)
                                            && sl.generation == tk.pc.generation && JobOf(sl).Some?))
            && (tk.pc.RetryCallback? ==> next.RetryPublish? && next.ret == ch.ret)
            && (tk.pc.RetryFree? ==> next == RetryNote(tk.pc.launched))
  {
  }

  /** After a shutdown no start begins, no queued start is picked up, and no worker's start gets past its preflight. */
  lemma ShutdownStartsNothing(s: Sys, e: Event)
    requires Inv(s) && s.core.shutdown
    ensures Step(s, e).core.shutdown
    ensures e.CallStart? ==> Step(s, e) == s
    ensures e.TickerProceed? && !s.core.ticker.pc.RetryCheck? && !s.core.ticker.pc.RetryClaim? ==>
              !Step(s, e).core.ticker.pc.RetryCheck? && !Step(s, e).core.ticker.pc.RetryClaim?
    ensures e.TickerProceed? ==> !Step(s, e).core.ticker.pc.RetryClaim?
  {
    if e.Proceed? && e.id in s.core.calls {
      CallKeepsShutdown(s.core, s.memory.live, e.id, e.choice);
    }
  }

  lemma CallKeepsShutdown(c: Core, live: set<Block>, id: CallId, ch: Choice)
    requires Lifecycles(c) && id in c.calls
    ensures StepCall(c, live, id, ch).0.shutdown == c.shutdown
  {
    assert CallOk(c, id);
    if Plain(c.calls[id].pc) {
      PlainMoves(c, live, id, ch);
    }
  }
}
