/** The waiting counter against the jobs that are really queued. */
module JobCounts {
  import opened Wrappers
  import opened Words
  import opened JobTable
  import opened JobProtocol
  import opened JobInvariant
  import opened JobMemory

  /** The call took a queued block whose end it has not counted yet. */
  predicate OwesNote(pc: Pc) {
    Taken(pc).Some? || pc.StartNote? || pc.StopNote?
  }

  function Queued(slots: seq<Slot>): (r: set<nat>) {
    set i | 0 <= i < |slots| && slots[i].pending.Some?
  }

  /** Calls that took a queued start and still have to count its end. */
  function Owing(calls: map<CallId, Call>): (r: set<CallId>) {
    set id | id in calls && OwesNote(calls[id].pc)
  }

  /** Calls that queued a start and still have to count it. */
  function Unnoted(calls: map<CallId, Call>): (r: set<CallId>) {
    set id | id in calls && calls[id].pc.QueueNote?
  }

  function One(b: bool): (r: nat) {
    if b then 1 else 0
  }

  function TickerOwes(pc: TickerPc): (r: nat) {
    One(pc.RetryFree? || pc.RetryNote?)
  }

  /** What the waiting counter would be if every note were taken at once. */
  function Tally(c: Core): (r: int) {
    |Queued(c.table.slots)| + |Owing(c.calls)| + TickerOwes(c.ticker.pc) - |Unnoted(c.calls)|
  }

  ghost predicate Counted(c: Core, m: Memory) {
    && m.waiting == Tally(c) + m.lost
    && m.waiting + m.successes + m.cancellations == m.queueNotes + m.lost
  }

  function NoteWeight(e: Effect): (r: int) {
    match e case NoteQueued => 1 case NoteFinished(_) => -1 case _ => 0
  }

  function PcWeight(pc: Pc): (r: int) {
    One(OwesNote(pc)) - One(pc.QueueNote?)
  }

  lemma SetMoves<T>(s: set<T>, r: set<T>, x: T, now: bool)
    requires r == (s - {x}) + (if now then {x} else {})
    ensures |r| == |s| - One(x in s) + One(now)
  {
    if x in s { assert s == (s - {x}) + {x}; } else { assert s == s - {x}; }
  }

  lemma QueuedPut(slots: seq<Slot>, i: nat, sl: Slot)
    requires i < |slots|
    ensures |Queued(slots[i := sl])| == |Queued(slots)| - One(slots[i].pending.Some?) + One(sl.pending.Some?)
  {
    var before, after := Queued(slots), Queued(slots[i := sl]);
    forall j ensures j in after <==> j in (before - {i}) + (if sl.pending.Some? then {i} else {}) {
    }
    SetMoves(before, after, i, sl.pending.Some?);
  }

  lemma OwingPut(calls: map<CallId, Call>, id: CallId, call: Call)
    ensures |Owing(calls[id := call])|
         == |Owing(calls)| - One(id in calls && OwesNote(calls[id].pc)) + One(OwesNote(call.pc))
  {
    SetMoves(Owing(calls), Owing(calls[id := call]), id, OwesNote(call.pc));
  }

  lemma UnnotedPut(calls: map<CallId, Call>, id: CallId, call: Call)
    ensures |Unnoted(calls[id := call])|
         == |Unnoted(calls)| - One(id in calls && calls[id].pc.QueueNote?) + One(call.pc.QueueNote?)
  {
    SetMoves(Unnoted(calls), Unnoted(calls[id := call]), id, call.pc.QueueNote?);
  }

  lemma AtTally(c: Core, id: CallId, pc: Pc)
    requires id in c.calls
    ensures Tally(At(c, id, pc)) == Tally(c) + PcWeight(pc) - PcWeight(c.calls[id].pc)
  {
    OwingPut(c.calls, id, c.calls[id].(pc := pc));
    UnnotedPut(c.calls, id, c.calls[id].(pc := pc));
  }

  lemma NewCallTally(c: Core, id: CallId, call: Call)
    requires id !in c.calls && PcWeight(call.pc) == 0
    ensures Tally(c.(calls := c.calls[id := call])) == Tally(c)
  {
    OwingPut(c.calls, id, call);
    UnnotedPut(c.calls, id, call);
  }

  lemma TouchTally(c: Core, i: nat, sl: Slot, tr: Track, id: CallId, pc: Pc)
    requires i < |c.table.slots| && i < |c.track| && id in c.calls
    ensures Tally(Touch(c, i, sl, tr, id, pc)) == Tally(c) + PcWeight(pc) - PcWeight(c.calls[id].pc)
      + One(sl.pending.Some?) - One(c.table.slots[i].pending.Some?)
  {
    QueuedPut(c.table.slots, i, sl);
    AtTally(Put(c, i, sl, tr), id, pc);
  }

  // ---------------------------------------------------------------- each step

  lemma StartTakenTally(c: Core, id: CallId, i: nat, st: Start)
    requires Shaped(c) && id in c.calls && c.calls[id].pc.StartClaiming? && i < |c.table.slots|
    requires st.taken == c.table.slots[i].pending
    ensures var sl := c.table.slots[i];
            Tally(Touch(c, i, StartClaimed(sl), ClaimTrack(c.track[i], ByCall(id)), id,
                StartDrain(st, sl.state == Running)))
            == Tally(c)
  {
    var sl := c.table.slots[i];
    TouchTally(c, i, StartClaimed(sl), ClaimTrack(c.track[i], ByCall(id)), id, StartDrain(st, sl.state == Running));
  }

  lemma StartClaimTally(c: Core, id: CallId, name: string, stack: nat, block: Option<Block>)
    requires Shaped(c) && id in c.calls && c.calls[id].pc == StartClaiming(name, stack, block)
    ensures var (r, e) := StepStartClaim(c, id, name, stack, block); Tally(r) == Tally(c) + NoteWeight(e)
  {
    var found := IndexByName(c.table, name);
    if found.None? || !StartAllowed(c.table.slots[found.value], c.calls[id].task) {
      AtTally(c, id, DiscardOrDone(block));
    } else {
      var i, sl := found.value, c.table.slots[found.value];
      StartTakenTally(c, id, i, Start(i, NextGeneration(sl.generation), JobOf(sl).value, stack, sl.pending, block));
    }
  }

  lemma CancelTally(c: Core, id: CallId, i: nat)
    requires Shaped(c) && id in c.calls && PcWeight(c.calls[id].pc) == 0 && i < |c.table.slots|
    ensures Tally(CancelQueued(c, id, i).0) == Tally(c)
  {
    var sl := c.table.slots[i];
    TouchTally(c, i, StartCancelled(sl), c.track[i], id,
               if sl.pending.Some? then StopFree(sl.pending.value) else Done);
  }

  lemma StopRunningTally(c: Core, id: CallId, i: nat)
    requires Shaped(c) && id in c.calls && PcWeight(c.calls[id].pc) == 0 && i < |c.table.slots|
    ensures Tally(StopRunning(c, id, i)) == Tally(c)
  {
    var r := StopRunning(c, id, i);
    TouchTally(c, i, r.table.slots[i], r.track[i], id, r.calls[id].pc);
  }

  lemma StopClaimTally(c: Core, id: CallId, name: string)
    requires Shaped(c) && id in c.calls && c.calls[id].pc == StopClaiming(name)
    ensures var (r, e) := StepStopClaim(c, id, name); Tally(r) == Tally(c) + NoteWeight(e)
  {
    var found := IndexByName(c.table, name);
    if found.None? || !StopAllowed(c.table.slots[found.value], c.shutdown) {
      AtTally(c, id, Done);
    } else if c.table.slots[found.value].state == Running {
      StopRunningTally(c, id, found.value);
    } else {
      CancelTally(c, id, found.value);
    }
  }

  lemma PublishingTally(c: Core, id: CallId, st: Start, ret: Ret)
    requires Lifecycles(c) && id in c.calls
    requires c.calls[id].pc == StartQueue(st) || c.calls[id].pc == StartPublish(st, ret)
    ensures c.calls[id].pc.StartQueue? ==> var (r, e) := StepQueue(c, id, st); Tally(r) == Tally(c) + NoteWeight(e)
    ensures c.calls[id].pc.StartPublish? ==>
              var (r, e) := StepPublish(c, id, st, ret); Tally(r) == Tally(c) + NoteWeight(e)
  {
    var i, sl := st.index, c.table.slots[st.index];
    assert CallOk(c, id) && CellOk(c, i);
    HolderRechecks(c, id);
    if st.spare.Some? {
      TouchTally(c, i, StartQueued(sl, st.spare.value), c.track[i].(holder := Nobody), id, QueueNote);
    } else {
      TouchTally(c, i, StartConcluded(sl, ret), ConcludeTrack(c.track[i], ret), id, Done);
    }
  }

  lemma DrainTally(c: Core, id: CallId, i: nat, stop: bool, pc: Pc)
    requires Shaped(c) && id in c.calls && i < |c.table.slots| && PcWeight(pc) == PcWeight(c.calls[id].pc)
    ensures Tally(StepDrain(c, id, i, stop, pc)) == Tally(c)
  {
    TouchTally(c, i, c.table.slots[i], if stop then StopTrack(c.track[i]) else c.track[i], id, pc);
  }

  lemma CompleteTally(c: Core, id: CallId, i: nat, g: uint32)
    requires Lifecycles(c) && id in c.calls && c.calls[id].pc == StopComplete(i, g)
    ensures Tally(StepComplete(c, id, i, g)) == Tally(c)
  {
    HolderRechecks(c, id);
    TouchTally(c, i, LifecycleReleased(c.table.slots[i]), c.track[i].(holder := Nobody), id, Done);
  }

  lemma PlainWeights(c: Core, live: set<Block>, id: CallId, e: Choice)
    requires Shaped(c) && id in c.calls && Plain(c.calls[id].pc) && WellStaged(c.calls[id].pc)
    ensures var (r, f) := StepCall(c, live, id, e);
            id in r.calls && PcWeight(r.calls[id].pc) == PcWeight(c.calls[id].pc) + NoteWeight(f)
  {
  }

  lemma CallTally(c: Core, live: set<Block>, id: CallId, e: Choice)
    requires Lifecycles(c) && id in c.calls
    ensures var (r, f) := StepCall(c, live, id, e); Tally(r) == Tally(c) + NoteWeight(f)
  {
    assert CallOk(c, id);
    var pc := c.calls[id].pc;
    if Plain(pc) {
      PlainMoves(c, live, id, e);
      PlainWeights(c, live, id, e);
      AtTally(c, id, StepCall(c, live, id, e).0.calls[id].pc);
    } else {
      match pc
      case StartClaiming(name, stack, block) => StartClaimTally(c, id, name, stack, block);
      case StartQueue(st) => PublishingTally(c, id, st, Success);
      case StartPublish(st, ret) => PublishingTally(c, id, st, ret);
      case StopClaiming(name) => StopClaimTally(c, id, name);
      case StartDrain(st, was) =>
        DrainTally(c, id, st.index, was, if was then StartStopping(st) else StartFree(st));
      case StopDrain(i, g) => DrainTally(c, id, i, true, StopCallback(i, g));
      case StopComplete(i, g) => CompleteTally(c, id, i, g);
      case Done =>
    }
  }

  lemma TickerWeights(c: Core, e: Choice)
    requires Shaped(c) && TickerOk(c)
    requires c.ticker.at < |c.table.slots| ==> CellOk(c, c.ticker.at)
    ensures var (r, f) := StepTicker(c, e);
            TickerOwes(r.ticker.pc) == TickerOwes(c.ticker.pc) + NoteWeight(f) + One(f.Give?)
  {
  }

  lemma TickerTally(c: Core, e: Choice)
    requires Lifecycles(c)
    ensures var (r, f) := StepTicker(c, e); Tally(r) == Tally(c) + NoteWeight(f)
  {
    var (r, f) := StepTicker(c, e);
    var i, slots := c.ticker.at, c.table.slots;
    if i < |slots| { assert CellOk(c, i); }
    TickerTrades(c, e);
    TickerWeights(c, e);
    if i < |slots| {
      QueuedPut(slots, i, r.table.slots[i]);
      assert slots[i := r.table.slots[i]] == r.table.slots;
    } else {
      assert slots == r.table.slots;
    }
  }

  /** The other events queue nothing and take nothing from a queue. */
  lemma OtherTally(c: Core, live: set<Block>, e: Event)
    requires Lifecycles(c) && (e.Mark? || e.RegisterJob? || e.UnregisterJob? || e.Shutdown?)
    ensures Tally(StepCore(c, live, e).0) == Tally(c)
  {
    var r := StepCore(c, live, e).0;
    if e.RegisterJob? && RegisterAnswer(c.table, e.name, e.summary, e.job) == Accepted {
      assert CellOk(c, FirstFree(c.table.slots, c.table.statics));
    }
    assert Queued(r.table.slots) == Queued(c.table.slots);
  }

  lemma StepTally(c: Core, live: set<Block>, e: Event)
    requires Lifecycles(c)
    ensures var (r, f) := StepCore(c, live, e); Tally(r) == Tally(c) + NoteWeight(f)
  {
    match e
    case Proceed(id, ch) => if id in c.calls { CallTally(c, live, id, ch); }
    case TickerProceed(ch) => TickerTally(c, ch);
    case CallStart(id, task, name) => if id !in c.calls { NewCallTally(c, id, Call(task, StartAdmit(name))); }
    case CallStop(id, task, name) => if id !in c.calls { NewCallTally(c, id, Call(task, StopClaiming(name))); }
    case _ => OtherTally(c, live, e);
  }

  /** Only a call that owes a note, or the ticker when it does, notes the end of a wait. */
  lemma FinishingOwes(c: Core, live: set<Block>, e: Event)
    requires Shaped(c) && StepCore(c, live, e).1.NoteFinished?
    ensures |Owing(c.calls)| + TickerOwes(c.ticker.pc) > 0
  {
    match e
    case Proceed(id, ch) => assert id in Owing(c.calls);
    case TickerProceed(ch) =>
    case _ =>
  }

  lemma NoteKeepsCounted(c: Core, r: Core, m: Memory, f: Effect)
    requires Counted(c, m) && Tally(r) == Tally(c) + NoteWeight(f)
    ensures Counted(r, Apply(m, f))
  {
  }

  /** A decrement can be lost only while some start is queued but not counted yet. */
  lemma StepKeepsCounted(s: Sys, e: Event)
    requires Lifecycles(s.core) && Counted(s.core, s.memory)
    ensures Counted(Step(s, e).core, Step(s, e).memory)
    ensures Unnoted(s.core.calls) == {} ==> Step(s, e).memory.lost == s.memory.lost
  {
    StepTally(s.core, s.memory.live, e);
    var (r, f) := StepCore(s.core, s.memory.live, e);
    NoteKeepsCounted(s.core, r, s.memory, f);
    if f.NoteFinished? && Unnoted(s.core.calls) == {} {
      FinishingOwes(s.core, s.memory.live, e);
    }
  }
}
