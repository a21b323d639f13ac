/** Who owns each queued-start block, and what the waiting counter counts, in every reachable state. */
module JobMemory {
  import opened Wrappers
  import opened Words
  import opened JobTable
  import opened JobProtocol
  import opened JobInvariant

  function Just(b: Option<Block>): (r: set<Block>) {
    if b.Some? then {b.value} else {}
  }

  /** The blocks that only this call may free or publish. */
  function Blocks(pc: Pc): (r: set<Block>) {
    match pc
    case StartClaiming(_, _, b) => Just(b)
    case StartDrain(st, _) => Just(st.taken) + Just(st.spare)
    case StartStopping(st) => Just(st.taken) + Just(st.spare)
    case StartFree(st) => Just(st.taken) + Just(st.spare)
    case StartNote(st) => Just(st.spare)
    case StartQueue(st) => Just(st.spare)
    case StartPublish(st, _) => Just(st.spare)
    case Discard(b) => {b}
    case StopFree(b) => {b}
    case _ => {}
  }

  function Taken(pc: Pc): (r: Option<Block>) {
    match pc
    case StartDrain(st, _) => st.taken
    case StartStopping(st) => st.taken
    case StartFree(st) => st.taken
    case StopFree(b) => Some(b)
    case _ => None
  }

  function Spare(pc: Pc): (r: Option<Block>) {
    match pc
    case StartDrain(st, _) => st.spare
    case StartStopping(st) => st.spare
    case StartFree(st) => st.spare
    case _ => None
  }

  predicate Distinct(pc: Pc) {
    Taken(pc).Some? ==> Taken(pc) != Spare(pc)
  }

  /** Where a block is, according to the program's own variables. */
  predicate HeldAt(c: Core, b: Block, o: Owner) {
    match o
    case InSlot(i) => i < |c.table.slots| && c.table.slots[i].pending == Some(b)
    case InCall(id) => id in c.calls && b in Blocks(c.calls[id].pc)
    case InTicker => c.ticker.pc.RetryFree? && c.ticker.pc.block == b
  }

  predicate OwnedAt(m: Memory, b: Block, o: Owner) {
    b in m.owner && m.owner[b] == o
  }

  /** Every allocated block is in exactly one place, and nothing else is held anywhere. */
  ghost predicate Ownership(c: Core, m: Memory) {
    && m.live == m.owner.Keys
    && !m.fault
    && (forall b: Block, o: Owner :: HeldAt(c, b, o) <==> OwnedAt(m, b, o))
    && (forall id :: id in c.calls ==> Distinct(c.calls[id].pc))
  }

  /** Where block `b` is after an effect. */
  ghost predicate HeldAfter(c: Core, e: Effect, b: Block, o: Owner) {
    match e
    case Allocate(x, to) => if b == x then o == to else HeldAt(c, b, o)
    case Give(x, to) => if b == x then o == to else HeldAt(c, b, o)
    case Release(x) => b != x && HeldAt(c, b, o)
    case _ => HeldAt(c, b, o)
  }

  predicate EffectAllowed(m: Memory, e: Effect) {
    match e
    case Allocate(x, _) => x !in m.live
    case Give(x, _) => x in m.live
    case Use(x) => x in m.live
    case Release(x) => x in m.live
    case _ => true
  }

  /** The blocks move from core to core exactly as the effect says. */
  ghost predicate Moved(c: Core, r: Core, m: Memory, e: Effect) {
    && EffectAllowed(m, e)
    && (forall b: Block, o: Owner :: HeldAt(r, b, o) <==> HeldAfter(c, e, b, o))
    && (forall id :: id in r.calls ==> Distinct(r.calls[id].pc))
  }

  lemma MovedKeepsOwnership(c: Core, r: Core, m: Memory, e: Effect)
    requires Ownership(c, m) && Moved(c, r, m, e)
    ensures Ownership(r, Apply(m, e))
  {
    var n := Apply(m, e);
    forall b: Block, o: Owner
      ensures HeldAt(r, b, o) <==> OwnedAt(n, b, o)
    {
      assert HeldAt(c, b, o) <==> OwnedAt(m, b, o);
      assert HeldAt(r, b, o) <==> HeldAfter(c, e, b, o);
    }
  }

  // ---------------------------------------------------------------- calls

  /** How call `id` and slot `i` trade blocks under an effect. */
  predicate Trade(old0: Slot, sl: Slot, pc0: Pc, pc: Pc, live: set<Block>, i: nat, id: CallId, e: Effect) {
    match e
    case Allocate(x, to) => to == InCall(id) && x !in live && Blocks(pc) == Blocks(pc0) + {x}
        && sl.pending == old0.pending
    case Give(x, to) =>
      if to == InCall(id) then
        old0.pending == Some(x) && sl.pending.None? && Blocks(pc) == Blocks(pc0) + {x}
      else
        to == InSlot(i) && old0.pending.None? && sl.pending == Some(x) &&
        x in Blocks(pc0) && Blocks(pc) == Blocks(pc0) - {x}
    case Release(x) => x in Blocks(pc0) && Blocks(pc) == Blocks(pc0) - {x} && sl.pending == old0.pending
    case Use(x) => false
    case _ => Blocks(pc) == Blocks(pc0) && sl.pending == old0.pending
  }

  lemma TouchMoved(c: Core, m: Memory, i: nat, sl: Slot, tr: Track, id: CallId, pc: Pc, e: Effect)
    requires Ownership(c, m) && id in c.calls && i < |c.table.slots| && i < |c.track|
    requires Trade(c.table.slots[i], sl, c.calls[id].pc, pc, m.live, i, id, e) && Distinct(pc)
    ensures Moved(c, Touch(c, i, sl, tr, id, pc), m, e)
  {
    var r := Touch(c, i, sl, tr, id, pc);
    if e.Give? || e.Release? {
      assert HeldAt(c, e.block, InSlot(i)) <==> OwnedAt(m, e.block, InSlot(i));
      assert HeldAt(c, e.block, InCall(id)) <==> OwnedAt(m, e.block, InCall(id));
    }
    forall b: Block, o: Owner
      ensures HeldAt(r, b, o) <==> HeldAfter(c, e, b, o)
    {
      assert HeldAt(c, b, o) <==> OwnedAt(m, b, o);
    }
  }

  lemma AtMoved(c: Core, m: Memory, id: CallId, pc: Pc, e: Effect)
    requires Ownership(c, m) && id in c.calls
    requires !e.Give? && Trade(BLANK, BLANK, c.calls[id].pc, pc, m.live, 0, id, e) && Distinct(pc)
    ensures Moved(c, At(c, id, pc), m, e)
  {
    var r := At(c, id, pc);
    if e.Release? {
      assert HeldAt(c, e.block, InCall(id)) <==> OwnedAt(m, e.block, InCall(id));
    }
    forall b: Block, o: Owner
      ensures HeldAt(r, b, o) <==> HeldAfter(c, e, b, o)
    {
      assert HeldAt(c, b, o) <==> OwnedAt(m, b, o);
    }
  }

  lemma StartClaimMoves(c: Core, m: Memory, id: CallId, name: string, stack: nat, block: Option<Block>)
    requires Lifecycles(c) && Ownership(c, m) && id in c.calls && c.calls[id].pc == StartClaiming(name, stack, block)
    ensures var (r, e) := StepStartClaim(c, id, name, stack, block); Moved(c, r, m, e)
  {
    var found := IndexByName(c.table, name);
    if found.None? || !StartAllowed(c.table.slots[found.value], c.calls[id].task) {
      AtMoved(c, m, id, DiscardOrDone(block), Nothing);
    } else {
      var i, sl := found.value, c.table.slots[found.value];
      var st := Start(i, NextGeneration(sl.generation), JobOf(sl).value, stack, sl.pending, block);
      if sl.pending.Some? {
        assert HeldAt(c, sl.pending.value, InSlot(i)) && OwnedAt(m, sl.pending.value, InSlot(i));
        assert HeldAt(c, sl.pending.value, InCall(id)) <==> OwnedAt(m, sl.pending.value, InCall(id));
      }
      TouchMoved(c, m, i, StartClaimed(sl), ClaimTrack(c.track[i], ByCall(id)), id,
                 StartDrain(st, sl.state == Running),
                 if sl.pending.Some? then Give(sl.pending.value, InCall(id)) else Nothing);
    }
  }

  lemma CancelMoves(c: Core, m: Memory, id: CallId, i: nat)
    requires Lifecycles(c) && Ownership(c, m) && id in c.calls && Blocks(c.calls[id].pc) == {}
    requires i < |c.table.slots|
    ensures var (r, e) := CancelQueued(c, id, i); Moved(c, r, m, e)
  {
    var sl := c.table.slots[i];
    TouchMoved(c, m, i, StartCancelled(sl), c.track[i], id,
               if sl.pending.Some? then StopFree(sl.pending.value) else Done,
               if sl.pending.Some? then Give(sl.pending.value, InCall(id)) else Nothing);
  }

  lemma StopRunningMoves(c: Core, m: Memory, id: CallId, i: nat)
    requires Lifecycles(c) && Ownership(c, m) && id in c.calls && Blocks(c.calls[id].pc) == {}
    requires i < |c.table.slots|
    ensures Moved(c, StopRunning(c, id, i), m, Nothing)
  {
    var sl, task := c.table.slots[i], c.calls[id].task;
    if FromOwnCallback(sl, task) {
      TouchMoved(c, m, i, StopClaimed(sl, task), ClaimTrack(c.track[i], ByDeferral), id, Done, Nothing);
    } else {
      TouchMoved(c, m, i, StopClaimed(sl, task), ClaimTrack(c.track[i], ByCall(id)), id,
                 StopDrain(i, NextGeneration(sl.generation)), Nothing);
    }
  }

  lemma StopClaimMoves(c: Core, m: Memory, id: CallId, name: string)
    requires Lifecycles(c) && Ownership(c, m) && id in c.calls && c.calls[id].pc == StopClaiming(name)
    ensures var (r, e) := StepStopClaim(c, id, name); Moved(c, r, m, e)
  {
    var found := IndexByName(c.table, name);
    if found.None? || !StopAllowed(c.table.slots[found.value], c.shutdown) {
      AtMoved(c, m, id, Done, Nothing);
    } else if c.table.slots[found.value].state != Running {
      CancelMoves(c, m, id, found.value);
    } else {
      StopRunningMoves(c, m, id, found.value);
    }
  }

  lemma PublishingMoves(c: Core, m: Memory, id: CallId, st: Start, ret: Ret)
    requires Lifecycles(c) && Ownership(c, m) && id in c.calls
    requires c.calls[id].pc == StartQueue(st) || c.calls[id].pc == StartPublish(st, ret)
    ensures c.calls[id].pc.StartQueue? ==> var (r, e) := StepQueue(c, id, st); Moved(c, r, m, e)
    ensures c.calls[id].pc.StartPublish? ==> var (r, e) := StepPublish(c, id, st, ret); Moved(c, r, m, e)
  {
    var i, sl := st.index, c.table.slots[st.index];
    assert CallOk(c, id) && CellOk(c, i);
    HolderRechecks(c, id);
    if st.spare.Some? {
      TouchMoved(c, m, i, StartQueued(sl, st.spare.value), c.track[i].(holder := Nobody), id, QueueNote,
                 Give(st.spare.value, InSlot(i)));
    } else {
      TouchMoved(c, m, i, StartConcluded(sl, ret), ConcludeTrack(c.track[i], ret), id, Done, Nothing);
    }
  }

  /** Draining touches the slot but moves no block. */
  lemma DrainMoves(c: Core, m: Memory, id: CallId, i: nat, stop: bool, pc: Pc)
    requires Lifecycles(c) && Ownership(c, m) && id in c.calls && i < |c.table.slots|
    requires Blocks(pc) == Blocks(c.calls[id].pc) && Distinct(pc)
    ensures Moved(c, StepDrain(c, id, i, stop, pc), m, Nothing)
  {
    if c.table.slots[i].refs == 0 {
      TouchMoved(c, m, i, c.table.slots[i], if stop then StopTrack(c.track[i]) else c.track[i], id, pc, Nothing);
    }
  }

  lemma CompleteMoves(c: Core, m: Memory, id: CallId, i: nat, g: uint32)
    requires Lifecycles(c) && Ownership(c, m) && id in c.calls && c.calls[id].pc == StopComplete(i, g)
    ensures Moved(c, StepComplete(c, id, i, g), m, Nothing)
  {
    HolderRechecks(c, id);
    TouchMoved(c, m, i, LifecycleReleased(c.table.slots[i]), c.track[i].(holder := Nobody), id, Done, Nothing);
  }

  lemma PlainTrades(c: Core, live: set<Block>, id: CallId, e: Choice)
    requires Shaped(c) && id in c.calls && Plain(c.calls[id].pc) && WellStaged(c.calls[id].pc)
    requires Distinct(c.calls[id].pc)
    ensures var (r, f) := StepCall(c, live, id, e);
            id in r.calls && !f.Give? && Distinct(r.calls[id].pc) &&
            Trade(BLANK, BLANK, c.calls[id].pc, r.calls[id].pc, live, 0, id, f)
  {
  }

  lemma CallMoves(c: Core, m: Memory, id: CallId, e: Choice)
    requires Lifecycles(c) && Ownership(c, m) && id in c.calls
    ensures var (r, f) := StepCall(c, m.live, id, e); Moved(c, r, m, f)
  {
    assert CallOk(c, id);
    var pc := c.calls[id].pc;
    if Plain(pc) {
      PlainMoves(c, m.live, id, e);
      PlainTrades(c, m.live, id, e);
      var (r, f) := StepCall(c, m.live, id, e);
      AtMoved(c, m, id, r.calls[id].pc, f);
    } else {
      match pc
      case StartClaiming(name, stack, block) => StartClaimMoves(c, m, id, name, stack, block);
      case StartQueue(st) => PublishingMoves(c, m, id, st, Success);
      case StartPublish(st, ret) => PublishingMoves(c, m, id, st, ret);
      case StopClaiming(name) => StopClaimMoves(c, m, id, name);
      case StartDrain(st, was) =>
        DrainMoves(c, m, id, st.index, was, if was then StartStopping(st) else StartFree(st));
      case StopDrain(i, g) => DrainMoves(c, m, id, i, true, StopCallback(i, g));
      case StopComplete(i, g) => CompleteMoves(c, m, id, i, g);
      case Done =>
    }
  }

  // ---------------------------------------------------------------- the ticker and the other events

  function TickerBlocks(pc: TickerPc): (r: set<Block>) {
    if pc.RetryFree? then {pc.block} else {}
  }

  /** How the ticker and the slot it is at trade blocks under an effect. */
  predicate TickTrade(old0: Slot, sl: Slot, pc0: TickerPc, pc: TickerPc, e: Effect) {
    match e
    case Give(x, to) => to == InTicker && old0.pending == Some(x) && sl.pending.None? &&
                        TickerBlocks(pc0) == {} && TickerBlocks(pc) == {x}
    case Release(x) => TickerBlocks(pc0) == {x} && TickerBlocks(pc) == {} && sl.pending == old0.pending
    case Use(x) => old0.pending == Some(x) && sl.pending == old0.pending && TickerBlocks(pc0) == TickerBlocks(pc)
    case Allocate(_, _) => false
    case _ => sl.pending == old0.pending && TickerBlocks(pc0) == TickerBlocks(pc)
  }

  lemma TickMoved(c: Core, r: Core, m: Memory, e: Effect)
    requires Lifecycles(c) && Ownership(c, m) && r.calls == c.calls
    requires |r.table.slots| == |c.table.slots|
    requires forall j :: 0 <= j < |c.table.slots| && j != c.ticker.at ==> r.table.slots[j] == c.table.slots[j]
    requires c.ticker.at < |c.table.slots| ==>
      TickTrade(c.table.slots[c.ticker.at], r.table.slots[c.ticker.at], c.ticker.pc, r.ticker.pc, e)
    requires c.ticker.at >= |c.table.slots| ==> TickTrade(BLANK, BLANK, c.ticker.pc, r.ticker.pc, e)
    ensures Moved(c, r, m, e)
  {
    if e.Give? || e.Release? || e.Use? {
      assert HeldAt(c, e.block, InSlot(c.ticker.at)) <==> OwnedAt(m, e.block, InSlot(c.ticker.at));
      assert HeldAt(c, e.block, InTicker) <==> OwnedAt(m, e.block, InTicker);
    }
    forall b: Block, o: Owner
      ensures HeldAt(r, b, o) <==> HeldAfter(c, e, b, o)
    {
      assert HeldAt(c, b, o) <==> OwnedAt(m, b, o);
    }
  }

  /** What one step of the ticker does to the slots and the blocks. */
  predicate TickTrades(c: Core, r: Core, f: Effect) {
    && r.calls == c.calls && |r.table.slots| == |c.table.slots|
    && (forall j :: 0 <= j < |c.table.slots| && j != c.ticker.at ==> r.table.slots[j] == c.table.slots[j])
    && (if c.ticker.at < |c.table.slots|
        then TickTrade(c.table.slots[c.ticker.at], r.table.slots[c.ticker.at], c.ticker.pc, r.ticker.pc, f)
        else TickTrade(BLANK, BLANK, c.ticker.pc, r.ticker.pc, f))
  }

  lemma RetryTrades(c: Core, e: Choice)
    requires Shaped(c) && TickerOk(c) && c.ticker.at < |c.table.slots| && CellOk(c, c.ticker.at)
    requires c.ticker.pc.RetryCallback? || c.ticker.pc.RetryPublish? || c.ticker.pc.RetryFree?
    ensures TickTrades(c, StepTicker(c, e).0, StepTicker(c, e).1)
  {
  }

  lemma EventTrades(c: Core, e: Choice)
    requires c.ticker.pc.EventBegin? || c.ticker.pc.EventCallback? || c.ticker.pc.EventComplete?
    requires Shaped(c) && c.ticker.at < |c.table.slots|
    ensures TickTrades(c, StepTicker(c, e).0, StepTicker(c, e).1)
  {
  }

  lemma TickerTrades(c: Core, e: Choice)
    requires Shaped(c) && TickerOk(c)
    requires c.ticker.at < |c.table.slots| ==> CellOk(c, c.ticker.at)
    ensures TickTrades(c, StepTicker(c, e).0, StepTicker(c, e).1)
  {
    if c.ticker.pc.RetryCallback? || c.ticker.pc.RetryPublish? || c.ticker.pc.RetryFree? {
      RetryTrades(c, e);
    } else if c.ticker.pc.EventBegin? || c.ticker.pc.EventCallback? || c.ticker.pc.EventComplete? {
      EventTrades(c, e);
    }
  }

  /** Registration, completion marks, shutdown and new calls leave every block where it is. */
  lemma PendingUnmoved(c: Core, r: Core, m: Memory)
    requires Ownership(c, m) && |r.table.slots| == |c.table.slots| && r.ticker == c.ticker
    requires forall i :: 0 <= i < |c.table.slots| ==> r.table.slots[i].pending == c.table.slots[i].pending
    requires c.calls.Keys <= r.calls.Keys
    requires forall id :: id in r.calls ==>
      if id in c.calls then r.calls[id] == c.calls[id] else Blocks(r.calls[id].pc) == {} && Distinct(r.calls[id].pc)
    ensures Moved(c, r, m, Nothing)
  {
    forall b: Block, o: Owner
      ensures HeldAt(r, b, o) <==> HeldAt(c, b, o)
    {
      assert HeldAt(c, b, o) <==> OwnedAt(m, b, o);
    }
  }

  lemma RegisterMoves(c: Core, m: Memory, name: string, summary: bool, job: Job)
    requires Lifecycles(c) && Ownership(c, m)
    ensures Moved(c, StepRegister(c, name, summary, job), m, Nothing)
  {
    if RegisterAnswer(c.table, name, summary, job) == Accepted {
      assert CellOk(c, FirstFree(c.table.slots, c.table.statics));
    }
    PendingUnmoved(c, StepRegister(c, name, summary, job), m);
  }

  lemma UnregisterMoves(c: Core, m: Memory, name: string, job: Job)
    requires Lifecycles(c) && Ownership(c, m)
    ensures Moved(c, StepUnregister(c, name, job), m, Nothing)
  {
    PendingUnmoved(c, StepUnregister(c, name, job), m);
  }

  /** Marking, registering and unregistering move no block. */
  lemma OtherMoves(c: Core, m: Memory, e: Event)
    requires Lifecycles(c) && Ownership(c, m) && !e.Proceed? && !e.TickerProceed?
    ensures var (r, f) := StepCore(c, m.live, e); Moved(c, r, m, f)
  {
    var r := StepCore(c, m.live, e).0;
    match e
    case RegisterJob(name, summary, job) => RegisterMoves(c, m, name, summary, job);
    case UnregisterJob(name, job) => UnregisterMoves(c, m, name, job);
    case _ => PendingUnmoved(c, r, m);
  }

  lemma StepMoves(s: Sys, e: Event)
    requires Lifecycles(s.core) && Ownership(s.core, s.memory)
    ensures var (r, f) := StepCore(s.core, s.memory.live, e); Moved(s.core, r, s.memory, f)
  {
    var c, m := s.core, s.memory;
    var (r, f) := StepCore(c, m.live, e);
    match e {
      case Proceed(id, ch) =>
        if id in c.calls {
          CallMoves(c, m, id, ch);
        }
      case TickerProceed(ch) =>
        if c.ticker.at < |c.table.slots| { assert CellOk(c, c.ticker.at); }
        TickerTrades(c, ch);
        TickMoved(c, r, m, f);
      case _ => OtherMoves(c, m, e);
    }
  }

  lemma StepKeepsOwnership(s: Sys, e: Event)
    requires Lifecycles(s.core) && Ownership(s.core, s.memory)
    ensures Ownership(Step(s, e).core, Step(s, e).memory)
  {
    StepMoves(s, e);
    var (r, f) := StepCore(s.core, s.memory.live, e);
    MovedKeepsOwnership(s.core, r, s.memory, f);
  }

  /** A block that a step uses or frees is allocated, and one that a step is given was free. */
  lemma EveryAccessIsLive(s: Sys, e: Event)
    requires Lifecycles(s.core) && Ownership(s.core, s.memory)
    ensures var f := StepCore(s.core, s.memory.live, e).1;
            && (f.Use? || f.Release? ==> f.block in s.memory.live)
            && (f.Allocate? ==> f.block !in s.memory.live)
    ensures e.TickerProceed? && s.core.ticker.pc.RetryCallback? ==>
              StepCore(s.core, s.memory.live, e).1 == Use(s.core.ticker.pc.block)
  {
    StepMoves(s, e);
  }
}
