/** What holds of every lifecycle in every reachable state, and why each step keeps it. */
module JobInvariant {
  import opened Wrappers
  import opened Words
  import opened JobTable
  import opened JobProtocol

  /** The generation after a number of bumps since registration: 0, then 1..2^32-1 over and over. */
  function GenAfter(k: nat): (r: uint32) {
    if k == 0 then 0 else (k - 1) % 0xFFFF_FFFF + 1
  }

  lemma GenStep(k: nat)
    ensures NextGeneration(GenAfter(k)) == GenAfter(k + 1)
  {
    if k > 0 {
      var q, r := (k - 1) / 0xFFFF_FFFF, (k - 1) % 0xFFFF_FFFF;
      assert k - 1 == q * 0xFFFF_FFFF + r;
      if r == 0xFFFF_FFFE {
        assert k == (q + 1) * 0xFFFF_FFFF;
      } else {
        assert k == q * 0xFFFF_FFFF + (r + 1);
      }
    }
  }

  /** The generation a call was given with its lifecycle. */
  function HeldGeneration(pc: Pc): (r: uint32)
    requires Index(pc).Some?
  {
    match pc
    case StartDrain(st, _) => st.generation
    case StartStopping(st) => st.generation
    case StartFree(st) => st.generation
    case StartNote(st) => st.generation
    case StartQueue(st) => st.generation
    case StartCallback(st) => st.generation
    case StartPublish(st, _) => st.generation
    case StopDrain(_, g) => g
    case StopCallback(_, g) => g
    case StopComplete(_, g) => g
    case _ => 0
  }

  predicate Draining(pc: Pc) {
    pc.StartDrain? || pc.StopDrain?
  }

  /** The call still has to carry out the stop of the run it took. */
  predicate OwesStop(pc: Pc) {
    (pc.StartDrain? && pc.wasRunning) || pc.StopDrain?
  }

  predicate WellStaged(pc: Pc) {
    match pc
    case StartNote(st) => st.taken.None?
    case StartQueue(st) => st.taken.None? && st.spare.Some?
    case StartCallback(st) => st.taken.None? && st.spare.None?
    case StartPublish(st, ret) => st.taken.None? && (st.spare.Some? ==> ret == NoMem)
    case _ => true
  }

  // ---------------------------------------------------------------- the invariant

  predicate TickerHolds(pc: TickerPc) {
    pc.RetryCallback? || pc.RetryPublish? || pc.EventStopping? || pc.EventComplete?
  }

  function InCallback(tk: Ticker, i: nat): (r: nat) {
    if tk.pc.EventCallback? && tk.at == i then 1 else 0
  }

  /** What a lifecycle holder still owes: one stop, or nothing. */
  function Owed(holder: Holder, calls: map<CallId, Call>): (r: nat) {
    match holder
    case ByCall(id) => if id in calls && OwesStop(calls[id].pc) then 1 else 0
    case ByDeferral => 1
    case _ => 0
  }

  /** One slot and its history. */
  predicate SlotOk(sl: Slot, tr: Track, inCallback: nat, owed: nat) {
    && (sl.entry.None? ==> sl == BLANK)
    && (sl.busy <==> tr.holder != Nobody)
    && (sl.stopAfter <==> tr.holder == ByDeferral)
    && (sl.state == Running ==> !sl.busy && sl.pending.None?)
    && (sl.state == Waiting ==> sl.pending.Some?)
    && (tr.holder.ByCall? || tr.holder.ByDeferral? ==> sl.state == Stopped && sl.pending.None?)
    && sl.refs == inCallback
    && sl.callbackTask == (if inCallback == 0 then None else Some(TICKER))
    && (tr.holder == ByDeferral ==> inCallback == 1)
    && (tr.holder == ByTicker ==> inCallback == 0)
    && sl.generation == GenAfter(tr.bumps)
    && tr.begun == tr.stops + tr.marks + (if sl.state == Running then 1 else 0) + owed
  }

  predicate HolderOk(holder: Holder, i: nat, calls: map<CallId, Call>, tk: Ticker) {
    && (holder == ByTicker ==> TickerHolds(tk.pc) && tk.at == i)
    && (holder.ByCall? ==> holder.id in calls && Index(calls[holder.id].pc) == Some(i))
  }

  predicate CellOk(c: Core, i: nat)
    requires i < |c.table.slots| && i < |c.track|
  {
    && SlotOk(c.table.slots[i], c.track[i], InCallback(c.ticker, i), Owed(c.track[i].holder, c.calls))
    && (c.table.slots[i].entry.Some? ==> i < c.table.count)
    && HolderOk(c.track[i].holder, i, c.calls, c.ticker)
  }

  /** A call at `pc`, seen from the slot it holds. */
  predicate HeldOk(call: Call, id: CallId, sl: Slot, tr: Track, inCallback: nat)
    requires Index(call.pc).Some?
  {
    && tr.holder == ByCall(id)
    && sl.generation == HeldGeneration(call.pc)
    && (!Draining(call.pc) || call.task == TICKER ==> inCallback == 0)
  }

  predicate CallOk(c: Core, id: CallId)
    requires id in c.calls && |c.track| == |c.table.slots| && InTable(c.calls[id].pc, |c.table.slots|)
  {
    && WellStaged(c.calls[id].pc)
    && (Index(c.calls[id].pc).Some? ==>
          var i := Index(c.calls[id].pc).value;
          HeldOk(c.calls[id], id, c.table.slots[i], c.track[i], InCallback(c.ticker, i)))
  }

  predicate RetryHeld(sl: Slot, tr: Track, b: Block, g: uint32) {
    tr.holder == ByTicker && sl.state == Waiting && sl.pending == Some(b) && sl.generation == g
  }

  predicate StopHeld(sl: Slot, tr: Track, g: uint32) {
    tr.holder == ByTicker && sl.state == Stopped && sl.pending.None? && sl.generation == g
  }

  /** The ticker at `pc`, seen from the slot it is at. */
  predicate TickerSlotOk(pc: TickerPc, sl: Slot, tr: Track) {
    match pc
    case RetryCallback(b, g) => RetryHeld(sl, tr, b, g)
    case RetryPublish(b, g, _) => RetryHeld(sl, tr, b, g)
    case EventStopping(g) => StopHeld(sl, tr, g)
    case EventComplete(g) => StopHeld(sl, tr, g)
    case _ => tr.holder != ByTicker
  }

  predicate TickerOk(c: Core)
    requires TickerInTable(c.ticker, |c.table.slots|) && |c.track| == |c.table.slots|
  {
    c.ticker.at < |c.table.slots| ==>
      TickerSlotOk(c.ticker.pc, c.table.slots[c.ticker.at], c.track[c.ticker.at])
  }

  /** Who holds which lifecycle, and what is owed. */
  ghost predicate Lifecycles(c: Core) {
    && Shaped(c)
    && (forall i :: 0 <= i < |c.table.slots| ==> CellOk(c, i))
    && (forall id :: id in c.calls ==> CallOk(c, id))
    && TickerOk(c)
  }

  lemma InitLifecycles(statics: seq<Option<Entry>>, extra: nat)
    ensures Lifecycles(Init(statics, extra).core)
  {
  }

  // ---------------------------------------------------------------- one step of a call

  lemma AtKeeps(c: Core, id: CallId, pc: Pc)
    requires Lifecycles(c) && id in c.calls && InTable(pc, |c.table.slots|) && WellStaged(pc)
    requires Index(pc) == Index(c.calls[id].pc)
    requires Index(pc).Some? ==> HeldGeneration(pc) == HeldGeneration(c.calls[id].pc)
    requires !Draining(c.calls[id].pc) && !Draining(pc)
    ensures Lifecycles(At(c, id, pc))
  {
    var r := At(c, id, pc);
    assert CallOk(c, id);
    forall i | 0 <= i < |r.table.slots| ensures CellOk(r, i) {
      assert CellOk(c, i);
    }
    forall k | k in r.calls ensures CallOk(r, k) {
      if k != id { assert CallOk(c, k); }
    }
  }

  /** What a call may do to a slot: it holds it, or nobody does, and it leaves it consistent. */
  predicate MayTouch(c: Core, i: nat, sl: Slot, tr: Track, id: CallId, pc: Pc)
    requires Shaped(c) && id in c.calls && i < |c.table.slots|
  {
    && InTable(pc, |c.table.slots|) && WellStaged(pc)
    && Index(c.calls[id].pc) in {None, Some(i)} && Index(pc) in {None, Some(i)}
    && c.track[i].holder == (if Index(c.calls[id].pc).Some? then ByCall(id) else Nobody)
    && tr.holder in {Nobody, ByDeferral, ByCall(id)}
    && (tr.holder == ByCall(id) <==> Index(pc).Some?)
    && (Index(pc).Some? ==> HeldOk(Call(c.calls[id].task, pc), id, sl, tr, InCallback(c.ticker, i)))
    && SlotOk(sl, tr, InCallback(c.ticker, i),
              if tr.holder == Nobody then 0 else if tr.holder == ByDeferral || OwesStop(pc) then 1 else 0)
    && (sl.entry.Some? ==> i < c.table.count)
  }

  lemma TouchKeepsCells(c: Core, i: nat, sl: Slot, tr: Track, id: CallId, pc: Pc)
    requires Lifecycles(c) && id in c.calls && i < |c.table.slots| && MayTouch(c, i, sl, tr, id, pc)
    ensures forall j :: 0 <= j < |c.table.slots| ==> CellOk(Touch(c, i, sl, tr, id, pc), j)
  {
    var r := Touch(c, i, sl, tr, id, pc);
    assert CallOk(c, id);
    forall j | 0 <= j < |c.table.slots| ensures CellOk(r, j) {
      assert CellOk(c, j);
    }
  }

  lemma TouchKeepsCalls(c: Core, i: nat, sl: Slot, tr: Track, id: CallId, pc: Pc)
    requires Lifecycles(c) && id in c.calls && i < |c.table.slots| && MayTouch(c, i, sl, tr, id, pc)
    ensures var r := Touch(c, i, sl, tr, id, pc);
            Shaped(r) && forall k :: k in r.calls ==> CallOk(r, k)
  {
    var r := Touch(c, i, sl, tr, id, pc);
    forall k | k in r.calls ensures InTable(r.calls[k].pc, |r.table.slots|) && CallOk(r, k) {
      if k != id { assert CallOk(c, k); }
    }
  }

  lemma TouchKeeps(c: Core, i: nat, sl: Slot, tr: Track, id: CallId, pc: Pc)
    requires Lifecycles(c) && id in c.calls && i < |c.table.slots| && MayTouch(c, i, sl, tr, id, pc)
    ensures Lifecycles(Touch(c, i, sl, tr, id, pc))
  {
    TouchKeepsCells(c, i, sl, tr, id, pc);
    TouchKeepsCalls(c, i, sl, tr, id, pc);
    assert CellOk(c, i);
  }

  lemma StartClaimKeeps(c: Core, id: CallId, name: string, stack: nat, block: Option<Block>)
    requires Lifecycles(c) && id in c.calls && c.calls[id].pc == StartClaiming(name, stack, block)
    ensures Lifecycles(StepStartClaim(c, id, name, stack, block).0)
  {
    var found := IndexByName(c.table, name);
    if found.None? || !StartAllowed(c.table.slots[found.value], c.calls[id].task) {
      AtKeeps(c, id, DiscardOrDone(block));
    } else {
      var i, sl := found.value, c.table.slots[found.value];
      assert CellOk(c, i);
      GenStep(c.track[i].bumps);
      var st := Start(i, NextGeneration(sl.generation), JobOf(sl).value, stack, sl.pending, block);
      TouchKeeps(c, i, StartClaimed(sl), ClaimTrack(c.track[i], ByCall(id)), id, StartDrain(st, sl.state == Running));
    }
  }

  lemma StopFoundKeeps(c: Core, id: CallId, i: nat)
    requires Lifecycles(c) && id in c.calls && Index(c.calls[id].pc).None?
    requires i < |c.table.slots| && !c.table.slots[i].busy
    ensures c.table.slots[i].state != Running ==> Lifecycles(CancelQueued(c, id, i).0)
    ensures c.table.slots[i].state == Running ==> Lifecycles(StopRunning(c, id, i))
  {
    var sl, task := c.table.slots[i], c.calls[id].task;
    assert CellOk(c, i);
    GenStep(c.track[i].bumps);
    if sl.state != Running {
      TouchKeeps(c, i, StartCancelled(sl), c.track[i], id,
                 if sl.pending.Some? then StopFree(sl.pending.value) else Done);
    } else if FromOwnCallback(sl, task) {
      TouchKeeps(c, i, StopClaimed(sl, task), ClaimTrack(c.track[i], ByDeferral), id, Done);
    } else {
      TouchKeeps(c, i, StopClaimed(sl, task), ClaimTrack(c.track[i], ByCall(id)), id,
                 StopDrain(i, NextGeneration(sl.generation)));
    }
  }

  lemma StopClaimKeeps(c: Core, id: CallId, name: string)
    requires Lifecycles(c) && id in c.calls && c.calls[id].pc == StopClaiming(name)
    ensures Lifecycles(StepStopClaim(c, id, name).0)
  {
    var found := IndexByName(c.table, name);
    if found.None? || !StopAllowed(c.table.slots[found.value], c.shutdown) {
      AtKeeps(c, id, Done);
    } else {
      StopFoundKeeps(c, id, found.value);
    }
  }

  /** The re-check of a holder never fails, so what it decides is always published. */
  lemma HolderRechecks(c: Core, id: CallId)
    requires Lifecycles(c) && id in c.calls && Index(c.calls[id].pc).Some?
    ensures HeldUnder(c.table.slots[Index(c.calls[id].pc).value], HeldGeneration(c.calls[id].pc))
  {
    assert CallOk(c, id) && CellOk(c, Index(c.calls[id].pc).value);
  }

  lemma PublishingKeeps(c: Core, id: CallId, st: Start, ret: Ret)
    requires Lifecycles(c) && id in c.calls
    requires c.calls[id].pc == StartQueue(st) || c.calls[id].pc == StartPublish(st, ret)
    ensures c.calls[id].pc.StartQueue? ==> Lifecycles(StepQueue(c, id, st).0)
    ensures c.calls[id].pc.StartPublish? ==> Lifecycles(StepPublish(c, id, st, ret).0)
  {
    var i, sl := st.index, c.table.slots[st.index];
    assert CallOk(c, id) && CellOk(c, i);
    HolderRechecks(c, id);
    if st.spare.Some? {
      TouchKeeps(c, i, StartQueued(sl, st.spare.value), c.track[i].(holder := Nobody), id, QueueNote);
    } else {
      TouchKeeps(c, i, StartConcluded(sl, ret), ConcludeTrack(c.track[i], ret), id, Done);
    }
  }

  lemma DrainKeeps(c: Core, id: CallId)
    requires Lifecycles(c) && id in c.calls && Draining(c.calls[id].pc)
    ensures Lifecycles(StepCall(c, {}, id, Choice(true, None, Success, 0)).0)
  {
    var pc := c.calls[id].pc;
    var i := Index(pc).value;
    assert CallOk(c, id) && CellOk(c, i);
    if c.table.slots[i].refs == 0 {
      var next := match pc
        case StartDrain(st, was) => (if was then StartStopping(st) else StartFree(st))
        case StopDrain(i, g) => StopCallback(i, g)
        case _ => Done;
      TouchKeeps(c, i, c.table.slots[i], if OwesStop(pc) then StopTrack(c.track[i]) else c.track[i], id, next);
    }
  }

  lemma CompleteKeeps(c: Core, id: CallId, i: nat, g: uint32)
    requires Lifecycles(c) && id in c.calls && c.calls[id].pc == StopComplete(i, g)
    ensures Lifecycles(StepComplete(c, id, i, g))
  {
    assert CallOk(c, id) && CellOk(c, i);
    HolderRechecks(c, id);
    TouchKeeps(c, i, LifecycleReleased(c.table.slots[i]), c.track[i].(holder := Nobody), id, Done);
  }

  /** Program points whose step moves on without touching a slot. */
  predicate Plain(pc: Pc) {
    !(pc.StartClaiming? || pc.StopClaiming? || Draining(pc) || pc.StartQueue? || pc.StartPublish? ||
      pc.StopComplete? || pc.Done?)
  }

  lemma PlainMoves(c: Core, live: set<Block>, id: CallId, e: Choice)
    requires Shaped(c) && id in c.calls && Plain(c.calls[id].pc) && WellStaged(c.calls[id].pc)
    ensures var r := StepCall(c, live, id, e).0;
            id in r.calls && var pc := r.calls[id].pc;
            && r == At(c, id, pc) && !Draining(pc) && WellStaged(pc)
            && Index(pc) == Index(c.calls[id].pc)
            && (Index(pc).Some? ==> HeldGeneration(pc) == HeldGeneration(c.calls[id].pc))
  {
  }

  lemma CallKeeps(c: Core, live: set<Block>, id: CallId, e: Choice)
    requires Lifecycles(c) && id in c.calls
    ensures Lifecycles(StepCall(c, live, id, e).0)
  {
    assert CallOk(c, id);
    var pc := c.calls[id].pc;
    if Plain(pc) {
      PlainMoves(c, live, id, e);
      AtKeeps(c, id, StepCall(c, live, id, e).0.calls[id].pc);
    } else {
      match pc
      case StartClaiming(name, stack, block) => StartClaimKeeps(c, id, name, stack, block);
      case StartDrain(_, _) => DrainKeeps(c, id);
      case StopDrain(_, _) => DrainKeeps(c, id);
      case StartQueue(st) => PublishingKeeps(c, id, st, Success);
      case StartPublish(st, ret) => PublishingKeeps(c, id, st, ret);
      case StopClaiming(name) => StopClaimKeeps(c, id, name);
      case StopComplete(i, g) => CompleteKeeps(c, id, i, g);
      case Done =>
    }
  }

  // ---------------------------------------------------------------- one step of the ticker

  /** The ticker moves on without touching a slot. */
  lemma TickKeeps(c: Core, tk: Ticker)
    requires Lifecycles(c) && TickerInTable(tk, |c.table.slots|)
    requires !c.ticker.pc.EventCallback? && !tk.pc.EventCallback?
    requires TickerHolds(c.ticker.pc) ==> TickerHolds(tk.pc) && tk.at == c.ticker.at
    requires tk.at < |c.table.slots| ==> TickerSlotOk(tk.pc, c.table.slots[tk.at], c.track[tk.at])
    ensures Lifecycles(c.(ticker := tk))
  {
    var r := c.(ticker := tk);
    forall i | 0 <= i < |r.table.slots| ensures CellOk(r, i) {
      assert CellOk(c, i);
    }
    forall k | k in r.calls ensures CallOk(r, k) {
      assert CallOk(c, k);
    }
  }

  /** What the ticker may do to the slot it is at. */
  predicate MayTick(c: Core, sl: Slot, tr: Track, tk: Ticker)
    requires Shaped(c) && c.ticker.at < |c.table.slots|
  {
    var i := c.ticker.at;
    && TickerInTable(tk, |c.table.slots|)
    && (if tk.at == i then TickerSlotOk(tk.pc, sl, tr) else tk.at == i + 1 && tk.pc == Visit && tr.holder != ByTicker)
    && (tr.holder == ByTicker <==> TickerHolds(tk.pc))
    && (tr.holder.ByCall? || c.track[i].holder.ByCall? ==> tr.holder == c.track[i].holder)
    && (InCallback(tk, i) == 1 ==> tr.holder == Nobody)
    && sl.generation == c.table.slots[i].generation
    && sl.entry == c.table.slots[i].entry
    && SlotOk(sl, tr, InCallback(tk, i), Owed(tr.holder, c.calls))
  }

  lemma TickTouchKeeps(c: Core, sl: Slot, tr: Track, tk: Ticker)
    requires Lifecycles(c) && c.ticker.at < |c.table.slots| && MayTick(c, sl, tr, tk)
    ensures Lifecycles(Put(c, c.ticker.at, sl, tr).(ticker := tk))
  {
    var r := Put(c, c.ticker.at, sl, tr).(ticker := tk);
    if tk.at < |c.table.slots| { assert CellOk(c, tk.at); }
    forall i | 0 <= i < |r.table.slots| ensures CellOk(r, i) {
      assert CellOk(c, i);
    }
    forall k | k in r.calls ensures CallOk(r, k) {
      assert CallOk(c, k);
    }
  }

  lemma RetryStepsKeep(c: Core, e: Choice)
    requires Lifecycles(c) && (c.ticker.pc.RetryClaim? || c.ticker.pc.RetryPublish?)
    ensures Lifecycles(StepTicker(c, e).0)
  {
    var i, sl, tr, tk := c.ticker.at, c.table.slots[c.ticker.at], c.track[c.ticker.at], c.ticker;
    assert CellOk(c, i);
    match tk.pc
    case RetryClaim(b, g) =>
      if RetryStill(sl, b, g) {
        TickTouchKeeps(c, RetryClaimed(sl), tr.(holder := ByTicker), tk.(pc := RetryCallback(b, g)));
      } else {
        TickKeeps(c, tk.(pc := EventBegin));
      }
    case RetryPublish(b, g, ret) =>
      if ret == NoMem {
        TickTouchKeeps(c, RetryConcluded(sl, ret), tr.(holder := Nobody), tk.(pc := EventBegin));
      } else {
        TickTouchKeeps(c, RetryConcluded(sl, ret), ConcludeTrack(tr, ret), tk.(pc := RetryFree(b, ret == Success)));
      }
  }

  lemma EventBeginKeeps(c: Core, e: Choice)
    requires Lifecycles(c) && c.ticker.pc.EventBegin?
    ensures Lifecycles(StepTicker(c, e).0)
  {
    var i, sl, tr, tk := c.ticker.at, c.table.slots[c.ticker.at], c.track[c.ticker.at], c.ticker;
    assert CellOk(c, i);
    if Dispatchable(sl, e.now) {
      TickTouchKeeps(c, Dispatched(sl, TICKER, e.now), TickTrack(tr, e.now), tk.(pc := EventCallback(sl.generation)));
    } else {
      TickTouchKeeps(c, sl, tr, tk.(pc := Visit, at := i + 1));
      assert Put(c, i, sl, tr) == c;
    }
  }

  lemma EventReturnKeeps(c: Core)
    requires Lifecycles(c) && c.ticker.pc.EventCallback?
    ensures Lifecycles(StepEndEvent(c, c.ticker.pc.generation))
  {
    var i, sl, tr, tk := c.ticker.at, c.table.slots[c.ticker.at], c.track[c.ticker.at], c.ticker;
    var g := tk.pc.generation;
    assert CellOk(c, i);
    if InheritsStop(sl) {
      TickTouchKeeps(c, Returned(sl, g), StopTrack(tr).(holder := ByTicker), tk.(pc := EventStopping(sl.generation)));
    } else {
      TickTouchKeeps(c, Returned(sl, g), tr, tk.(pc := Visit, at := i + 1));
    }
  }

  lemma EventCompleteKeeps(c: Core, e: Choice)
    requires Lifecycles(c) && c.ticker.pc.EventComplete?
    ensures Lifecycles(StepTicker(c, e).0)
  {
    var i, sl, tr, tk := c.ticker.at, c.table.slots[c.ticker.at], c.track[c.ticker.at], c.ticker;
    assert CellOk(c, i);
    TickTouchKeeps(c, LifecycleReleased(sl), tr.(holder := Nobody), tk.(pc := Visit, at := i + 1));
  }

  lemma TickerKeeps(c: Core, e: Choice)
    requires Lifecycles(c)
    ensures Lifecycles(StepTicker(c, e).0)
  {
    var pc, i := c.ticker.pc, c.ticker.at;
    if pc.RetryClaim? || pc.RetryPublish? {
      RetryStepsKeep(c, e);
    } else if pc.EventBegin? {
      EventBeginKeeps(c, e);
    } else if pc.EventCallback? {
      EventReturnKeeps(c);
    } else if pc.EventComplete? {
      EventCompleteKeeps(c, e);
    } else {
      var tk := StepTicker(c, e).0.ticker;
      if tk.at < |c.table.slots| { assert CellOk(c, tk.at); }
      TickKeeps(c, tk);
    }
  }

  // ---------------------------------------------------------------- the other events

  /** A slot that nobody holds is replaced, and the scanned range may change. */
  lemma FreePutKeeps(c: Core, i: nat, sl: Slot, tr: Track, count: nat)
    requires Lifecycles(c) && i < |c.table.slots|
    requires c.track[i].holder == Nobody == tr.holder && SlotOk(sl, tr, InCallback(c.ticker, i), 0)
    requires c.table.statics <= count <= |c.table.slots|
    requires sl.entry.Some? ==> i < count
    requires forall k :: count <= k < c.table.count && k != i ==> c.table.slots[k].entry.None?
    ensures Lifecycles(c.(table := Table(c.table.slots[i := sl], count, c.table.statics), track := c.track[i := tr]))
  {
    var r := c.(table := Table(c.table.slots[i := sl], count, c.table.statics), track := c.track[i := tr]);
    assert CellOk(c, i);
    forall j | 0 <= j < |r.table.slots| ensures CellOk(r, j) {
      assert CellOk(c, j);
    }
    forall k | k in r.calls ensures CallOk(r, k) {
      assert CallOk(c, k);
    }
  }

  lemma MarkKeeps(c: Core, name: string, g: uint32)
    requires Lifecycles(c)
    ensures Lifecycles(StepMark(c, name, g))
  {
    var found := IndexByName(c.table, name);
    if found.Some? && MarkAllowed(c.table.slots[found.value], g) {
      var i := found.value;
      assert CellOk(c, i);
      FreePutKeeps(c, i, Marked(c.table.slots[i]), StepMark(c, name, g).track[i], c.table.count);
    }
  }

  lemma RegisterKeeps(c: Core, name: string, summary: bool, job: Job)
    requires Lifecycles(c)
    ensures Lifecycles(StepRegister(c, name, summary, job))
  {
    if RegisterAnswer(c.table, name, summary, job) == Accepted {
      var i := FirstFree(c.table.slots, c.table.statics);
      assert CellOk(c, i);
      FreePutKeeps(c, i, Registered(name, job), c.track[i].(bumps := 0, ticks := 0),
          Register(c.table, name, job).count);
    }
  }

  lemma UnregisterKeeps(c: Core, name: string, job: Job)
    requires Lifecycles(c)
    ensures Lifecycles(StepUnregister(c, name, job))
  {
    if UnregisterAnswer(c.table, name, job) == Accepted {
      var i := IndexByName(c.table, name).value;
      assert CellOk(c, i);
      var slots := c.table.slots[i := BLANK];
      assert forall k :: 0 <= k < |slots| && k != i ==> slots[k] == c.table.slots[k];
      forall k | Trimmed(slots, c.table.count, c.table.statics) <= k < c.table.count && k != i
        ensures c.table.slots[k].entry.None?
      {
        assert slots[k].entry.None?;
      }
      FreePutKeeps(c, i, BLANK, c.track[i].(bumps := 0, ticks := 0), Unregister(c.table, name, job).count);
    }
  }

  lemma NewCallKeeps(c: Core, id: CallId, call: Call)
    requires Lifecycles(c) && id !in c.calls && (call.pc.StartAdmit? || call.pc.StopClaiming?)
    ensures Lifecycles(c.(calls := c.calls[id := call]))
  {
    var r := c.(calls := c.calls[id := call]);
    forall i | 0 <= i < |r.table.slots| ensures CellOk(r, i) {
      assert CellOk(c, i);
    }
    forall k | k in r.calls ensures CallOk(r, k) {
      if k != id { assert CallOk(c, k); }
    }
  }

  lemma StepKeepsLifecycles(c: Core, live: set<Block>, e: Event)
    requires Lifecycles(c)
    ensures Lifecycles(StepCore(c, live, e).0)
  {
    match e
    case CallStart(id, task, name) =>
      if id !in c.calls { NewCallKeeps(c, id, Call(task, StartAdmit(name))); }
    case CallStop(id, task, name) =>
      if id !in c.calls { NewCallKeeps(c, id, Call(task, StopClaiming(name))); }
    case Proceed(id, e) => if id in c.calls { CallKeeps(c, live, id, e); }
    case TickerProceed(e) => TickerKeeps(c, e);
    case Mark(name, g) => MarkKeeps(c, name, g);
    case RegisterJob(name, summary, job) => RegisterKeeps(c, name, summary, job);
    case UnregisterJob(name, job) => UnregisterKeeps(c, name, job);
    case Shutdown =>
      var r := c.(shutdown := true);
      assert forall i :: 0 <= i < |r.table.slots| ==> CellOk(c, i) ==> CellOk(r, i);
      assert forall id :: id in r.calls ==> CallOk(c, id) ==> CallOk(r, id);
  }
}
