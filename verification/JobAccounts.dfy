/** What starts, stops and completions add up to over every run. */
module JobAccounts {
  import opened Wrappers
  import opened Words
  import opened JobTable
  import opened JobProtocol
  import opened JobInvariant
  import opened JobCounts
  import opened JobRuns

  // ---------------------------------------------------------------- runs begun and ended

  /** From `c` to `r` a run of job `i` begins. */
  predicate BeginsRun(c: Core, r: Core, i: nat) {
    i < |c.table.slots| && i < |r.table.slots| &&
    c.table.slots[i].state != Running && r.table.slots[i].state == Running
  }

  /** From `c` to `r` call `id` enters a stop callback of job `i`. */
  predicate CallStops(c: Core, r: Core, id: CallId, i: nat) {
    id in c.calls && id in r.calls && r.calls[id].pc != c.calls[id].pc &&
    (r.calls[id].pc.StartStopping? || r.calls[id].pc.StopCallback?) && Index(r.calls[id].pc) == Some(i)
  }

  predicate TickerStops(r: Core, i: nat) {
    r.ticker.pc.EventStopping? && r.ticker.at == i
  }

  /** The event enters a stop callback of job `i`. */
  predicate MakesStop(c: Core, r: Core, e: Event, i: nat) {
    match e
    case Proceed(id, _) => CallStops(c, r, id, i)
    case TickerProceed(_) => TickerStops(r, i)
    case _ => false
  }

  /** The event is a completion that ends a run of job `i`. */
  predicate CompletesRun(c: Core, r: Core, e: Event, i: nat) {
    e.Mark? && i < |c.table.slots| && i < |r.table.slots| &&
    c.table.slots[i].state == Running && r.table.slots[i].state == Stopped
  }

  /** The history of slot `i` grew by these amounts. */
  predicate Grew(c: Core, r: Core, i: nat, begun: bool, stopped: bool, marked: bool) {
    && |r.track| == |c.track| && i < |c.track|
    && r.track[i].begun == c.track[i].begun + One(begun)
    && r.track[i].stops == c.track[i].stops + One(stopped)
    && r.track[i].marks == c.track[i].marks + One(marked)
  }

  /** The step of call `id` begins and ends nothing of job `i`. */
  predicate Idles(c: Core, r: Core, id: CallId, i: nat) {
    !BeginsRun(c, r, i) && !CallStops(c, r, id, i) && Grew(c, r, i, false, false, false)
  }

  lemma StartClaimHonest(c: Core, id: CallId, name: string, stack: nat, block: Option<Block>, i: nat)
    requires Shaped(c) && id in c.calls && i < |c.table.slots| && c.calls[id].pc == StartClaiming(name, stack, block)
    ensures Idles(c, StepStartClaim(c, id, name, stack, block).0, id, i)
  {
  }

  lemma CancelHonest(c: Core, id: CallId, k: nat, i: nat)
    requires Shaped(c) && id in c.calls && k < |c.table.slots| && i < |c.table.slots|
    ensures Idles(c, CancelQueued(c, id, k).0, id, i)
  {
  }

  lemma StopRunningHonest(c: Core, id: CallId, k: nat, i: nat)
    requires Shaped(c) && id in c.calls && k < |c.table.slots| && i < |c.table.slots|
    ensures Idles(c, StopRunning(c, id, k), id, i)
  {
  }

  lemma StopClaimHonest(c: Core, id: CallId, name: string, i: nat)
    requires Shaped(c) && id in c.calls && i < |c.table.slots| && c.calls[id].pc == StopClaiming(name)
    ensures Idles(c, StepStopClaim(c, id, name).0, id, i)
  {
    var found := IndexByName(c.table, name);
    if found.Some? && StopAllowed(c.table.slots[found.value], c.shutdown) {
      if c.table.slots[found.value].state != Running {
        CancelHonest(c, id, found.value, i);
      } else {
        StopRunningHonest(c, id, found.value, i);
      }
    }
  }

  /** The step of call `id` begins a run of job `i` or does nothing to it. */
  predicate OnlyBegins(c: Core, r: Core, id: CallId, i: nat) {
    !CallStops(c, r, id, i) && Grew(c, r, i, BeginsRun(c, r, i), false, false)
  }

  lemma QueueHonest(c: Core, id: CallId, st: Start, i: nat)
    requires Lifecycles(c) && id in c.calls && i < |c.table.slots| && c.calls[id].pc == StartQueue(st)
    ensures OnlyBegins(c, StepQueue(c, id, st).0, id, i)
  {
    assert CallOk(c, id) && CellOk(c, st.index);
  }

  lemma PublishHonest(c: Core, id: CallId, st: Start, ret: Ret, i: nat)
    requires Lifecycles(c) && id in c.calls && i < |c.table.slots| && c.calls[id].pc == StartPublish(st, ret)
    ensures OnlyBegins(c, StepPublish(c, id, st, ret).0, id, i)
  {
    assert CallOk(c, id) && CellOk(c, st.index);
  }

  lemma DrainHonest(c: Core, live: set<Block>, id: CallId, e: Choice, i: nat)
    requires Shaped(c) && id in c.calls && i < |c.table.slots| && Draining(c.calls[id].pc)
    ensures var r := StepCall(c, live, id, e).0;
            !BeginsRun(c, r, i) && Grew(c, r, i, false, CallStops(c, r, id, i), false)
  {
  }

  lemma PlainHonest(c: Core, live: set<Block>, id: CallId, e: Choice, i: nat)
    requires Shaped(c) && id in c.calls && i < |c.table.slots| && Plain(c.calls[id].pc) && WellStaged(c.calls[id].pc)
    ensures Idles(c, StepCall(c, live, id, e).0, id, i)
  {
    PlainMoves(c, live, id, e);
    PlainEntersNoStop(c, live, id, e);
  }

  lemma CompleteHonest(c: Core, id: CallId, k: nat, g: uint32, i: nat)
    requires Shaped(c) && id in c.calls && c.calls[id].pc == StopComplete(k, g) && i < |c.table.slots|
    ensures Idles(c, StepComplete(c, id, k, g), id, i)
  {
  }

  /** The sections of a call that touch a slot other than to drain it. */
  lemma SectionHonest(c: Core, live: set<Block>, id: CallId, e: Choice, i: nat)
    requires Lifecycles(c) && id in c.calls && i < |c.table.slots|
    requires !Plain(c.calls[id].pc) && !Draining(c.calls[id].pc)
    ensures OnlyBegins(c, StepCall(c, live, id, e).0, id, i)
  {
    match c.calls[id].pc
    case StartClaiming(name, stack, block) => StartClaimHonest(c, id, name, stack, block, i);
    case StopClaiming(name) => StopClaimHonest(c, id, name, i);
    case StartQueue(st) => QueueHonest(c, id, st, i);
    case StartPublish(st, ret) => PublishHonest(c, id, st, ret, i);
    case StopComplete(k, g) => CompleteHonest(c, id, k, g, i);
    case Done =>
  }

  lemma CallHonest(c: Core, live: set<Block>, id: CallId, e: Choice, i: nat)
    requires Lifecycles(c) && id in c.calls && i < |c.table.slots|
    ensures var r := StepCall(c, live, id, e).0;
            Grew(c, r, i, BeginsRun(c, r, i), CallStops(c, r, id, i), false)
  {
    assert CallOk(c, id);
    if Plain(c.calls[id].pc) {
      PlainHonest(c, live, id, e, i);
    } else if Draining(c.calls[id].pc) {
      DrainHonest(c, live, id, e, i);
    } else {
      SectionHonest(c, live, id, e, i);
    }
  }

  lemma PlainEntersNoStop(c: Core, live: set<Block>, id: CallId, e: Choice)
    requires Shaped(c) && id in c.calls && Plain(c.calls[id].pc)
    ensures var r := StepCall(c, live, id, e).0;
            id in r.calls && !r.calls[id].pc.StartStopping? && !r.calls[id].pc.StopCallback?
  {
  }

  /** Program points where the ticker leaves every slot alone. */
  predicate TickPlain(pc: TickerPc) {
    !(pc.RetryClaim? || pc.RetryPublish? || pc.EventBegin? || pc.EventCallback? || pc.EventComplete?)
  }

  lemma TickPlainHonest(c: Core, e: Choice, i: nat)
    requires Shaped(c) && i < |c.table.slots| && TickPlain(c.ticker.pc)
    ensures var r := StepTicker(c, e).0;
            !BeginsRun(c, r, i) && !TickerStops(r, i) && Grew(c, r, i, false, false, false)
  {
  }

  lemma TickSlotHonest(c: Core, e: Choice, i: nat)
    requires Shaped(c) && i < |c.table.slots| && !TickPlain(c.ticker.pc)
    requires CellOk(c, c.ticker.at)
    ensures var r := StepTicker(c, e).0;
            Grew(c, r, i, BeginsRun(c, r, i), TickerStops(r, i), false)
  {
  }

  lemma TickerHonest(c: Core, e: Choice, i: nat)
    requires Lifecycles(c) && i < |c.table.slots|
    ensures var r := StepTicker(c, e).0;
            Grew(c, r, i, BeginsRun(c, r, i), TickerStops(r, i), false)
  {
    if TickPlain(c.ticker.pc) {
      TickPlainHonest(c, e, i);
    } else {
      assert CellOk(c, c.ticker.at);
      TickSlotHonest(c, e, i);
    }
  }

  lemma MarkHonest(c: Core, name: string, g: uint32, i: nat)
    requires Lifecycles(c) && i < |c.table.slots|
    ensures var r := StepMark(c, name, g);
            Grew(c, r, i, BeginsRun(c, r, i), false, c.table.slots[i].state == Running
                && r.table.slots[i].state == Stopped)
  {
  }

  lemma RegisteringHonest(c: Core, name: string, summary: bool, job: Job, i: nat)
    requires Lifecycles(c) && i < |c.table.slots|
    ensures var r := StepRegister(c, name, summary, job); Grew(c, r, i, BeginsRun(c, r, i), false, false)
    ensures var r := StepUnregister(c, name, job); Grew(c, r, i, BeginsRun(c, r, i), false, false)
  {
    assert CellOk(c, i);
  }

  lemma OtherHonest(c: Core, live: set<Block>, e: Event, i: nat)
    requires Lifecycles(c) && i < |c.table.slots| && !e.Proceed? && !e.TickerProceed?
    ensures var r := StepCore(c, live, e).0;
            Grew(c, r, i, BeginsRun(c, r, i), MakesStop(c, r, e, i), CompletesRun(c, r, e, i))
  {
    match e
    case Mark(name, g) => MarkHonest(c, name, g, i);
    case RegisterJob(name, summary, job) => RegisteringHonest(c, name, summary, job, i);
    case UnregisterJob(name, job) => RegisteringHonest(c, name, true, job, i);
    case _ =>
  }

  /** The history counts exactly the runs begun, the stop callbacks entered and the completions. */
  lemma HistoryIsHonest(s: Sys, e: Event, i: nat)
    requires Inv(s) && i < |s.core.table.slots|
    ensures var c, r := s.core, Step(s, e).core;
            Grew(c, r, i, BeginsRun(c, r, i), MakesStop(c, r, e, i), CompletesRun(c, r, e, i))
  {
    var c := s.core;
    match e
    case Proceed(id, ch) => if id in c.calls { CallHonest(c, s.memory.live, id, ch, i); }
    case TickerProceed(ch) => TickerHonest(c, ch, i);
    case _ => OtherHonest(c, s.memory.live, e, i);
  }

  // ---------------------------------------------------------------- totals over a run

  datatype Totals = Totals(begun: nat, stops: nat, completions: nat)

  /** Runs of job slot `i` begun, stop callbacks entered and completions taken over a run. */
  ghost function TotalsOf(s: Sys, events: seq<Event>, i: nat): (r: Totals)
    requires Inv(s)
  {
    if events == [] then Totals(0, 0, 0)
    else
      var last := |events| - 1;
      var t := TotalsOf(s, events[..last], i);
      var c, r, e := Run(s, events[..last]).core, Run(s, events).core, events[last];
      Totals(t.begun + One(BeginsRun(c, r, i)), t.stops + One(MakesStop(c, r, e, i)),
             t.completions + One(CompletesRun(c, r, e, i)))
  }

  /** Somebody holds the lifecycle of slot `i` and has yet to carry out the stop of its last run. */
  ghost predicate StopOutstanding(c: Core, i: nat)
    requires i < |c.table.slots|
  {
    c.table.slots[i].stopAfter || exists a :: a in c.calls && Index(c.calls[a].pc) == Some(i) && OwesStop(c.calls[a].pc)
  }

  lemma OwedIsOutstanding(c: Core, i: nat)
    requires Lifecycles(c) && i < |c.table.slots|
    ensures Owed(c.track[i].holder, c.calls) == One(StopOutstanding(c, i))
  {
    assert CellOk(c, i);
    if StopOutstanding(c, i) && !c.table.slots[i].stopAfter {
      var a :| a in c.calls && Index(c.calls[a].pc) == Some(i) && OwesStop(c.calls[a].pc);
      assert CallOk(c, a);
    }
  }

  lemma {:induction false} TotalsAreTracked(s: Sys, events: seq<Event>, i: nat)
    requires Inv(s) && i < |s.core.table.slots|
    ensures var c := Run(s, events).core;
            && |c.table.slots| == |s.core.table.slots|
            && c.track[i].begun == s.core.track[i].begun + TotalsOf(s, events, i).begun
            && c.track[i].stops == s.core.track[i].stops + TotalsOf(s, events, i).stops
            && c.track[i].marks == s.core.track[i].marks + TotalsOf(s, events, i).completions
  {
    if events != [] {
      var last := |events| - 1;
      TotalsAreTracked(s, events[..last], i);
      HistoryIsHonest(Run(s, events[..last]), events[last], i);
    }
  }

  /** Over every run, each run of a job that began was stopped once, or completed once, or is still
      running, or its stop is still owed by whoever holds its lifecycle. */
  lemma EveryRunBalances(statics: seq<Option<Entry>>, extra: nat, events: seq<Event>, i: nat)
    requires i < |statics| + extra
    ensures var c := Reached(statics, extra, events).core;
            var t := TotalsOf(Reached(statics, extra, []), events, i);
            && i < |c.table.slots|
            && t.begun == t.stops + t.completions + One(c.table.slots[i].state == Running) + One(StopOutstanding(c, i))
  {
    var s := Reached(statics, extra, []);
    TotalsAreTracked(s, events, i);
    var c := Run(s, events).core;
    assert CellOk(c, i);
    OwedIsOutstanding(c, i);
  }

  // ---------------------------------------------------------------- a job that stops itself

  /** A stop from inside the job's own event callback returns at once, with the job marked. */
  lemma OwnStopIsDeferred(s: Sys, id: CallId, choice: Choice)
    requires Inv(s) && id in s.core.calls && s.core.calls[id].pc.StopClaiming?
    requires IndexByName(s.core.table, s.core.calls[id].pc.name).Some?
    requires var sl := s.core.table.slots[IndexByName(s.core.table, s.core.calls[id].pc.name).value];
             sl.state == Running && FromOwnCallback(sl, s.core.calls[id].task) && !s.core.shutdown
    ensures var i, r := IndexByName(s.core.table, s.core.calls[id].pc.name).value, Step(s, Proceed(id, choice)).core;
            && r.calls[id].pc == Done
            && r.table.slots[i].stopAfter && r.table.slots[i].busy && r.table.slots[i].state == Stopped
            && r.ticker.pc.EventCallback? && r.ticker.at == i
  {
    assert CellOk(s.core, IndexByName(s.core.table, s.core.calls[id].pc.name).value);
  }

  /** Another call's step leaves a held slot alone. */
  lemma HeldSlotStays(c: Core, live: set<Block>, id: CallId, ch: Choice, i: nat)
    requires Lifecycles(c) && id in c.calls && i < |c.table.slots| && c.table.slots[i].busy
    requires Index(c.calls[id].pc) != Some(i)
    ensures var r := StepCall(c, live, id, ch).0;
            i < |r.table.slots| && r.table.slots[i] == c.table.slots[i]
  {
    var pc := c.calls[id].pc;
    assert CallOk(c, id);
    if Plain(pc) {
      PlainMoves(c, live, id, ch);
    } else if pc.StopClaiming? {
      StopLeavesHeld(c, id, pc.name, i);
    }
  }

  lemma StopLeavesHeld(c: Core, id: CallId, name: string, i: nat)
    requires Shaped(c) && id in c.calls && i < |c.table.slots| && c.table.slots[i].busy
    ensures StepStopClaim(c, id, name).0.table.slots[i := c.table.slots[i]] == StepStopClaim(c, id, name).0.table.slots
  {
  }

  lemma OthersLeaveHeld(c: Core, live: set<Block>, e: Event, i: nat)
    requires Lifecycles(c) && i < |c.table.slots| && c.table.slots[i].busy && !e.Proceed? && !e.TickerProceed?
    ensures var r := StepCore(c, live, e).0;
            i < |r.table.slots| && r.table.slots[i] == c.table.slots[i]
  {
    assert CellOk(c, i);
  }

  /** A deferred stop belongs to the callback that is running: nothing else disturbs the job, and the
      ticker's next step ends the callback and enters the stop callback, once. */
  lemma DeferralAwaitsCallback(s: Sys, e: Event, i: nat)
    requires Inv(s) && i < |s.core.table.slots| && s.core.table.slots[i].stopAfter
    ensures s.core.ticker.pc.EventCallback? && s.core.ticker.at == i
    ensures i < |Step(s, e).core.table.slots|
    ensures var r := Step(s, e).core;
            if e.TickerProceed? then !r.table.slots[i].stopAfter && r.table.slots[i].busy && TickerStops(r, i)
            else r.table.slots[i] == s.core.table.slots[i]
  {
    var c := s.core;
    assert CellOk(c, i);
    match e
    case Proceed(id, ch) =>
      if id in c.calls {
        assert CallOk(c, id);
        HeldSlotStays(c, s.memory.live, id, ch, i);
      }
    case TickerProceed(_) =>
    case _ => OthersLeaveHeld(c, s.memory.live, e, i);
  }

  /** The ticker carries out a stop that it inherited: it is in the stop callback, or behind it. */
  predicate Inheriting(c: Core) {
    c.ticker.pc.EventStopping? || c.ticker.pc.EventComplete?
  }

  lemma CallLeavesTicker(c: Core, live: set<Block>, id: CallId, e: Choice)
    requires Lifecycles(c) && id in c.calls
    ensures StepCall(c, live, id, e).0.ticker == c.ticker && |StepCall(c, live, id, e).0.table.slots| == |c.table.slots|
  {
    assert CallOk(c, id);
    if Plain(c.calls[id].pc) {
      PlainMoves(c, live, id, e);
    }
  }

  lemma InheritedIsHeld(c: Core)
    requires Lifecycles(c) && Inheriting(c)
    ensures c.ticker.at < |c.table.slots| && c.table.slots[c.ticker.at].busy
    ensures forall id :: id in c.calls ==> Index(c.calls[id].pc) != Some(c.ticker.at)
  {
    assert TickerOk(c) && CellOk(c, c.ticker.at);
    forall id | id in c.calls ensures Index(c.calls[id].pc) != Some(c.ticker.at) {
      assert CallOk(c, id);
    }
  }

  /** Nothing moved the ticker or touched the job it is at. */
  predicate Waits(c: Core, r: Core) {
    c.ticker.at < |c.table.slots| == |r.table.slots| && r.ticker == c.ticker
    && r.table.slots[c.ticker.at] == c.table.slots[c.ticker.at]
  }

  lemma CallWaits(c: Core, live: set<Block>, id: CallId, ch: Choice)
    requires Lifecycles(c) && Inheriting(c) && id in c.calls
    ensures Waits(c, StepCall(c, live, id, ch).0)
  {
    InheritedIsHeld(c);
    HeldSlotStays(c, live, id, ch, c.ticker.at);
    CallLeavesTicker(c, live, id, ch);
  }

  lemma OthersWait(c: Core, live: set<Block>, e: Event)
    requires Lifecycles(c) && Inheriting(c) && !e.Proceed? && !e.TickerProceed?
    ensures Waits(c, StepCore(c, live, e).0)
  {
    InheritedIsHeld(c);
    OthersLeaveHeld(c, live, e, c.ticker.at);
  }

  /** Meanwhile no other event touches the job or moves the ticker. */
  lemma InheritedStopWaits(s: Sys, e: Event)
    requires Inv(s) && Inheriting(s.core) && !e.TickerProceed?
    ensures Waits(s.core, Step(s, e).core)
  {
    match e
    case Proceed(id, ch) =>
      InheritedIsHeld(s.core);
      if id in s.core.calls { CallWaits(s.core, s.memory.live, id, ch); }
    case _ => OthersWait(s.core, s.memory.live, e);
  }

  /** However many other events there are. */
  lemma {:induction false} InheritedStopWaitsOn(s: Sys, events: seq<Event>)
    requires Inv(s) && Inheriting(s.core) && forall e :: e in events ==> !e.TickerProceed?
    ensures Waits(s.core, Run(s, events).core)
    decreases |events|
  {
    InheritedIsHeld(s.core);
    if events != [] {
      var last := |events| - 1;
      InheritedStopWaitsOn(s, events[..last]);
      InheritedStopWaits(Run(s, events[..last]), events[last]);
    }
  }

  /** The ticker's own step: out of the stop callback, and then the job is free. */
  lemma InheritedStopStep(s: Sys, choice: Choice)
    requires Inv(s) && Inheriting(s.core)
    ensures var c, r := s.core, Step(s, TickerProceed(choice)).core;
            && c.ticker.at < |c.table.slots| == |r.table.slots| && r.table.slots[c.ticker.at].state == Stopped
            && if c.ticker.pc.EventStopping? then
                 r.ticker == c.ticker.(pc := EventComplete(c.ticker.pc.generation)) && r.table == c.table
               else !r.table.slots[c.ticker.at].busy
  {
    assert TickerOk(s.core) && CellOk(s.core, s.core.ticker.at);
  }

  /**
   Once the ticker is in an inherited stop callback of a job, only the ticker's own two steps end it, whatever other
   events come before the first and between the two; they leave the job stopped and free.
   */
  lemma InheritedStopCompletes(s: Sys, before: seq<Event>, first: Choice, between: seq<Event>, second: Choice)
    requires Inv(s) && s.core.ticker.pc.EventStopping?
    requires forall e :: e in before + between ==> !e.TickerProceed?
    ensures Waits(s.core, Run(s, before).core) && Inv(Step(Run(s, before), TickerProceed(first)))
    ensures var stopped := Step(Run(s, before), TickerProceed(first));
            var r := Step(Run(stopped, between), TickerProceed(second)).core;
            && stopped.core.table == Run(s, before).core.table && Waits(stopped.core, Run(stopped, between).core)
            && s.core.ticker.at < |r.table.slots|
            && r.table.slots[s.core.ticker.at].state == Stopped && !r.table.slots[s.core.ticker.at].busy
  {
    assert forall e :: e in before ==> e in before + between;
    assert forall e :: e in between ==> e in before + between;
    InheritedStopWaitsOn(s, before);
    InheritedStopStep(Run(s, before), first);
    StepKeepsInv(Run(s, before), TickerProceed(first));
    var stopped := Step(Run(s, before), TickerProceed(first));
    InheritedStopWaitsOn(stopped, between);
    InheritedStopStep(Run(stopped, between), second);
  }

  // ---------------------------------------------------------------- stale completions

  /** Two bump counts carry the same generation only a full cycle of 2^32 - 1 apart. */
  lemma GenerationsRepeat(j: nat, k: nat)
    requires j <= k
    ensures GenAfter(j) == GenAfter(k) <==> j == k || (j > 0 && (k - j) % 0xFFFF_FFFF == 0)
  {
    if j > 0 {
      var a, b := j - 1, k - 1;
      var d := b / 0xFFFF_FFFF - a / 0xFFFF_FFFF;
      assert b - a == d * 0xFFFF_FFFF + (b % 0xFFFF_FFFF - a % 0xFFFF_FFFF);
    }
  }

  /** A completion that carries the generation of `age` bumps ago is taken exactly when the job is not
      held, that generation was a real one, and a whole number of cycles has passed. */
  lemma StaleCompletion(s: Sys, name: string, age: nat)
    requires Inv(s) && IndexByName(s.core.table, name).Some?
    requires age <= s.core.track[IndexByName(s.core.table, name).value].bumps
    ensures var i := IndexByName(s.core.table, name).value;
            var earlier := s.core.track[i].bumps - age;
            MarkAllowed(s.core.table.slots[i], GenAfter(earlier)) <==>
              !s.core.table.slots[i].busy && earlier > 0 && age % 0xFFFF_FFFF == 0
  {
    var i := IndexByName(s.core.table, name).value;
    assert CellOk(s.core, i);
    GenerationsRepeat(s.core.track[i].bumps - age, s.core.track[i].bumps);
  }

  /** So within one registration and fewer than 2^32 - 1 bumps a late completion changes nothing. */
  lemma LateCompletionIgnored(s: Sys, name: string, age: nat)
    requires Inv(s) && IndexByName(s.core.table, name).Some?
    requires 0 < age < 0xFFFF_FFFF && age <= s.core.track[IndexByName(s.core.table, name).value].bumps
    ensures Step(s, Mark(name, GenAfter(s.core.track[IndexByName(s.core.table, name).value].bumps - age))) == s
  {
    StaleCompletion(s, name, age);
  }
}
