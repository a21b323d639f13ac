/**
 The protocol's steps are critical sections of the registry: every step changes the table as one section does, so the
 tables of a run are what the registry holds when it performs the run's sections one after the other.
 */
module JobReplay {
  import opened Wrappers
  import opened Words
  import opened JobTable
  import opened JobSections
  import opened JobProtocol
  import opened JobInvariant
  import opened JobRuns
  import opened JobRegistry

  function CallSection(c: Core, id: CallId): (r: Section)
    requires id in c.calls
  {
    match c.calls[id].pc
    case StartClaiming(name, _, _) => Section.BeginStart(name, c.calls[id].task)
    case StartQueue(st) => Section.PublishStart(st.index, st.generation, st.spare, NoMem)
    case StartPublish(st, ret) => Section.PublishStart(st.index, st.generation, st.spare, ret)
    case StopClaiming(name) => Section.BeginStop(name, c.calls[id].task, c.shutdown)
    case StopComplete(i, g) => Section.CompleteStop(i, g)
    case _ => Observe
  }

  function TickerSection(tk: Ticker, now: uint32): (r: Section) {
    match tk.pc
    case RetryClaim(b, g) => Section.BeginRetry(tk.at, b, g)
    case RetryPublish(b, g, ret) => Section.PublishRetry(tk.at, b, g, ret)
    case EventBegin => Section.BeginEvent(tk.at, TICKER, now)
    case EventCallback(g) => Section.EndEvent(tk.at, g)
    case EventComplete(g) => Section.CompleteStop(tk.at, g)
    case _ => Observe
  }

  /** The section that an event runs, if it changes the registry at all. */
  function SectionOf(c: Core, e: Event): (r: Section) {
    match e
    case Proceed(id, _) => if id in c.calls then CallSection(c, id) else Observe
    case TickerProceed(ch) => TickerSection(c.ticker, ch.now)
    case Mark(name, g) => Section.MarkStopped(name, g)
    case RegisterJob(name, summary, job) => AddJob(name, summary, job)
    case UnregisterJob(name, job) => RemoveJob(name, job)
    case _ => Observe
  }

  lemma SectionFits(c: Core, e: Event)
    requires Shaped(c)
    ensures SectionOf(c, e).Fits(|c.table.slots|)
  {
  }

  lemma StartActs(c: Core, id: CallId, name: string, stack: nat, block: Option<Block>)
    requires Shaped(c) && id in c.calls
    ensures StepStartClaim(c, id, name, stack, block).0.table
            == Act(c.table, Section.BeginStart(name, c.calls[id].task))
  {
  }

  lemma StopActs(c: Core, id: CallId, name: string)
    requires Shaped(c) && id in c.calls
    ensures StepStopClaim(c, id, name).0.table == Act(c.table, Section.BeginStop(name, c.calls[id].task, c.shutdown))
  {
    var found := IndexByName(c.table, name);
    if found.Some? && StopAllowed(c.table.slots[found.value], c.shutdown) {
      var sl := c.table.slots[found.value];
      if sl.state != Running {
        assert CancelQueued(c, id, found.value).0.table == With(c.table, found.value, StartCancelled(sl));
      } else {
        assert StopRunning(c, id, found.value).table == With(c.table, found.value, StopClaimed(sl, c.calls[id].task));
      }
    }
  }

  lemma CallActs(c: Core, live: set<Block>, id: CallId, ch: Choice)
    requires Lifecycles(c) && id in c.calls && CallSection(c, id).Fits(|c.table.slots|)
    ensures StepCall(c, live, id, ch).0.table == Act(c.table, CallSection(c, id))
  {
    assert CallOk(c, id);
    if Plain(c.calls[id].pc) {
      PlainMoves(c, live, id, ch);
    } else {
      match c.calls[id].pc
      case StartClaiming(name, stack, block) => StartActs(c, id, name, stack, block);
      case StopClaiming(name) => StopActs(c, id, name);
      case _ =>
    }
  }

  lemma TickerActs(c: Core, ch: Choice)
    requires Shaped(c) && TickerSection(c.ticker, ch.now).Fits(|c.table.slots|)
    ensures StepTicker(c, ch).0.table == Act(c.table, TickerSection(c.ticker, ch.now))
  {
  }

  /** Every step of the protocol changes the table exactly as its section does. */
  lemma StepActs(c: Core, live: set<Block>, e: Event)
    requires Lifecycles(c)
    ensures SectionOf(c, e).Fits(|c.table.slots|)
    ensures StepCore(c, live, e).0.table == Act(c.table, SectionOf(c, e))
  {
    SectionFits(c, e);
    match e
    case Proceed(id, ch) => if id in c.calls { CallActs(c, live, id, ch); }
    case TickerProceed(ch) => TickerActs(c, ch);
    case _ =>
  }

  /** The sections of a run, in their order. */
  ghost function Sections(s: Sys, events: seq<Event>): (r: seq<Section>)
    requires Inv(s)
  {
    if events == [] then []
    else
      var before := events[..|events| - 1];
      Sections(s, before) + [SectionOf(Run(s, before).core, events[|events| - 1])]
  }

  /** The table at the end of a run is what its sections make of the table at its start. */
  lemma {:induction false} RunActs(s: Sys, events: seq<Event>)
    requires Inv(s)
    ensures forall x :: x in Sections(s, events) ==> x.Fits(|s.core.table.slots|)
    ensures |Run(s, events).core.table.slots| == |s.core.table.slots|
    ensures Run(s, events).core.table == ActAll(s.core.table, Sections(s, events))
    decreases |events|
  {
    if events != [] {
      var before := events[..|events| - 1];
      RunActs(s, before);
      var m := Run(s, before);
      StepActs(m.core, m.memory.live, events[|events| - 1]);
      var ss := Sections(s, events);
      assert ss[..|ss| - 1] == Sections(s, before);
    }
  }

  /** One section on the registry. */
  method Perform(r: Registry, s: Section)
    requires r.Valid() && s.Fits(r.slots.Length)
    modifies r.slots, r`count
    ensures r.Valid() && r.slots.Length == old(r.slots.Length) && r.View() == Act(old(r.View()), s)
  {
    match s
    case Observe =>
    case BeginStart(name, task) => var _ := r.ClaimStart(name, task);
    case PublishStart(i, g, spare, ret) => var _ := r.PublishStart(i, g, spare, ret);
    case BeginStop(name, task, shutdown) => var _ := r.ClaimStop(name, task, shutdown);
    case CompleteStop(i, g) => r.CompleteStop(i, g);
    case MarkStopped(name, g) => var _ := r.MarkStopped(name, g);
    case BeginRetry(i, b, g) => var _ := r.ClaimRetry(i, b, g);
    case PublishRetry(i, b, g, ret) => var _ := r.PublishRetry(i, b, g, ret);
    case BeginEvent(i, task, now) => var _ := r.BeginEvent(i, task, now);
    case EndEvent(i, g) => var _ := r.EndEvent(i, g);
    case AddJob(name, summary, job) => var _ := r.RegisterDynamic(name, summary, job);
    case RemoveJob(name, job) => var _ := r.UnregisterDynamic(name, job);
  }

  /** One section after the other. */
  method PerformAll(r: Registry, sections: seq<Section>)
    requires r.Valid() && forall s :: s in sections ==> s.Fits(r.slots.Length)
    modifies r.slots, r`count
    ensures r.Valid() && r.slots.Length == old(r.slots.Length) && r.View() == ActAll(old(r.View()), sections)
  {
    ghost var start := r.View();
    for k := 0 to |sections|
      invariant r.Valid() && r.slots.Length == |start.slots|
      invariant r.View() == ActAll(start, sections[..k])
    {
      assert sections[..k + 1][..k] == sections[..k];
      Perform(r, sections[k]);
    }
    assert sections[..|sections|] == sections;
  }

  lemma InitialTables(entries: seq<Option<Entry>>, extra: nat)
    ensures InitialTable(entries, extra) == Init(entries, extra).core.table
  {
  }

  /** The registry that performs the sections of a run holds the table that the run reaches, whatever the run. */
  method Replay(entries: seq<Option<Entry>>, extra: nat, ghost events: seq<Event>, sections: seq<Section>)
      returns (r: Registry)
    requires sections == Sections(Reached(entries, extra, []), events)
    ensures r.Valid() && r.View() == Reached(entries, extra, events).core.table
  {
    InitialTables(entries, extra);
    RunActs(Reached(entries, extra, []), events);
    r := new Registry(entries, extra);
    PerformAll(r, sections);
  }
}
