/** Every run of the job protocol, and who may be in which callback at once. */
module JobRuns {
  import opened Wrappers
  import opened JobTable
  import opened JobProtocol
  import opened JobInvariant
  import opened JobMemory
  import opened JobCounts

  ghost predicate Inv(s: Sys) {
    Lifecycles(s.core) && Ownership(s.core, s.memory) && Counted(s.core, s.memory)
  }

  lemma InitInv(statics: seq<Option<Entry>>, extra: nat)
    ensures Inv(Init(statics, extra))
  {
    var s := Init(statics, extra);
    InitLifecycles(statics, extra);
    assert Queued(s.core.table.slots) == {} && Owing(s.core.calls) == {} && Unnoted(s.core.calls) == {};
  }

  lemma StepKeepsInv(s: Sys, e: Event)
    requires Inv(s)
    ensures Inv(Step(s, e))
  {
    StepKeepsLifecycles(s.core, s.memory.live, e);
    StepKeepsOwnership(s, e);
    StepKeepsCounted(s, e);
  }

  /** The state after any sequence of events whatever. */
  ghost function Run(s: Sys, events: seq<Event>): (r: Sys)
    requires Inv(s)
    ensures Inv(r)
  {
    if events == [] then s
    else
      var before := Run(s, events[..|events| - 1]);
      StepKeepsInv(before, events[|events| - 1]);
      Step(before, events[|events| - 1])
  }

  ghost function Reached(statics: seq<Option<Entry>>, extra: nat, events: seq<Event>): (r: Sys)
    ensures Inv(r)
  {
    InitInv(statics, extra);
    Run(Init(statics, extra), events)
  }

  // ---------------------------------------------------------------- one holder, callbacks apart

  predicate TickerHoldsAt(c: Core, i: nat) {
    TickerHolds(c.ticker.pc) && c.ticker.at == i
  }

  /** A lifecycle has at most one holder, and it is marked busy exactly while it has one. */
  ghost predicate OneHolder(c: Core) {
    && (forall a, b | a in c.calls && b in c.calls && Index(c.calls[a].pc).Some? ::
          Index(c.calls[a].pc) == Index(c.calls[b].pc) ==> a == b)
    && (forall a :: a in c.calls && Index(c.calls[a].pc).Some? ==> !TickerHoldsAt(c, Index(c.calls[a].pc).value))
    && (forall i :: 0 <= i < |c.table.slots| && c.table.slots[i].stopAfter ==>
          !TickerHoldsAt(c, i) && forall a :: a in c.calls ==> Index(c.calls[a].pc) != Some(i))
    && (forall i :: 0 <= i < |c.table.slots| ==>
          (c.table.slots[i].busy <==>
             c.table.slots[i].stopAfter || TickerHoldsAt(c, i)
             || exists a :: a in c.calls && Index(c.calls[a].pc) == Some(i)))
  }

  lemma EveryRunHasOneHolder(statics: seq<Option<Entry>>, extra: nat, events: seq<Event>)
    ensures OneHolder(Reached(statics, extra, events).core)
  {
    HoldersAgree(Reached(statics, extra, events).core);
  }

  lemma HoldersAgree(c: Core)
    requires Lifecycles(c)
    ensures OneHolder(c)
  {
    forall a | a in c.calls && Index(c.calls[a].pc).Some?
      ensures c.track[Index(c.calls[a].pc).value].holder == ByCall(a)
    {
      assert CallOk(c, a);
    }
    forall i | 0 <= i < |c.table.slots|
      ensures c.table.slots[i].busy <==>
                c.table.slots[i].stopAfter || TickerHoldsAt(c, i)
                || exists a :: a in c.calls && Index(c.calls[a].pc) == Some(i)
      ensures c.table.slots[i].stopAfter ==> c.track[i].holder == ByDeferral
      ensures TickerHoldsAt(c, i) <==> c.track[i].holder == ByTicker
    {
      assert CellOk(c, i) && TickerOk(c);
    }
  }

  /** A start or stop callback of slot `i` that a call is in. */
  predicate InLifecycleCallback(pc: Pc, i: nat) {
    (pc.StartStopping? || pc.StartCallback? || pc.StopCallback?) && Index(pc) == Some(i)
  }

  predicate TickerInLifecycleCallback(tk: Ticker, i: nat) {
    (tk.pc.RetryCallback? || tk.pc.EventStopping?) && tk.at == i
  }

  /** No reference and no event callback of slot `i` is outstanding. */
  predicate Quiet(c: Core, i: nat)
    requires i < |c.table.slots|
  {
    c.table.slots[i].refs == 0 && InCallback(c.ticker, i) == 0
  }

  /** While call `a` is in a start or stop callback of job `i`, nothing else of that job runs. */
  ghost predicate AloneInCallback(c: Core, a: CallId, i: nat) {
    a in c.calls && i < |c.table.slots| && InLifecycleCallback(c.calls[a].pc, i) ==>
      && Quiet(c, i)
      && !TickerInLifecycleCallback(c.ticker, i)
      && forall b :: b in c.calls && InLifecycleCallback(c.calls[b].pc, i) ==> a == b
  }

  /** Start and stop callbacks of a job never overlap its event callback or one another. */
  ghost predicate CallbacksApart(c: Core) {
    && (forall a, i :: AloneInCallback(c, a, i))
    && (forall i :: 0 <= i < |c.table.slots| && TickerInLifecycleCallback(c.ticker, i) ==> Quiet(c, i))
  }

  lemma CallIsAlone(c: Core, a: CallId, i: nat)
    requires Lifecycles(c)
    ensures AloneInCallback(c, a, i)
  {
    if a in c.calls && i < |c.table.slots| && InLifecycleCallback(c.calls[a].pc, i) {
      assert CallOk(c, a) && CellOk(c, i);
      forall b | b in c.calls && InLifecycleCallback(c.calls[b].pc, i) ensures a == b {
        assert CallOk(c, b);
      }
    }
  }

  lemma EveryRunKeepsCallbacksApart(statics: seq<Option<Entry>>, extra: nat, events: seq<Event>)
    ensures CallbacksApart(Reached(statics, extra, events).core)
  {
    var c := Reached(statics, extra, events).core;
    forall a, i ensures AloneInCallback(c, a, i) {
      CallIsAlone(c, a, i);
    }
    forall i | 0 <= i < |c.table.slots| && TickerInLifecycleCallback(c.ticker, i) ensures Quiet(c, i) {
      assert CellOk(c, i);
    }
  }

  /** A call on the ticker's own task finds no reference left when it waits for them to drain, so the
      ticker never waits for itself. */
  lemma TickerNeverWaitsForItself(statics: seq<Option<Entry>>, extra: nat, events: seq<Event>, id: CallId)
    ensures var c := Reached(statics, extra, events).core;
            id in c.calls && c.calls[id].task == TICKER && Draining(c.calls[id].pc) ==>
              c.table.slots[Index(c.calls[id].pc).value].refs == 0
  {
    var c := Reached(statics, extra, events).core;
    if id in c.calls && Draining(c.calls[id].pc) {
      assert CallOk(c, id) && CellOk(c, Index(c.calls[id].pc).value);
    }
  }
}
