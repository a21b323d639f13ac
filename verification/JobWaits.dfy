/** Queued starts: who owns their memory, and how far the waiting counter can be trusted. */
module JobWaits {
  import opened Wrappers
  import opened JobTable
  import opened JobProtocol
  import opened JobMemory
  import opened JobCounts
  import opened JobRuns

  /** In every run each allocated block has exactly one owner, nothing unallocated is held anywhere,
      and no block was ever used or freed while it was not allocated. */
  lemma EveryRunOwnsItsBlocks(statics: seq<Option<Entry>>, extra: nat, events: seq<Event>, b: Block)
    ensures var s := Reached(statics, extra, events);
            && !s.memory.fault
            && (b in s.memory.live <==> exists o :: HeldAt(s.core, b, o))
            && (forall o1, o2 :: HeldAt(s.core, b, o1) && HeldAt(s.core, b, o2) ==> o1 == o2)
  {
    var s := Reached(statics, extra, events);
    forall o ensures HeldAt(s.core, b, o) <==> OwnedAt(s.memory, b, o) {
    }
    if b in s.memory.live {
      assert HeldAt(s.core, b, s.memory.owner[b]);
    }
  }

  /** No call is under way and the ticker is between two rounds. */
  ghost predicate Quiescent(c: Core) {
    c.ticker.pc == Idle && forall id :: id in c.calls ==> c.calls[id].pc == Done
  }

  /** Between calls, the waiting count exceeds the number of queued jobs by the decrements that were
      lost, and every wait ever noted is waiting, launched or cancelled. */
  lemma WaitingAtRest(statics: seq<Option<Entry>>, extra: nat, events: seq<Event>)
    requires Quiescent(Reached(statics, extra, events).core)
    ensures var s := Reached(statics, extra, events);
            && s.memory.waiting == |Queued(s.core.table.slots)| + s.memory.lost
            && s.memory.waiting + s.memory.successes + s.memory.cancellations == s.memory.queueNotes + s.memory.lost
  {
    var c := Reached(statics, extra, events).core;
    assert Owing(c.calls) == {} && Unnoted(c.calls) == {};
  }

  /** At most one call or ticker round is doing anything. */
  ghost predicate OneAtATime(c: Core) {
    && (forall a, b :: a in c.calls && b in c.calls && c.calls[a].pc != Done && c.calls[b].pc != Done ==> a == b)
    && (c.ticker.pc != Idle ==> forall a :: a in c.calls ==> c.calls[a].pc == Done)
  }

  /** No prefix of the run has two activities under way. */
  ghost predicate NeverOverlaps(s: Sys, events: seq<Event>)
    requires Inv(s)
    decreases |events|
  {
    OneAtATime(Run(s, events).core) && (events != [] ==> NeverOverlaps(s, events[..|events| - 1]))
  }

  lemma {:induction false} SequentialLosesNothing(s: Sys, events: seq<Event>)
    requires Inv(s) && NeverOverlaps(s, events)
    ensures Run(s, events).memory.lost == s.memory.lost
    decreases |events|
  {
    if events != [] {
      SequentialLosesNothing(s, events[..|events| - 1]);
      LastLosesNothing(s, events);
    }
  }

  lemma LastLosesNothing(s: Sys, events: seq<Event>)
    requires Inv(s) && events != [] && NeverOverlaps(s, events[..|events| - 1])
    ensures Run(s, events).memory.lost == Run(s, events[..|events| - 1]).memory.lost
  {
    AloneLosesNothing(Run(s, events[..|events| - 1]), events[|events| - 1]);
  }

  lemma AloneLosesNothing(s: Sys, e: Event)
    requires Inv(s) && OneAtATime(s.core)
    ensures Step(s, e).memory.lost == s.memory.lost
  {
    StepKeepsCounted(s, e);
    var c, f := s.core, StepCore(s.core, s.memory.live, e).1;
    if f.NoteFinished? {
      NotingCallIsAlone(c, s.memory.live, e);
      assert Unnoted(c.calls) == {};
    }
  }

  lemma NotingCallIsAlone(c: Core, live: set<Block>, e: Event)
    requires Shaped(c) && OneAtATime(c) && StepCore(c, live, e).1.NoteFinished?
    ensures forall id :: id in c.calls ==> !c.calls[id].pc.QueueNote?
  {
    match e
    case Proceed(id, ch) =>
    case TickerProceed(ch) => assert c.ticker.pc.RetryNote?;
    case _ =>
  }

  /** When calls do not overlap, the waiting count is the number of queued jobs. */
  lemma SequentialWaitingIsExact(statics: seq<Option<Entry>>, extra: nat, events: seq<Event>)
    requires NeverOverlaps(Reached(statics, extra, []), events)
    requires Quiescent(Reached(statics, extra, events).core)
    ensures var s := Reached(statics, extra, events);
            && s.memory.waiting == |Queued(s.core.table.slots)|
            && s.memory.waiting + s.memory.successes + s.memory.cancellations == s.memory.queueNotes
  {
    SequentialLosesNothing(Reached(statics, extra, []), events);
    WaitingAtRest(statics, extra, events);
  }

  // ---------------------------------------------------------------- a run that miscounts

  const JOB := Job(0, "a", 1, true, true, 0)
  const IDLE := BLANK.(entry := Some(Entry("a", Some(JOB))))
  const CLAIMED := IDLE.(busy := true, generation := 1)
  const QUEUED := IDLE.(state := Waiting, generation := 1, pending := Some(7))
  const STOPPED := IDLE.(generation := 1)

  const GO := Choice(true, None, Success, 0)
  const SHORT := Choice(false, Some(7), Success, 0)

  const TR0 := Track(Nobody, 0, 0, 0, 0, 0, 0)
  const TR1 := Track(ByCall(1), 0, 0, 0, 1, 0, 0)
  const TR2 := Track(Nobody, 0, 0, 0, 1, 0, 0)
  const MEM0 := Memory({}, map[], false, 0, 0, 0, 0, 0)
  const MEM1 := Memory({7}, map[7 := InCall(1)], false, 0, 0, 0, 0, 0)
  const MEM2 := Memory({7}, map[7 := InSlot(0)], false, 0, 0, 0, 0, 0)
  const START := Start(0, 1, JOB, 1, None, Some(7))

  /** A registry with the one static job "a". */
  function Lone(sl: Slot, tr: Track, calls: map<CallId, Call>, m: Memory): (r: Sys) {
    Sys(Core(Table([sl], 1, 1), [tr], calls, Ticker(Idle, 0, 0), false), m)
  }

  function First(pc: Pc): (r: map<CallId, Call>) { map[1 := Call(5, pc)] }

  function Both(pc: Pc, other: Pc): (r: map<CallId, Call>) { map[1 := Call(5, pc), 2 := Call(6, other)] }

  /** Some events lead from `s` to `r`. */
  least predicate Leads(s: Sys, r: Sys) {
    s == r || exists m, e :: Leads(s, m) && Moves(m, e, r)
  }

  lemma Then(s: Sys, m: Sys, e: Event, r: Sys)
    requires Leads(s, m) && Moves(m, e, r)
    ensures Leads(s, r)
  {
  }

  least lemma LeadsByRun(s: Sys, r: Sys)
    requires Inv(s) && Leads(s, r)
    ensures exists events :: Run(s, events) == r
  {
    if s == r {
      assert Run(s, []) == r;
    } else {
      var m, e :| Leads(s, m) && Moves(m, e, r);
      LeadsByRun(s, m);
      var events :| Run(s, events) == m;
      assert (events + [e])[..|events|] == events;
      assert Run(s, events + [e]) == r;
    }
  }

  const S0 := Lone(IDLE, TR0, map[], MEM0)
  const S1 := Lone(IDLE, TR0, First(StartAdmit("a")), MEM0)
  const S2 := Lone(IDLE, TR0, First(StartPreflight("a", 1)), MEM0)
  const S3 := Lone(IDLE, TR0, First(StartClaiming("a", 1, Some(7))), MEM1)
  const S4 := Lone(CLAIMED, TR1, First(StartDrain(START, false)), MEM1)
  const S5 := Lone(CLAIMED, TR1, First(StartFree(START)), MEM1)
  const S6 := Lone(CLAIMED, TR1, First(StartQueue(START)), MEM1)
  const S7 := Lone(QUEUED, TR2, First(QueueNote), MEM2)
  const S8 := Lone(QUEUED, TR2, Both(QueueNote, StopClaiming("a")), MEM2)
  const S9 := Lone(STOPPED, TR2, Both(QueueNote, StopFree(7)), MEM2.(owner := map[7 := InCall(2)]))
  const S10 := Lone(STOPPED, TR2, Both(QueueNote, StopNote), MEM0)
  const S11 := Lone(STOPPED, TR2, Both(QueueNote, Done), Memory({}, map[], false, 0, 0, 1, 0, 1))
  const S12 := Lone(STOPPED, TR2, Both(Done, Done), Memory({}, map[], false, 1, 0, 1, 1, 1))

  ghost predicate Moves(m: Sys, e: Event, r: Sys) {
    Shaped(m.core) && Step(m, e) == r
  }

  lemma NamesFound()
    ensures IndexByName(Table([IDLE], 1, 1), "a") == Some(0)
    ensures IndexByName(Table([QUEUED], 1, 1), "a") == Some(0)
  {
  }

  // A start is admitted and finds memory short,
  lemma Move0() ensures Moves(S0, CallStart(1, 5, "a"), S1) {}
  lemma Move1() ensures Moves(S1, Proceed(1, GO), S2) { NamesFound(); }
  lemma Move2() ensures Moves(S2, Proceed(1, SHORT), S3) {
    assert MEM0.live + {7} == MEM1.live;
  }
  // takes the lifecycle with a block of its own, queues itself, and has its count left to do,
  lemma Move3() ensures Moves(S3, Proceed(1, GO), S4) { NamesFound(); }
  lemma Move4() ensures Moves(S4, Proceed(1, GO), S5) {}
  lemma Move5() ensures Moves(S5, Proceed(1, GO), S6) {}
  lemma Move6() ensures Moves(S6, Proceed(1, GO), S7) {}
  // when a stop takes it off the queue
  lemma Move7() ensures Moves(S7, CallStop(2, 6, "a"), S8) {}
  lemma Move8() ensures Moves(S8, Proceed(2, GO), S9) { NamesFound(); }
  lemma Move9() ensures Moves(S9, Proceed(2, GO), S10) {
    assert S9.memory.live - {7} == {} && S9.memory.owner - {7} == map[];
  }
  // and counts the end of a wait whose beginning was not counted.
  lemma Move10() ensures Moves(S10, Proceed(2, GO), S11) {}
  lemma Move11() ensures Moves(S11, Proceed(1, GO), S12) {}

  lemma MiscountedAtRest()
    ensures Quiescent(S12.core) && Queued(S12.core.table.slots) == {} && S12.memory.waiting == 1
  {
  }

  lemma StartsIdle()
    ensures Init([IDLE.entry], 0) == S0
  {
    var s0 := Init([IDLE.entry], 0);
    assert s0.core.table.slots == [IDLE] && s0.core.track == [TR0];
  }

  lemma ReachedByLeading(entry: Option<Entry>, r: Sys)
    requires Leads(Init([entry], 0), r)
    ensures exists events :: Reached([entry], 0, events) == r
  {
    InitInv([entry], 0);
    LeadsByRun(Init([entry], 0), r);
    var events :| Run(Init([entry], 0), events) == r;
    assert Reached([entry], 0, events) == r;
  }

  ghost predicate Miscounted(s: Sys) {
    Quiescent(s.core) && Queued(s.core.table.slots) == {} && s.memory.waiting == 1
  }

  /** Overlapping calls can leave the waiting count wrong for good: here nothing is queued, nobody is
      under way, and one job is still counted as waiting. */
  lemma CrossedCallsMiscount()
    ensures exists entry, events :: Miscounted(Reached([entry], 0, events))
  {
    StartsIdle();
    Move0(); Then(S0, S0, CallStart(1, 5, "a"), S1);
    Move1(); Then(S0, S1, Proceed(1, GO), S2);
    Move2(); Then(S0, S2, Proceed(1, SHORT), S3);
    Move3(); Then(S0, S3, Proceed(1, GO), S4);
    Move4(); Then(S0, S4, Proceed(1, GO), S5);
    Move5(); Then(S0, S5, Proceed(1, GO), S6);
    Move6(); Then(S0, S6, Proceed(1, GO), S7);
    Move7(); Then(S0, S7, CallStop(2, 6, "a"), S8);
    Move8(); Then(S0, S8, Proceed(2, GO), S9);
    Move9(); Then(S0, S9, Proceed(2, GO), S10);
    Move10(); Then(S0, S10, Proceed(2, GO), S11);
    Move11(); Then(S0, S11, Proceed(1, GO), S12);
    MiscountedAtRest();
    ReachedByLeading(IDLE.entry, S12);
  }
}
