/**
 The registry as the program keeps it: a fixed array of slots that each critical section scans and updates in place.
 Every method leaves the table that its section leaves (JobSections.Act), and so does every step of the protocol
 (JobReplay.StepActs).
 */
module JobRegistry {
  import opened Wrappers
  import opened Words
  import opened JobTable
  import Scheduler
  import opened JobSections

  datatype Claim = Refused | Claimed(index: nat, generation: uint32, job: Job, wasRunning: bool, taken: Option<Block>)

  datatype StopClaim =
    | NotStopped
    | Cancelled(taken: Option<Block>)
    | Deferred
    | Stopping(index: nat, generation: uint32)

  /** The static entries, and room for `extra` dynamic jobs. */
  function InitialTable(entries: seq<Option<Entry>>, extra: nat): (t: Table) {
    Table(seq(|entries| + extra, i requires 0 <= i < |entries| + extra =>
            if i < |entries| then BLANK.(entry := entries[i]) else BLANK), |entries|, |entries|)
  }

  class Registry {
    var slots: array<Slot>
    var count: nat
    const statics: nat

    ghost predicate Valid()
      reads this
    {
      statics <= count <= slots.Length
    }

    ghost function View(): (t: Table)
      requires Valid()
      reads this, slots
      ensures t.Valid()
    {
      Table(slots[..], count, statics)
    }

    /** The registry with its static entries. */
    constructor (entries: seq<Option<Entry>>, extra: nat)
      ensures Valid() && fresh(slots)
      ensures View() == InitialTable(entries, extra)
    {
      statics := |entries|;
      count := |entries|;
      slots := new Slot[|entries| + extra](i => BLANK);
      new;
      for i := 0 to |entries|
        invariant Valid() && fresh(slots) && slots.Length == |entries| + extra && count == |entries|
        invariant forall k :: 0 <= k < slots.Length ==>
          slots[k] == if k < i then BLANK.(entry := entries[k]) else BLANK
      {
        slots[i] := slots[i].(entry := entries[i]);
      }
    }

    /** job_index_by_name. */
    method IndexOf(name: string) returns (r: Option<nat>)
      requires Valid()
      ensures r == IndexByName(View(), name)
    {
      if name == "" { return None; }
      var i := 0;
      while i < count
        invariant i <= count
        invariant FirstNamed(slots[..], name, 0, count) == FirstNamed(slots[..], name, i, count)
      {
        if slots[i].entry.Some? && slots[i].entry.value.name == name {
          return Some(i);
        }
        i := i + 1;
      }
      return None;
    }

    /** The claim of solar_os_jobs_start. */
    method ClaimStart(name: string, task: Task) returns (c: Claim)
      requires Valid()
      modifies slots
      ensures Valid()
      ensures View() == Act(old(View()), Section.BeginStart(name, task))
      ensures var found := IndexByName(old(View()), name);
              c.Refused? <==> found.None? || var sl := old(slots[..])[found.value];
                              sl.busy || sl.entry.None? || sl.entry.value.job.None?
                              || (sl.refs != 0 && sl.callbackTask == Some(task))
      ensures c.Refused? ==> slots[..] == old(slots[..])
      ensures c.Claimed? ==>
                && c.index < count && Named(old(slots[c.index]), name)
                && c.wasRunning == (old(slots[c.index]).state == Running) && c.taken == old(slots[c.index]).pending
                && old(slots[c.index]).entry.value.job == Some(c.job) && c.generation != old(slots[c.index]).generation
                && slots[c.index] == old(slots[c.index]).(busy := true, state := Stopped, pending := None,
                                                          generation := c.generation)
    {
      var found := IndexOf(name);
      if found.None? { return Refused; }
      var i := found.value;
      if slots[i].busy || slots[i].entry.None? || slots[i].entry.value.job.None? { return Refused; }
      if slots[i].refs != 0 && slots[i].callbackTask == Some(task) { return Refused; }
      slots[i] := slots[i].(busy := true);
      var job := slots[i].entry.value.job.value;
      var wasRunning := slots[i].state == Running;
      var taken := slots[i].pending;
      slots[i] := slots[i].(pending := None);
      var generation := BumpGeneration(i);
      slots[i] := slots[i].(state := Stopped);
      c := Claimed(i, generation, job, wasRunning, taken);
    }

    /** job_next_generation. */
    method BumpGeneration(i: nat) returns (g: uint32)
      requires Valid() && i < slots.Length
      modifies slots
      ensures g == NextGeneration(old(slots[i].generation))
      ensures slots[..] == old(slots[..])[i := old(slots[i]).(generation := g)]
    {
      slots[i] := slots[i].(generation := (slots[i].generation + 1) % 0x1_0000_0000);
      if slots[i].generation == 0 {
        slots[i] := slots[i].(generation := slots[i].generation + 1);
      }
      g := slots[i].generation;
    }

    /** The claim of solar_os_jobs_stop. */
    method ClaimStop(name: string, task: Task, shutdown: bool) returns (c: StopClaim)
      requires Valid()
      modifies slots
      ensures Valid()
      ensures View() == Act(old(View()), Section.BeginStop(name, task, shutdown))
      ensures var found := IndexByName(old(View()), name);
              if found.None? then c.NotStopped?
              else
                var sl, now := old(slots[..])[found.value], slots[..][found.value];
                && (c.NotStopped? <==> sl.busy || (shutdown && sl.refs != 0))
                && (c.NotStopped? ==> now == sl)
                && (c.Cancelled? <==> !c.NotStopped? && sl.state != Running)
                && (c.Cancelled? ==> c.taken == sl.pending && now == sl.(pending := None, state := Stopped))
                && (c.Deferred? ==> sl.refs != 0 && sl.callbackTask == Some(task) && now.stopAfter)
                && (c.Stopping? ==> !(sl.refs != 0 && sl.callbackTask == Some(task)) && !now.stopAfter
                                    && c.index == found.value && c.generation == now.generation)
                && (c.Deferred? || c.Stopping? ==> now.busy && now.state == Stopped && now.generation != sl.generation)
    {
      var found := IndexOf(name);
      if found.None? { return NotStopped; }
      var i := found.value;
      if slots[i].busy { return NotStopped; }
      if shutdown && slots[i].refs != 0 { return NotStopped; }
      if slots[i].state != Running {
        var taken := slots[i].pending;
        slots[i] := slots[i].(pending := None);
        slots[i] := slots[i].(state := Stopped);
        return Cancelled(taken);
      }
      slots[i] := slots[i].(busy := true);
      var own := slots[i].refs != 0 && slots[i].callbackTask == Some(task);
      slots[i] := slots[i].(stopAfter := own);
      var generation := BumpGeneration(i);
      slots[i] := slots[i].(state := Stopped);
      c := if own then Deferred else Stopping(i, generation);
    }

    /** The tail of job_complete_stop. */
    method CompleteStop(i: nat, g: uint32)
      requires Valid() && i < slots.Length
      modifies slots
      ensures Valid()
      ensures slots[i] == if old(slots[i]).generation == g then old(slots[i]).(busy := false) else old(slots[i])
      ensures View() == Act(old(View()), Section.CompleteStop(i, g))
    {
      if slots[i].generation == g && slots[i].busy {
        slots[i] := slots[i].(busy := false);
      }
    }

    /** Both publishing sections of solar_os_jobs_start: a spare block queues the start. */
    method PublishStart(i: nat, g: uint32, spare: Option<Block>, ret: Ret) returns (queued: bool)
      requires Valid() && i < slots.Length
      modifies slots
      ensures Valid()
      ensures var held := old(slots[i]).generation == g && old(slots[i]).busy;
              && (queued <==> held && spare.Some?)
              && (!held ==> slots[i] == old(slots[i]))
              && (held ==> !slots[i].busy && slots[i].ticks == Ticks(0, 0)
                           && slots[i].pending == (if spare.Some? then spare else old(slots[i]).pending)
                           && slots[i].state == if spare.Some? then Waiting
                                                else if ret == Success then Running else Failed)
      ensures View() == Act(old(View()), Section.PublishStart(i, g, spare, ret))
    {
      queued := false;
      if slots[i].generation == g && slots[i].busy {
        if spare.Some? {
          slots[i] := slots[i].(pending := spare);
          slots[i] := slots[i].(state := Waiting);
          queued := true;
        } else {
          slots[i] := slots[i].(state := if ret == Success then Running else Failed);
        }
        slots[i] := slots[i].(ticks := NO_TICKS);
        slots[i] := slots[i].(busy := false);
      }
    }

    /** solar_os_jobs_mark_stopped. */
    method MarkStopped(name: string, g: uint32) returns (accepted: bool)
      requires Valid()
      modifies slots
      ensures Valid()
      ensures View() == Act(old(View()), Section.MarkStopped(name, g))
      ensures var found := IndexByName(old(View()), name);
              && (accepted <==> && found.Some? && g != 0 && old(slots[..])[found.value].generation == g
                                && !old(slots[..])[found.value].busy)
              && (accepted ==> slots[..][found.value] == old(slots[..])[found.value].(state := Stopped))
    {
      var found := IndexOf(name);
      if found.None? { return false; }
      var i := found.value;
      if g == 0 || slots[i].generation != g || slots[i].busy { return false; }
      slots[i] := slots[i].(state := Stopped);
      accepted := true;
    }

    /** The claim of job_retry_pending_start. */
    method ClaimRetry(i: nat, b: Block, g: uint32) returns (claimed: bool)
      requires Valid() && i < slots.Length
      modifies slots
      ensures Valid()
      ensures var sl := old(slots[i]);
              && (claimed <==> && sl.generation == g && sl.state == Waiting && !sl.busy && sl.pending == Some(b)
                               && sl.entry.Some? && sl.entry.value.job.Some?)
              && slots[i] == if claimed then sl.(busy := true) else sl
      ensures View() == Act(old(View()), Section.BeginRetry(i, b, g))
    {
      claimed := false;
      if slots[i].generation == g && slots[i].state == Waiting && !slots[i].busy &&
         slots[i].pending == Some(b) && slots[i].entry.Some? && slots[i].entry.value.job.Some? {
        slots[i] := slots[i].(busy := true);
        claimed := true;
      }
    }

    /** The outcome of a retried start. */
    method PublishRetry(i: nat, b: Block, g: uint32, ret: Ret) returns (finished: bool)
      requires Valid() && i < slots.Length
      modifies slots
      ensures Valid()
      ensures var sl := old(slots[i]);
              var held := sl.generation == g && sl.state == Waiting && sl.busy && sl.pending == Some(b);
              && (finished <==> held && ret != NoMem)
              && slots[i] == if finished then sl.(busy := false, pending := None,
                                                  state := if ret == Success then Running else Failed)
                             else if held then sl.(busy := false) else sl
      ensures View() == Act(old(View()), Section.PublishRetry(i, b, g, ret))
    {
      finished := false;
      if slots[i].generation == g && slots[i].state == Waiting && slots[i].busy && slots[i].pending == Some(b) {
        slots[i] := slots[i].(busy := false);
        if ret != NoMem {
          slots[i] := slots[i].(pending := None);
          slots[i] := slots[i].(state := if ret == Success then Running else Failed);
          finished := true;
        }
      }
    }

    /**
     The dispatch decision of solar_os_jobs_tick: a job that runs, that nobody is starting or stopping, that has an
     event callback, and that was not dispatched within its interval since it was started.
     */
    method BeginEvent(i: nat, task: Task, now: uint32) returns (generation: Option<uint32>)
      requires Valid() && i < slots.Length
      modifies slots
      ensures Valid()
      ensures View() == Act(old(View()), Section.BeginEvent(i, task, now))
      ensures var sl := old(slots[i]);
              && (generation.Some? <==>
                    && sl.state == Running && !sl.busy
                    && sl.entry.Some? && sl.entry.value.job.Some? && sl.entry.value.job.value.hasEvent
                    && (sl.ticks.dispatches == 0
                        || (now - sl.ticks.last) % 0x1_0000_0000
                           >= (if sl.entry.value.job.value.interval == 0 then 25
                               else sl.entry.value.job.value.interval)))
              && (generation.Some? ==> generation.value == sl.generation)
              && slots[i] == if generation.None? then sl
                             else sl.(refs := sl.refs + 1, callbackTask := Some(task),
                                      ticks := Ticks(sl.ticks.dispatches, now))
    {
      generation := None;
      if slots[i].state == Running && !slots[i].busy && slots[i].entry.Some? &&
         slots[i].entry.value.job.Some? && slots[i].entry.value.job.value.hasEvent {
        var interval := slots[i].entry.value.job.value.interval;
        if interval == 0 {
          interval := Scheduler.INTERVAL_DEFAULT_MS;
        }
        if slots[i].ticks.dispatches != 0 && Scheduler.Sub32(now, slots[i].ticks.last) < interval {
          return;
        }
        slots[i] := slots[i].(ticks := slots[i].ticks.(last := now));
        generation := Some(slots[i].generation);
        slots[i] := slots[i].(refs := slots[i].refs + 1);
        slots[i] := slots[i].(callbackTask := Some(task));
      }
    }

    /**
     The section after the event callback; the generation of a stop to carry out, if any. The dispatch counts if the job
     still runs under the generation it was dispatched under.
     */
    method EndEvent(i: nat, g: uint32) returns (inherited: Option<uint32>)
      requires Valid() && i < slots.Length
      modifies slots
      ensures Valid()
      ensures View() == Act(old(View()), Section.EndEvent(i, g))
      ensures var sl, r := old(slots[i]), slots[i];
              && r.refs == (if sl.refs > 0 then sl.refs - 1 else 0)
              && (r.refs == 0 ==> r.callbackTask.None?)
              && (inherited.Some? <==> r.refs == 0 && sl.stopAfter && sl.busy && sl.state == Stopped)
              && (inherited.Some? ==> inherited.value == sl.generation && !r.stopAfter)
              && r.ticks.last == sl.ticks.last && r.state == sl.state && r.busy == sl.busy
              && r.ticks.dispatches == if sl.generation == g && sl.state == Running
                                       then (sl.ticks.dispatches + 1) % 0x1_0000_0000 else sl.ticks.dispatches
    {
      inherited := None;
      if slots[i].refs > 0 {
        slots[i] := slots[i].(refs := slots[i].refs - 1);
      }
      if slots[i].refs == 0 {
        slots[i] := slots[i].(callbackTask := None);
        if slots[i].stopAfter && slots[i].busy && slots[i].state == Stopped {
          slots[i] := slots[i].(stopAfter := false);
          inherited := Some(slots[i].generation);
        }
      }
      if slots[i].generation == g && slots[i].state == Running {
        var counted := Scheduler.Add32(slots[i].ticks.dispatches, 1);
        slots[i] := slots[i].(ticks := slots[i].ticks.(dispatches := counted));
      }
    }

    /** solar_os_jobs_register_dynamic. */
    method RegisterDynamic(name: string, summary: bool, job: Job) returns (a: Answer)
      requires Valid()
      modifies slots, `count
      ensures Valid() && slots == old(slots)
      ensures a == InvalidArg <==> name == "" || !summary || name != job.name || !job.hasStart
      ensures a in {Accepted, InvalidState, NoSlot} ==>
                (a == InvalidState <==> exists k :: 0 <= k < old(count) && Named(old(slots[..])[k], name))
      ensures a == NoSlot ==> forall k :: statics <= k < slots.Length ==> slots[k].entry.Some?
      ensures a == Accepted ==>
                exists i :: && statics <= i < slots.Length && i < count && old(slots[..])[i].entry.None?
                            && slots[i] == BLANK.(entry := Some(Entry(name, Some(job))), dynamic := true)
      ensures a in {Accepted, InvalidArg, InvalidState, NoSlot} && (a != Accepted ==> View() == old(View()))
      ensures View() == Act(old(View()), AddJob(name, summary, job))
    {
      if name == "" || !summary || name != job.name || !job.hasStart { return InvalidArg; }
      var found := IndexOf(name);
      if found.Some? { return InvalidState; }
      var index := statics;
      while index < slots.Length && slots[index].entry.Some?
        invariant statics <= index <= slots.Length
        invariant FirstFree(slots[..], statics) == FirstFree(slots[..], index)
      {
        index := index + 1;
      }
      if index >= slots.Length { return NoSlot; }
      slots[index] := BLANK;
      slots[index] := slots[index].(entry := Some(Entry(name, Some(job))));
      slots[index] := slots[index].(dynamic := true);
      if index >= count {
        count := index + 1;
      }
      a := Accepted;
    }

    /** solar_os_jobs_unregister_dynamic. */
    method UnregisterDynamic(name: string, job: Job) returns (a: Answer)
      requires Valid()
      modifies slots, `count
      ensures Valid() && slots == old(slots)
      ensures var found := IndexByName(old(View()), name);
              && (a == NotFound <==> found.None?)
              && (found.Some? ==>
                    var sl := old(slots[..])[found.value];
                    var ours := sl.dynamic && sl.entry.Some? && sl.entry.value.job == Some(job);
                    var idle := sl.state == Stopped && !sl.busy && sl.refs == 0 && sl.pending.None?;
                    && (a == InvalidArg <==> !ours) && (a == InvalidState <==> ours && !idle)
                    && (a == Accepted <==> ours && idle)
                    && (a == Accepted ==> slots[..][found.value] == BLANK))
      ensures a != Accepted ==> View() == old(View())
      ensures View() == Act(old(View()), RemoveJob(name, job))
    {
      var found := IndexOf(name);
      if found.None? { return NotFound; }
      var i := found.value;
      if !slots[i].dynamic || slots[i].entry.None? || slots[i].entry.value.job != Some(job) { return InvalidArg; }
      if slots[i].state != Stopped || slots[i].busy || slots[i].refs != 0 || slots[i].pending.Some? {
        return InvalidState;
      }
      slots[i] := BLANK;
      ghost var cleared := slots[..];
      assert cleared == old(slots[..])[i := BLANK];
      while count > statics && slots[count - 1].entry.None?
        invariant statics <= count <= slots.Length && slots[..] == cleared
        invariant Trimmed(cleared, old(count), statics) == Trimmed(cleared, count, statics)
        invariant count <= old(count)
      {
        count := count - 1;
      }
      a := Accepted;
    }
  }

  /** solar_os_jobs_init: refused when the generated registry does not have the size it was compiled for. */
  method InitJobs(entries: seq<Option<Entry>>, expected: nat, extra: nat) returns (r: Option<Registry>)
    ensures r.Some? <==> |entries| == expected
    ensures r.Some? ==>
            fresh(r.value) && fresh(r.value.slots) && r.value.Valid() && r.value.slots.Length == expected + extra
    ensures r.Some? ==> r.value.View() == InitialTable(entries, extra)
  {
    if |entries| != expected {
      return None;
    }
    var registry := new Registry(entries, extra);
    return Some(registry);
  }
}
