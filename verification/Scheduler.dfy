/** Tick deadlines on wrapping 32-bit clocks: src/solar_os_scheduler.c and the wait that the runtime
    loop asks src/solar_os_jobs.c for. */
module Scheduler {
  import opened Words

  const INTERVAL_DEFAULT_MS: uint32 := 25

  /** Unsigned 32-bit subtraction and addition. */
  function Sub32(a: uint32, b: uint32): (r: uint32)
    ensures Add32(b, r) == a
  {
    (a - b) % 0x1_0000_0000
  }

  function Add32(a: uint32, b: uint32): (r: uint32) { (a + b) % 0x1_0000_0000 }

  /** solar_os_tick_interval_ms. */
  function Interval(configured: uint32, fallback: uint32): (r: uint32) {
    if configured != 0 then configured else fallback
  }

  /** The dispatch count and the time of the last dispatch are all that deadlines depend on. */
  predicate Due(dispatches: uint32, last: uint32, interval: uint32, now: uint32) {
    dispatches == 0 || Sub32(now, last) >= interval
  }

  /** solar_os_tick_wait_ms. */
  function WaitMs(dispatches: uint32, last: uint32, interval: uint32, now: uint32): (r: uint32) {
    if dispatches == 0 then 0
    else
      var elapsed := Sub32(now, last);
      if elapsed < interval then interval - elapsed else 0
  }

  /** A wait is exact: not due at any moment before its end, due at its end. */
  lemma WaitIsExact(dispatches: uint32, last: uint32, interval: uint32, now: uint32, d: uint32)
    ensures Due(dispatches, last, interval, now) <==> WaitMs(dispatches, last, interval, now) == 0
    ensures d < WaitMs(dispatches, last, interval, now) ==> !Due(dispatches, last, interval, Add32(now, d))
    ensures d == WaitMs(dispatches, last, interval, now) ==> Due(dispatches, last, interval, Add32(now, d))
  {
    var elapsed := Sub32(now, last);
    var w := WaitMs(dispatches, last, interval, now);
    if w > 0 && d <= w {
      assert elapsed + d <= interval;
      Shifted(now, last, d);
    }
  }

  /** Moving on by d adds d to the elapsed time, unless the clock wraps past the last dispatch. */
  lemma Shifted(now: uint32, last: uint32, d: uint32)
    requires Sub32(now, last) + d < 0x1_0000_0000
    ensures Sub32(Add32(now, d), last) == Sub32(now, last) + d
  {
  }

  /** solar_os_tick_stats_t, updated in place. */
  class TickStats {
    var intervalMs: uint32
    var deadlineMs: uint32
    var dispatches: uint32
    var misses: uint32
    var lastDispatchMs: uint32
    var lastDurationUs: uint32
    var maxDurationUs: uint32

    /** solar_os_tick_due: a dispatch that is due restarts the interval. */
    method TickDue(configuredMs: uint32, configuredDeadlineMs: uint32, defaultMs: uint32, defaultDeadlineMs: uint32,
                   nowMs: uint32) returns (due: bool)
      modifies this`intervalMs, this`deadlineMs, this`lastDispatchMs
      ensures intervalMs == if configuredMs == 0 then defaultMs else configuredMs
      ensures deadlineMs == if configuredDeadlineMs == 0 then defaultDeadlineMs else configuredDeadlineMs
      ensures due <==> dispatches == 0 || (nowMs - old(lastDispatchMs)) % 0x1_0000_0000 >= intervalMs
      ensures due <==> Due(dispatches, old(lastDispatchMs), Interval(configuredMs, defaultMs), nowMs)
      ensures lastDispatchMs == if due then nowMs else old(lastDispatchMs)
    {
      intervalMs := if configuredMs != 0 then configuredMs else defaultMs;
      deadlineMs := if configuredDeadlineMs != 0 then configuredDeadlineMs else defaultDeadlineMs;
      if dispatches != 0 && Sub32(nowMs, lastDispatchMs) < intervalMs {
        return false;
      }
      lastDispatchMs := nowMs;
      due := true;
    }

    /** solar_os_tick_end: the measured time is clamped into 32 bits; a miss is strictly over the deadline. */
    method TickEnd(durationUs: int) returns (missed: bool)
      modifies this`dispatches, this`lastDurationUs, this`maxDurationUs, this`misses
      ensures dispatches == Add32(old(dispatches), 1)
      ensures lastDurationUs
              == (if durationUs < 0 then 0 else if durationUs > 0xFFFF_FFFF then 0xFFFF_FFFF else durationUs)
      ensures maxDurationUs >= lastDurationUs && maxDurationUs >= old(maxDurationUs)
      ensures maxDurationUs in {lastDurationUs, old(maxDurationUs)}
      ensures missed <==> deadlineMs != 0 && lastDurationUs > deadlineMs * 1000
      ensures misses == if missed then Add32(old(misses), 1) else old(misses)
    {
      var clamped := durationUs;
      if clamped < 0 { clamped := 0; }
      if clamped > 0xFFFF_FFFF { clamped := 0xFFFF_FFFF; }
      dispatches := Add32(dispatches, 1);
      lastDurationUs := clamped;
      if lastDurationUs > maxDurationUs {
        maxDurationUs := lastDurationUs;
      }
      missed := deadlineMs != 0 && lastDurationUs > deadlineMs * 1000;
      if missed {
        misses := Add32(misses, 1);
      }
    }
  }

  /** What the wait computation reads of one job. */
  datatype Ticked = Ticked(running: bool, busy: bool, hasEvent: bool, configured: uint32, dispatches: uint32,
                           last: uint32)
  {
    predicate Eligible() {
      running && !busy && hasEvent
    }

    predicate DueAt(now: uint32) {
      Due(dispatches, last, Interval(configured, INTERVAL_DEFAULT_MS), now)
    }

    function Wait(now: uint32): (r: uint32) {
      WaitMs(dispatches, last, Interval(configured, INTERVAL_DEFAULT_MS), now)
    }
  }

  /**
   A job that the ticker would dispatch at a moment: it runs, is free, has an event callback, and its interval is
   over.
   */
  predicate Wants(j: Ticked, at: uint32) {
    && j.running && !j.busy && j.hasEvent
    && (j.dispatches == 0 || (at - j.last) % 0x1_0000_0000 >= (if j.configured == 0 then 25 else j.configured))
  }

  /** solar_os_jobs_next_tick_wait_ms never oversleeps, and never wakes early without a reason. */
  method NextTickWait(jobs: seq<Ticked>, now: uint32) returns (wait: uint32)
    ensures wait <= 25
    ensures forall i, d: uint32 :: 0 <= i < |jobs| && d < wait ==> !Wants(jobs[i], Add32(now, d))
    ensures wait < 25 ==> exists i :: 0 <= i < |jobs| && Wants(jobs[i], Add32(now, wait))
  {
    wait := INTERVAL_DEFAULT_MS;
    for k := 0 to |jobs|
      invariant wait <= INTERVAL_DEFAULT_MS
      invariant forall i :: 0 <= i < k && jobs[i].Eligible() ==> wait <= jobs[i].Wait(now)
      invariant wait < INTERVAL_DEFAULT_MS ==> exists i :: 0 <= i < k && jobs[i].Eligible() && wait == jobs[i].Wait(now)
    {
      if !jobs[k].running || jobs[k].busy || !jobs[k].hasEvent { continue; }
      var remaining := jobs[k].Wait(now);
      if remaining < wait {
        wait := remaining;
      }
    }
    forall i, d: uint32 | 0 <= i < |jobs| && jobs[i].Eligible() && d <= wait
      ensures d < wait ==> !jobs[i].DueAt(Add32(now, d))
      ensures d == jobs[i].Wait(now) ==> jobs[i].DueAt(Add32(now, d))
    {
      WaitIsExact(jobs[i].dispatches, jobs[i].last, Interval(jobs[i].configured, INTERVAL_DEFAULT_MS), now, d);
    }
  }
}
