/** The names of jobs in every run: no two jobs ever share one, so looking a job up by its name finds that job. */
module JobNames {
  import opened Wrappers
  import opened JobTable
  import opened JobSections
  import opened JobProtocol
  import opened JobRuns
  import opened JobReplay

  function NameIn(t: Table, i: nat): (r: Option<string>)
    requires i < |t.slots|
  {
    if t.slots[i].entry.Some? then Some(t.slots[i].entry.value.name) else None
  }

  /** No two slots carry one name, none carries the empty one, and what is used lies in the scanned range. */
  ghost predicate NamesApart(t: Table) {
    && t.Valid()
    && (forall i, j :: 0 <= i < j < |t.slots| && NameIn(t, i).Some? ==> NameIn(t, i) != NameIn(t, j))
    && (forall i :: 0 <= i < |t.slots| ==> NameIn(t, i) != Some(""))
    && (forall i :: 0 <= i < |t.slots| && NameIn(t, i).Some? ==> i < t.count)
  }

  /** A dynamic job is registered under its own name, and can be started. */
  ghost predicate DynamicsFit(t: Table) {
    forall i :: 0 <= i < |t.slots| && t.slots[i].dynamic ==>
      && i >= t.statics && t.slots[i].entry.Some? && JobOf(t.slots[i]).Some?
      && JobOf(t.slots[i]).value.hasStart && JobOf(t.slots[i]).value.name == t.slots[i].entry.value.name
  }

  /** Slots keep what they carry. */
  lemma SameNames(t: Table, r: Table)
    requires NamesApart(t) && DynamicsFit(t) && r.statics == t.statics && r.count == t.count && |r.slots| == |t.slots|
    requires forall i :: 0 <= i < |t.slots| ==>
               r.slots[i].entry == t.slots[i].entry && r.slots[i].dynamic == t.slots[i].dynamic
    ensures NamesApart(r) && DynamicsFit(r)
  {
    forall i | 0 <= i < |t.slots| ensures NameIn(r, i) == NameIn(t, i) {
    }
  }

  lemma RegisterNames(t: Table, name: string, summary: bool, job: Job)
    requires NamesApart(t) && DynamicsFit(t) && RegisterAnswer(t, name, summary, job) == Accepted
    ensures NamesApart(Register(t, name, job)) && DynamicsFit(Register(t, name, job))
  {
    var r, k := Register(t, name, job), FirstFree(t.slots, t.statics);
    forall i | 0 <= i < |t.slots| ensures NameIn(r, i) == if i == k then Some(name) else NameIn(t, i) {
    }
    forall i | 0 <= i < |t.slots| ensures NameIn(t, i) != Some(name) {
      assert i < t.count ==> !Named(t.slots[i], name);
    }
  }

  lemma UnregisterNames(t: Table, name: string, job: Job)
    requires NamesApart(t) && DynamicsFit(t) && UnregisterAnswer(t, name, job) == Accepted
    ensures NamesApart(Unregister(t, name, job)) && DynamicsFit(Unregister(t, name, job))
  {
    var r, k := Unregister(t, name, job), IndexByName(t, name).value;
    var slots := t.slots[k := BLANK];
    forall i | 0 <= i < |t.slots| ensures NameIn(r, i) == if i == k then None else NameIn(t, i) {
    }
    forall i | 0 <= i < |t.slots| && NameIn(r, i).Some? ensures i < r.count {
      assert slots[i].entry.Some? && i < t.count;
    }
  }

  lemma ActNames(t: Table, s: Section)
    requires NamesApart(t) && DynamicsFit(t) && s.Fits(|t.slots|)
    ensures NamesApart(Act(t, s)) && DynamicsFit(Act(t, s))
  {
    if s.AddJob? {
      if RegisterAnswer(t, s.name, s.summary, s.job) == Accepted { RegisterNames(t, s.name, s.summary, s.job); }
    } else if s.RemoveJob? {
      if UnregisterAnswer(t, s.name, s.job) == Accepted { UnregisterNames(t, s.name, s.job); }
    } else {
      SameNames(t, Act(t, s));
    }
  }

  lemma {:induction false} ActAllNames(t: Table, ss: seq<Section>)
    requires NamesApart(t) && DynamicsFit(t) && forall s :: s in ss ==> s.Fits(|t.slots|)
    ensures NamesApart(ActAll(t, ss)) && DynamicsFit(ActAll(t, ss))
    decreases |ss|
  {
    if ss != [] {
      ActAllNames(t, ss[..|ss| - 1]);
      ActNames(ActAll(t, ss[..|ss| - 1]), ss[|ss| - 1]);
    }
  }

  /** The generated registry names its jobs apart. */
  ghost predicate StaticsApart(statics: seq<Option<Entry>>) {
    && (forall i, j :: 0 <= i < j < |statics| && statics[i].Some? && statics[j].Some? ==>
          statics[i].value.name != statics[j].value.name)
    && (forall i :: 0 <= i < |statics| && statics[i].Some? ==> statics[i].value.name != "")
  }

  /**
   Then in every run a job is found under its name, in its own slot, and dynamic jobs are what registration asks for.
   */
  lemma EveryRunFindsJobs(statics: seq<Option<Entry>>, extra: nat, events: seq<Event>, i: nat)
    requires StaticsApart(statics)
    ensures var t := Reached(statics, extra, events).core.table;
            && NamesApart(t) && DynamicsFit(t)
            && (i < |t.slots| && t.slots[i].entry.Some? ==> IndexByName(t, t.slots[i].entry.value.name) == Some(i))
  {
    var s := Reached(statics, extra, []);
    RunActs(s, events);
    FreshNames(statics, extra);
    ActAllNames(s.core.table, Sections(s, events));
    FoundByName(Reached(statics, extra, events).core.table, i);
  }

  lemma FreshNames(statics: seq<Option<Entry>>, extra: nat)
    requires StaticsApart(statics)
    ensures NamesApart(Init(statics, extra).core.table) && DynamicsFit(Init(statics, extra).core.table)
  {
  }

  lemma FoundByName(t: Table, i: nat)
    requires NamesApart(t)
    ensures i < |t.slots| && t.slots[i].entry.Some? ==> IndexByName(t, t.slots[i].entry.value.name) == Some(i)
  {
    if i < |t.slots| && t.slots[i].entry.Some? {
      assert NameIn(t, i).Some? && Named(t.slots[i], t.slots[i].entry.value.name);
      var found := IndexByName(t, t.slots[i].entry.value.name);
      if found.Some? {
        assert NameIn(t, found.value) == NameIn(t, i);
      }
    }
  }
}
