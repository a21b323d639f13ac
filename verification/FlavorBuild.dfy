/**
 The build's package selection in scripts/generate_flavor_config.py: load a flavor, add what the board and the layout
 require, prune by target and by capabilities. A dictionary of flags is the set of the names that are True.
 */
module FlavorBuild {
  import opened Wrappers
  import opened DepGraph

  datatype Package = Package(targets: seq<Name>, capabilities: seq<Name>, anyCapabilities: seq<Name>)

  /** `triggers` are the members unless the catalog gives others. */
  datatype Group = Group(immutable: bool, hidden: bool, members: seq<Name>, triggers: seq<Name>,
                         capabilities: seq<Name>, anyCapabilities: seq<Name>)

  /** What load_catalog accepts, as far as it is used here. */
  datatype Catalog = Catalog(g: Graph, defs: map<Name, Package>, groupNames: seq<Name>, groups: map<Name, Group>) {
    ghost predicate Valid() {
      && Known(g) && defs.Keys == All(g) && groups.Keys == (set n | n in groupNames)
      && forall n, p :: n in groups && p in groups[n].members ==> p in All(g)
    }
  }

  /** The parsed tables of a flavor file. */
  datatype Flavor = Flavor(groups: map<Name, bool>, packages: map<Name, bool>)

  datatype Layout = Ota | Single

  datatype Error =
    | UnknownGroups
    | UnknownPackages
    | ImmutableDisabled
    | RequiresDisabled
    | UnknownRequired
    | NoTarget
    | Unavailable

  const LAYOUT_PACKAGE: Name := "service_ota"

  // ---------------------------------------------------------------- what a flavor asks for

  /** The last word on a group: an immutable one is on; the packages table overrides the groups table. */
  predicate GroupOn(cat: Catalog, f: Flavor, n: Name)
    requires n in cat.groups
  {
    if cat.groups[n].immutable then true
    else if n in f.packages then f.packages[n]
    else n in f.groups && f.groups[n]
  }

  /** Package keys that also name a group mean the group. */
  predicate Overrides(cat: Catalog, f: Flavor, p: Name, value: bool) {
    p in f.packages && p !in cat.groups && p in cat.defs && f.packages[p] == value
  }

  function Disabled(cat: Catalog, f: Flavor): set<Name> {
    set p | p in f.packages && Overrides(cat, f, p, false)
  }

  /** All members of some groups. */
  ghost function Members(cat: Catalog, on: set<Name>): set<Name> {
    set n, p | n in on && n in cat.groups && p in cat.groups[n].members :: p
  }

  function ImmutableGroups(cat: Catalog): set<Name> {
    set n | n in cat.groups && cat.groups[n].immutable
  }

  function OnGroups(cat: Catalog, f: Flavor): set<Name> {
    set n | n in cat.groups && GroupOn(cat, f, n)
  }

  ghost function ImmutableMembers(cat: Catalog): set<Name> {
    Members(cat, ImmutableGroups(cat))
  }

  ghost function Chosen(cat: Catalog, f: Flavor): set<Name> {
    set p | p in f.packages && Overrides(cat, f, p, true)
  }

  /** The packages that the flavor turns on itself. */
  ghost function Start(cat: Catalog, f: Flavor): set<Name> {
    Members(cat, OnGroups(cat, f)) - Disabled(cat, f) + Chosen(cat, f) + ImmutableMembers(cat)
  }

  /** load_flavor: the least closed superset of what is asked for, or the first complaint. */
  ghost function LoadSpec(cat: Catalog, f: Flavor): Result<set<Name>, Error> {
    if exists n :: n in f.groups && n !in cat.groups then Err(UnknownGroups)
    else if exists n :: n in f.packages && n !in cat.groups && n !in cat.defs then Err(UnknownPackages)
    else if ImmutableMembers(cat) * Disabled(cat, f) != {} then Err(ImmutableDisabled)
    else if Closure(cat.g, Start(cat, f)) * Disabled(cat, f) != {} then Err(RequiresDisabled)
    else Ok(Closure(cat.g, Start(cat, f)))
  }

  /**
   The switches of a group: the packages table has the last word, then the groups table; an immutable group has none.
   */
  lemma GroupSwitches(cat: Catalog, f: Flavor, n: Name, on: bool)
    requires n in cat.groups
    ensures cat.groups[n].immutable ==> n in OnGroups(cat, f)
    ensures !cat.groups[n].immutable ==> (n in OnGroups(cat, f.(packages := f.packages[n := on])) <==> on)
    ensures !cat.groups[n].immutable && n !in f.packages ==>
            (n in OnGroups(cat, f.(groups := f.groups[n := on])) <==> on)
    ensures !cat.groups[n].immutable && n !in f.packages && n !in f.groups ==> n !in OnGroups(cat, f)
  {
  }

  /** The flavor turns this package off by itself; a name that is also a group's means the group. */
  predicate TurnsOff(cat: Catalog, f: Flavor, p: Name) {
    p in f.packages && !f.packages[p] && p !in cat.groups && p in cat.defs
  }

  /**
   The flavor asks for this package: by itself, as a member of a group that is on unless it is turned off, or as
   immutable.
   */
  ghost predicate AsksFor(cat: Catalog, f: Flavor, p: Name) {
    || (p in f.packages && f.packages[p] && p !in cat.groups && p in cat.defs)
    || (!TurnsOff(cat, f, p) && exists n :: n in cat.groups && n in OnGroups(cat, f) && p in cat.groups[n].members)
    || (exists n :: n in cat.groups && cat.groups[n].immutable && p in cat.groups[n].members)
  }

  /** A selection that does what the flavor asks for, with all dependencies. */
  ghost predicate Honours(cat: Catalog, f: Flavor, t: set<Name>) {
    Closed(cat.g, t) && forall p :: p in All(cat.g) && AsksFor(cat, f, p) ==> p in t
  }

  lemma StartAsks(cat: Catalog, f: Flavor)
    requires cat.Valid()
    ensures Start(cat, f) == set p | p in All(cat.g) && AsksFor(cat, f, p)
  {
  }

  lemma HonoursStart(cat: Catalog, f: Flavor, t: set<Name>)
    requires cat.Valid()
    ensures Honours(cat, f, t) <==> Closed(cat.g, t) && Start(cat, f) <= t
  {
    StartAsks(cat, f);
    if Start(cat, f) <= t {
      forall p | p in All(cat.g) && AsksFor(cat, f, p) ensures p in t {
        assert p in Start(cat, f);
      }
    }
  }

  lemma OffIsDisabled(cat: Catalog, f: Flavor, p: Name)
    ensures p in Disabled(cat, f) <==> TurnsOff(cat, f, p)
  {
  }

  /**
   The complaints about a flavor, each before the next: a group or a package nobody knows, an immutable member turned
   off.
   */
  lemma LoadComplains(cat: Catalog, f: Flavor)
    requires cat.Valid()
    ensures LoadSpec(cat, f) == Err(UnknownGroups) <==> exists n :: n in f.groups && n !in cat.groups
    ensures (forall n :: n in f.groups ==> n in cat.groups) ==>
              (LoadSpec(cat, f) == Err(UnknownPackages) <==>
                 exists p :: p in f.packages && p !in cat.groups && p !in cat.defs)
    ensures (forall n :: n in f.groups ==> n in cat.groups)
            && (forall p :: p in f.packages ==> p in cat.groups || p in cat.defs) ==>
              (LoadSpec(cat, f) == Err(ImmutableDisabled) <==>
                 exists n, p :: n in cat.groups && cat.groups[n].immutable && p in cat.groups[n].members
                     && TurnsOff(cat, f, p))
  {
    if n, p :| n in cat.groups && cat.groups[n].immutable && p in cat.groups[n].members && TurnsOff(cat, f, p) {
      assert p in ImmutableMembers(cat) * Disabled(cat, f);
    } else if ImmutableMembers(cat) * Disabled(cat, f) != {} {
      var p :| p in ImmutableMembers(cat) * Disabled(cat, f);
      OffIsDisabled(cat, f, p);
    }
  }

  lemma NothingOff(cat: Catalog, f: Flavor, r: set<Name>)
    requires LoadSpec(cat, f) == Ok(r)
    ensures forall p :: p in r ==> !TurnsOff(cat, f, p)
  {
    forall p | p in r ensures !TurnsOff(cat, f, p) {
      OffIsDisabled(cat, f, p);
      Apart(r, Disabled(cat, f), p);
    }
  }

  lemma Apart(r: set<Name>, off: set<Name>, p: Name)
    requires r * off == {} && p in r
    ensures p !in off
  {
    assert p in off ==> p in r * off;
  }

  /** The load succeeds: the least selection that honours the flavor, without anything it turns off. */
  lemma LoadHonours(cat: Catalog, f: Flavor, r: set<Name>, t: set<Name>)
    requires cat.Valid() && LoadSpec(cat, f) == Ok(r)
    ensures Honours(cat, f, r) && r <= All(cat.g) && forall p :: p in r ==> !TurnsOff(cat, f, p)
    ensures Honours(cat, f, t) ==> r <= t
  {
    StartKnown(cat, f);
    ClosureBasics(cat.g, Start(cat, f));
    HonoursStart(cat, f, r);
    HonoursStart(cat, f, t);
    NothingOff(cat, f, r);
    if Honours(cat, f, t) {
      ClosureWithin(cat.g, Start(cat, f), t);
    }
  }

  /** It is refused for what the flavor turns off only if every selection that honours it has something of that. */
  lemma LoadRefuses(cat: Catalog, f: Flavor, t: set<Name>)
    requires cat.Valid() && LoadSpec(cat, f) == Err(RequiresDisabled) && Honours(cat, f, t)
    ensures exists p :: p in t && TurnsOff(cat, f, p)
  {
    HonoursStart(cat, f, t);
    ClosureWithin(cat.g, Start(cat, f), t);
    var p :| p in Closure(cat.g, Start(cat, f)) * Disabled(cat, f);
    OffIsDisabled(cat, f, p);
  }

  // ---------------------------------------------------------------- load_flavor

  /** One sweep over the packages: dependencies of enabled packages are enabled, unless one of them is disabled. */
  method Sweep(g: Graph, ghost start: set<Name>, disabled: set<Name>, before: set<Name>)
      returns (enabled: set<Name>, refused: bool)
    requires Known(g) && start <= before <= Closure(g, start) && start <= All(g) && before * disabled == {}
    ensures before <= enabled <= Closure(g, start) && enabled * disabled == {}
    ensures refused ==> Closure(g, start) * disabled != {}
    ensures !refused && enabled == before ==> Closed(g, enabled)
  {
    ClosureBasics(g, start);
    enabled, refused := before, false;
    for i := 0 to |g.packages|
      invariant before <= enabled <= Closure(g, start) && enabled * disabled == {}
      invariant forall k, d :: 0 <= k < i && g.packages[k] in before && Edge(g, g.packages[k], d) ==> d in enabled
    {
      var package := g.packages[i];
      if package in enabled {
        var depends := g.depends[package];
        for j := 0 to |depends|
          invariant before <= enabled <= Closure(g, start) && enabled * disabled == {} && package in enabled
          invariant forall k, d :: 0 <= k < i && g.packages[k] in before && Edge(g, g.packages[k], d) ==> d in enabled
          invariant forall k :: 0 <= k < j ==> depends[k] in enabled
        {
          assert Edge(g, package, depends[j]);
          if depends[j] in disabled {
            assert depends[j] in Closure(g, start) * disabled;
            return enabled, true;
          }
          enabled := enabled + {depends[j]};
        }
      }
    }
  }

  /** The `changed` loop of load_flavor. */
  method Saturate(g: Graph, start: set<Name>, disabled: set<Name>) returns (r: Option<set<Name>>)
    requires Known(g) && start <= All(g) && start * disabled == {}
    ensures r == if Closure(g, start) * disabled != {} then None else Some(Closure(g, start))
  {
    ClosureBasics(g, start);
    var enabled, changed := start, true;
    while changed
      invariant start <= enabled <= Closure(g, start) && enabled * disabled == {}
      invariant !changed ==> Closed(g, enabled)
      decreases |All(g) - enabled|, changed
    {
      var more, refused := Sweep(g, start, disabled, enabled);
      if refused {
        return None;
      }
      Shrinks(All(g), enabled, more);
      changed := more != enabled;
      enabled := more;
    }
    ClosureUnique(g, start, enabled);
    return Some(enabled);
  }

  /** The members of some groups, collected group by group. */
  method CollectMembers(cat: Catalog, on: set<Name>) returns (members: set<Name>)
    requires cat.Valid()
    ensures members == Members(cat, on) && members <= All(cat.g)
  {
    members := {};
    for i := 0 to |cat.groupNames|
      invariant members <= Members(cat, on)
      invariant forall k, p :: 0 <= k < i && cat.groupNames[k] in on && p in cat.groups[cat.groupNames[k]].members ==>
              p in members
    {
      var name := cat.groupNames[i];
      assert name in cat.groups;
      if name in on {
        members := members + set p | p in cat.groups[name].members;
      }
    }
    forall p | p in Members(cat, on) ensures p in members {
      var n :| n in on && n in cat.groups && p in cat.groups[n].members;
      var k :| 0 <= k < |cat.groupNames| && cat.groupNames[k] == n;
    }
  }

  predicate AnyIn(packages: seq<Name>, enabled: set<Name>) {
    exists p :: p in packages && p in enabled
  }

  /** The groups that are in effect: those turned on, and those with a trigger among the enabled packages. */
  function EffectiveGroups(cat: Catalog, f: Flavor, enabled: set<Name>): set<Name> {
    set n | n in cat.groups && (GroupOn(cat, f, n) || AnyIn(cat.groups[n].triggers, enabled))
  }

  /** A group is in effect exactly if it is on, or one of its triggers is enabled. */
  lemma GroupsInEffect(cat: Catalog, f: Flavor, enabled: set<Name>, n: Name)
    ensures n in EffectiveGroups(cat, f, enabled) <==>
              n in OnGroups(cat, f) || (n in cat.groups && exists p :: p in cat.groups[n].triggers && p in enabled)
  {
  }

  /** The loop over the groups at the end of load_flavor. */
  method CollectEffective(cat: Catalog, f: Flavor, enabled: set<Name>) returns (groups: set<Name>)
    requires cat.Valid()
    ensures groups == EffectiveGroups(cat, f, enabled)
  {
    groups := OnGroups(cat, f);
    for i := 0 to |cat.groupNames|
      invariant OnGroups(cat, f) <= groups <= EffectiveGroups(cat, f, enabled)
      invariant forall k :: 0 <= k < i && cat.groupNames[k] in EffectiveGroups(cat, f, enabled) ==>
              cat.groupNames[k] in groups
    {
      var name := cat.groupNames[i];
      assert name in cat.groups;
      if AnyIn(cat.groups[name].triggers, enabled) {
        groups := groups + {name};
      }
    }
  }

  /** load_flavor: the enabled packages, and the groups in effect. */
  method LoadFlavor(cat: Catalog, f: Flavor) returns (r: Result<set<Name>, Error>, groups: set<Name>)
    requires cat.Valid()
    ensures r == LoadSpec(cat, f)
    ensures r.Ok? ==> groups == EffectiveGroups(cat, f, r.value)
  {
    groups := {};
    if !(forall n :: n in f.groups ==> n in cat.groups) {
      return Err(UnknownGroups), {};
    }
    if !(forall n :: n in f.packages ==> n in cat.groups || n in cat.defs) {
      return Err(UnknownPackages), {};
    }
    var members := CollectMembers(cat, OnGroups(cat, f));
    var disabled := Disabled(cat, f);
    var immutable := CollectMembers(cat, ImmutableGroups(cat));
    if immutable * disabled != {} {
      return Err(ImmutableDisabled), {};
    }
    var chosen := set p | p in f.packages && Overrides(cat, f, p, true);
    var start := members - disabled + chosen + immutable;
    assert start == Start(cat, f);
    var saturated := Saturate(cat.g, start, disabled);
    if saturated.None? {
      return Err(RequiresDisabled), {};
    }
    r := Ok(saturated.value);
    groups := CollectEffective(cat, f, saturated.value);
  }

  // ---------------------------------------------------------------- enable_required_packages, apply_update_layout

  /** On a closed selection it adds exactly the closure of the required packages. */
  method EnableRequired(cat: Catalog, enabled: set<Name>, required: set<Name>) returns (r: Result<set<Name>, Error>)
    requires cat.Valid() && enabled <= All(cat.g)
    ensures r.Err? <==> !(required <= All(cat.g))
    ensures r.Err? ==> r.error == UnknownRequired
    ensures r.Ok? ==> enabled <= r.value <= enabled + Closure(cat.g, required)
    ensures r.Ok? && Closed(cat.g, enabled) ==> r.value == enabled + Closure(cat.g, required)
  {
    if !(required <= All(cat.g)) {
      return Err(UnknownRequired);
    }
    ClosureBasics(cat.g, required);
    var result := enabled;
    var pending := ToList(required);
    while pending != []
      invariant Enabling(cat.g, enabled, required, result, pending)
      decreases |All(cat.g) - result|, |pending|
    {
      ghost var before := result;
      result, pending := EnableOne(cat.g, enabled, required, result, pending);
      Shrinks(All(cat.g), before, result);
    }
    if Closed(cat.g, enabled) {
      ClosureWithin(cat.g, required, result);
    }
    return Ok(result);
  }

  /** What is known while the worklist runs. */
  ghost predicate Enabling(g: Graph, enabled: set<Name>, required: set<Name>, result: set<Name>, pending: seq<Name>) {
    && enabled <= result <= enabled + Closure(g, required)
    && (forall p :: p in pending ==> p in Closure(g, required))
    && (forall p :: p in required ==> p in result || p in pending)
    && forall p, d :: p in result && p !in enabled && Edge(g, p, d) ==> d in result || d in pending
  }

  /** One turn: the last of the list, unless it is enabled already. */
  method EnableOne(g: Graph, ghost enabled: set<Name>, ghost required: set<Name>, before: set<Name>, queue: seq<Name>)
      returns (result: set<Name>, pending: seq<Name>)
    requires Known(g) && required <= All(g) && queue != [] && Enabling(g, enabled, required, before, queue)
    ensures Enabling(g, enabled, required, result, pending) && before <= result
    ensures result == before ==> |pending| < |queue|
  {
    ClosureBasics(g, required);
    var package := queue[|queue| - 1];
    result, pending := before, queue[..|queue| - 1];
    assert queue == pending + [package];
    if package !in result {
      result := result + {package};
      pending := pending + g.depends[package];
      assert forall d :: d in g.depends[package] ==> Edge(g, package, d);
    }
  }

  method ApplyUpdateLayout(cat: Catalog, enabled: set<Name>, layout: Layout) returns (r: Result<set<Name>, Error>)
    requires cat.Valid() && enabled <= All(cat.g) && Closed(cat.g, enabled)
    ensures layout.Single? ==> r == Ok(enabled)
    ensures layout.Ota? ==> r == (if LAYOUT_PACKAGE in All(cat.g) then Ok(enabled + Closure(cat.g, {LAYOUT_PACKAGE}))
                                  else Err(UnknownRequired))
  {
    if layout.Single? {
      return Ok(enabled);
    }
    r := EnableRequired(cat, enabled, {LAYOUT_PACKAGE});
  }

  // ---------------------------------------------------------------- pruning

  predicate TargetAllows(cat: Catalog, target: Name, p: Name) {
    p in cat.defs && (cat.defs[p].targets == [] || target in cat.defs[p].targets)
  }

  /** capabilities_supported. */
  predicate Supports(required: seq<Name>, alternatives: seq<Name>, available: set<Name>) {
    && (forall c :: c in required ==> c in available)
    && (alternatives == [] || AnyIn(alternatives, available))
  }

  /** One available alternative is enough, whatever the others; and without any of them the rest does not help. */
  lemma OneAlternativeIsEnough(required: seq<Name>, alternatives: seq<Name>, available: set<Name>)
    ensures (forall c :: c in required ==> c in available) && (exists c :: c in alternatives && c in available) ==>
              Supports(required, alternatives, available)
    ensures alternatives != [] && (forall c :: c in alternatives ==> c !in available) ==>
              !Supports(required, alternatives, available)
    ensures alternatives == [] ==>
              (Supports(required, alternatives, available) <==> forall c :: c in required ==> c in available)
  {
  }

  predicate CapabilitiesAllow(cat: Catalog, available: set<Name>, p: Name) {
    p in cat.defs && Supports(cat.defs[p].capabilities, cat.defs[p].anyCapabilities, available)
  }

  ghost function ForTarget(cat: Catalog, target: Name): set<Name> {
    set p | p in cat.defs && TargetAllows(cat, target, p)
  }

  ghost function ForCapabilities(cat: Catalog, available: set<Name>): set<Name> {
    set p | p in cat.defs && CapabilitiesAllow(cat, available, p)
  }

  /** What a board offers a package: all capabilities that it requires, and one of its alternatives if it names any. */
  predicate Offers(available: set<Name>, def: Package) {
    && (forall c :: c in def.capabilities ==> c in available)
    && (def.anyCapabilities != [] ==> exists c :: c in def.anyCapabilities && c in available)
  }

  /** All that a package needs, itself included, is offered. */
  ghost predicate OfferedAll(cat: Catalog, available: set<Name>, p: Name) {
    forall q :: q in Closure(cat.g, {p}) ==> q in cat.defs && Offers(available, cat.defs[q])
  }

  /** All that a package needs is made for the target, or for every one. */
  ghost predicate MadeFor(cat: Catalog, target: Name, p: Name) {
    forall q :: q in Closure(cat.g, {p}) ==>
      q in cat.defs && (cat.defs[q].targets != [] ==> target in cat.defs[q].targets)
  }

  /** From a closed selection the pruning by capabilities keeps exactly the packages that are offered all they need. */
  lemma CapabilityPruningKeeps(cat: Catalog, enabled: set<Name>, available: set<Name>, p: Name)
    requires cat.Valid() && enabled <= All(cat.g) && Closed(cat.g, enabled)
    ensures p in Core(cat.g, enabled * ForCapabilities(cat, available))
            <==> p in enabled && OfferedAll(cat, available, p)
  {
    if p in enabled {
      CoreByClosure(cat.g, enabled * ForCapabilities(cat, available), p);
      ClosureWithin(cat.g, {p}, enabled);
      forall q | q in Closure(cat.g, {p})
        ensures q in ForCapabilities(cat, available) <==> Offers(available, cat.defs[q])
      {
      }
    } else {
      CoreIsGreatest(cat.g, enabled * ForCapabilities(cat, available));
    }
  }

  /** And the pruning by target exactly those that are made for it with all they need. */
  lemma TargetPruningKeeps(cat: Catalog, enabled: set<Name>, target: Name, p: Name)
    requires cat.Valid() && enabled <= All(cat.g) && Closed(cat.g, enabled)
    ensures p in Core(cat.g, enabled * ForTarget(cat, target)) <==> p in enabled && MadeFor(cat, target, p)
  {
    if p in enabled {
      CoreByClosure(cat.g, enabled * ForTarget(cat, target), p);
      ClosureWithin(cat.g, {p}, enabled);
      forall q | q in Closure(cat.g, {p})
        ensures q in ForTarget(cat, target) <==> (cat.defs[q].targets != [] ==> target in cat.defs[q].targets)
      {
      }
    } else {
      CoreIsGreatest(cat.g, enabled * ForTarget(cat, target));
    }
  }

  /** One sweep: packages with a disabled dependency go. */
  method DropSweep(g: Graph, ghost from: set<Name>, before: set<Name>) returns (kept: set<Name>)
    requires Known(g) && before <= All(g) && Core(g, from) <= before <= from
    ensures Core(g, from) <= kept <= before
    ensures kept == before ==> Closed(g, kept)
  {
    CoreIsGreatest(g, from);
    kept := before;
    for i := 0 to |g.packages|
      invariant Core(g, from) <= kept <= before
      invariant kept == before ==>
                  forall k, d :: 0 <= k < i && g.packages[k] in before && Edge(g, g.packages[k], d) ==> d in before
    {
      var package := g.packages[i];
      if package in kept && !(forall d :: d in g.depends[package] ==> d in kept) {
        var d :| d in g.depends[package] && d !in kept;
        assert Edge(g, package, d);
        kept := kept - {package};
      }
    }
  }

  /** The `changed` loop of both pruning functions: what remains is the greatest closed subset, whatever the order. */
  method DropUnsupported(g: Graph, enabled: set<Name>) returns (kept: set<Name>)
    requires Known(g) && enabled <= All(g)
    ensures kept == Core(g, enabled)
  {
    CoreIsGreatest(g, enabled);
    kept := enabled;
    var changed := true;
    while changed
      invariant Core(g, enabled) <= kept <= enabled
      invariant !changed ==> Closed(g, kept)
      decreases kept, changed
    {
      var fewer := DropSweep(g, enabled, kept);
      changed := fewer != kept;
      kept := fewer;
    }
    CoreUnique(g, enabled, kept);
  }

  method ApplyTargetPruning(cat: Catalog, enabled: set<Name>, target: Name) returns (r: Result<set<Name>, Error>)
    requires cat.Valid() && enabled <= All(cat.g)
    ensures r == if target == "" then Err(NoTarget) else Ok(Core(cat.g, enabled * ForTarget(cat, target)))
  {
    if target == "" {
      return Err(NoTarget);
    }
    var pruned := enabled;
    for i := 0 to |cat.g.packages|
      invariant enabled * ForTarget(cat, target) <= pruned <= enabled
      invariant forall k :: 0 <= k < i ==> cat.g.packages[k] !in pruned || TargetAllows(cat, target, cat.g.packages[k])
    {
      var p := cat.g.packages[i];
      assert p in cat.defs;
      if p in pruned && cat.defs[p].targets != [] && target !in cat.defs[p].targets {
        pruned := pruned - {p};
      }
    }
    assert pruned == enabled * ForTarget(cat, target);
    var kept := DropUnsupported(cat.g, pruned);
    return Ok(kept);
  }

  predicate GroupSupported(cat: Catalog, available: set<Name>, n: Name)
    requires n in cat.groups
  {
    Supports(cat.groups[n].capabilities, cat.groups[n].anyCapabilities, available)
  }

  /**
   The verdict on a group: an immutable one stays; another needs its capabilities, and a kept member if it was on, or
   a trigger.
   */
  predicate GroupStays(cat: Catalog, was: set<Name>, kept: set<Name>, available: set<Name>, n: Name)
    requires n in cat.groups
  {
    var d := cat.groups[n];
    d.immutable
        || (GroupSupported(cat, available, n) && ((n in was && AnyIn(d.members, kept)) || AnyIn(d.triggers, kept)))
  }

  function PrunedGroups(cat: Catalog, was: set<Name>, kept: set<Name>, available: set<Name>): set<Name> {
    set n | n in cat.groups && GroupStays(cat, was, kept, available, n)
  }

  /** The first loop over the groups: what lacks support or members goes. */
  predicate GroupHolds(cat: Catalog, kept: set<Name>, available: set<Name>, n: Name)
    requires n in cat.groups
  {
    GroupSupported(cat, available, n) && (cat.groups[n].immutable || AnyIn(cat.groups[n].members, kept))
  }

  /** Both loops over the groups. */
  method PruneGroups(cat: Catalog, was: set<Name>, kept: set<Name>, available: set<Name>) returns (groups: set<Name>)
    requires cat.Valid() && was <= cat.groups.Keys
    ensures groups == PrunedGroups(cat, was, kept, available)
  {
    groups := was;
    for i := 0 to |cat.groupNames|
      invariant groups <= was
      invariant forall n :: n in was && GroupHolds(cat, kept, available, n) ==> n in groups
      invariant forall k :: 0 <= k < i && cat.groupNames[k] in groups ==>
              GroupHolds(cat, kept, available, cat.groupNames[k])
    {
      var name := cat.groupNames[i];
      assert name in cat.groups;
      if name in groups && !GroupHolds(cat, kept, available, name) {
        groups := groups - {name};
      }
    }
    ghost var first := groups;
    assert forall n :: n in first <==> n in was && GroupHolds(cat, kept, available, n);
    for i := 0 to |cat.groupNames|
      invariant first <= groups <= PrunedGroups(cat, was, kept, available) + first
      invariant forall k :: 0 <= k < i && GroupStays(cat, was, kept, available, cat.groupNames[k]) ==>
              cat.groupNames[k] in groups
    {
      var name := cat.groupNames[i];
      assert name in cat.groups;
      if cat.groups[name].immutable {
        groups := groups + {name};
      } else if name !in groups && GroupSupported(cat, available, name) && AnyIn(cat.groups[name].triggers, kept) {
        groups := groups + {name};
      }
    }
    assert forall n :: n in cat.groups ==> n in cat.groupNames;
  }

  /** What a board offers a group. */
  predicate OffersGroup(available: set<Name>, d: Group) {
    && (forall c :: c in d.capabilities ==> c in available)
    && (d.anyCapabilities != [] ==> exists c :: c in d.anyCapabilities && c in available)
  }

  /**
   A group stays exactly if it is immutable, or is offered what it needs and either was on with a member left or is
   triggered.
   */
  lemma GroupsThatStay(cat: Catalog, was: set<Name>, kept: set<Name>, available: set<Name>, n: Name)
    ensures n in PrunedGroups(cat, was, kept, available) <==>
              && n in cat.groups
              && (cat.groups[n].immutable
                  || (OffersGroup(available, cat.groups[n])
                      && ((n in was && exists p :: p in cat.groups[n].members && p in kept)
                          || exists p :: p in cat.groups[n].triggers && p in kept)))
  {
  }

  /** When the members are the triggers, what the flavor said of the group does not matter in the end. */
  lemma DefaultTriggers(cat: Catalog, was: set<Name>, kept: set<Name>, available: set<Name>, n: Name)
    requires n in cat.groups && cat.groups[n].triggers == cat.groups[n].members
    ensures n in PrunedGroups(cat, was, kept, available)
       <==> cat.groups[n].immutable || (GroupSupported(cat, available, n) && AnyIn(cat.groups[n].members, kept))
  {
  }

  method ApplyCapabilityPruning(cat: Catalog, groups: set<Name>, enabled: set<Name>, available: set<Name>)
      returns (kept: set<Name>, keptGroups: set<Name>)
    requires cat.Valid() && enabled <= All(cat.g) && groups <= cat.groups.Keys
    ensures kept == Core(cat.g, enabled * ForCapabilities(cat, available))
    ensures keptGroups == PrunedGroups(cat, groups, kept, available)
  {
    var pruned := enabled;
    for i := 0 to |cat.g.packages|
      invariant enabled * ForCapabilities(cat, available) <= pruned <= enabled
      invariant forall k :: 0 <= k < i ==>
                  cat.g.packages[k] !in pruned || CapabilitiesAllow(cat, available, cat.g.packages[k])
    {
      var p := cat.g.packages[i];
      assert p in cat.defs;
      if p in pruned && !CapabilitiesAllow(cat, available, p) {
        pruned := pruned - {p};
      }
    }
    assert pruned == enabled * ForCapabilities(cat, available);
    kept := DropUnsupported(cat.g, pruned);
    keptGroups := PruneGroups(cat, groups, kept, available);
  }

  // ---------------------------------------------------------------- main

  /** The board that is built for. */
  datatype Board = Board(required: set<Name>, target: Name, capabilities: set<Name>, layout: Layout)

  ghost function Supported(cat: Catalog, b: Board): set<Name> {
    ForTarget(cat, b.target) * ForCapabilities(cat, b.capabilities)
  }

  ghost function LayoutPackages(b: Board): set<Name> {
    if b.layout.Ota? then {LAYOUT_PACKAGE} else {}
  }

  /** Everything wanted before pruning. */
  ghost function Wanted(cat: Catalog, f: Flavor, b: Board): set<Name> {
    Closure(cat.g, Start(cat, f) + b.required + LayoutPackages(b))
  }

  /**
   The selection of a build: the greatest closed supported part of everything wanted, if it keeps what the board
   requires.
   */
  ghost function BuildSpec(cat: Catalog, f: Flavor, b: Board): Result<set<Name>, Error> {
    if LoadSpec(cat, f).Err? then LoadSpec(cat, f)
    else if !(b.required + LayoutPackages(b) <= All(cat.g)) then Err(UnknownRequired)
    else if b.target == "" then Err(NoTarget)
    else
      var kept := Core(cat.g, Wanted(cat, f, b) * Supported(cat, b));
      if b.required <= kept then Ok(kept) else Err(Unavailable)
  }

  /**
   What a build keeps: of everything wanted, exactly the packages that are made for the target and offered all they
   need. It is unavailable exactly when a required package is not.
   */
  lemma BuildKeeps(cat: Catalog, f: Flavor, b: Board)
    requires cat.Valid() && LoadSpec(cat, f).Ok? && b.required + LayoutPackages(b) <= All(cat.g) && b.target != ""
    ensures BuildSpec(cat, f, b).Ok? ==> forall p :: p in BuildSpec(cat, f, b).value <==>
              p in Wanted(cat, f, b) && MadeFor(cat, b.target, p) && OfferedAll(cat, b.capabilities, p)
    ensures BuildSpec(cat, f, b) == Err(Unavailable) <==>
              exists p :: p in b.required && !(MadeFor(cat, b.target, p) && OfferedAll(cat, b.capabilities, p))
  {
    StartKnown(cat, f);
    ClosureBasics(cat.g, Start(cat, f) + b.required + LayoutPackages(b));
    var w := Wanted(cat, f, b);
    forall p ensures p in Core(cat.g, w * Supported(cat, b)) <==>
                       p in w && MadeFor(cat, b.target, p) && OfferedAll(cat, b.capabilities, p)
    {
      BothPrunings(cat, w, b, p);
    }
  }

  lemma BothPrunings(cat: Catalog, w: set<Name>, b: Board, p: Name)
    requires cat.Valid() && w <= All(cat.g) && Closed(cat.g, w)
    ensures p in Core(cat.g, w * Supported(cat, b)) <==>
              p in w && MadeFor(cat, b.target, p) && OfferedAll(cat, b.capabilities, p)
  {
    TargetPruningKeeps(cat, w, b.target, p);
    CapabilityPruningKeeps(cat, w, b.capabilities, p);
    if p in w {
      CoreByClosure(cat.g, w * Supported(cat, b), p);
      CoreByClosure(cat.g, w * ForTarget(cat, b.target), p);
      CoreByClosure(cat.g, w * ForCapabilities(cat, b.capabilities), p);
    } else {
      CoreIsGreatest(cat.g, w * Supported(cat, b));
    }
  }

  lemma StartKnown(cat: Catalog, f: Flavor)
    requires cat.Valid()
    ensures Start(cat, f) <= All(cat.g)
  {
  }

  /** The groups of a build: those of the flavor that stay with the packages that are left. */
  ghost function GroupSpec(cat: Catalog, f: Flavor, b: Board, kept: set<Name>): set<Name> {
    PrunedGroups(cat, EffectiveGroups(cat, f, Closure(cat.g, Start(cat, f))), kept, b.capabilities)
  }

  /** `main`: the steps in their order. */
  method Build(cat: Catalog, f: Flavor, b: Board) returns (r: Result<set<Name>, Error>, groups: set<Name>)
    requires cat.Valid()
    ensures r == BuildSpec(cat, f, b)
    ensures r.Ok? ==> groups == GroupSpec(cat, f, b, r.value)
  {
    var loaded;
    loaded, groups := LoadFlavor(cat, f);
    if loaded.Err? {
      return loaded, {};
    }
    StartKnown(cat, f);
    ClosureBasics(cat.g, Start(cat, f));
    var required := EnableRequired(cat, loaded.value, b.required);
    if required.Err? {
      return required, {};
    }
    ClosureOfUnion(cat.g, Start(cat, f), b.required);
    ClosureBasics(cat.g, Start(cat, f) + b.required);
    assert required.value == Closure(cat.g, Start(cat, f) + b.required);
    var laidOut := ApplyUpdateLayout(cat, required.value, b.layout);
    if laidOut.Err? {
      return laidOut, {};
    }
    LayoutAdds(cat, f, b);
    assert laidOut.value == Wanted(cat, f, b);
    r, groups := Prune(cat, groups, laidOut.value, b);
  }

  /** The end of `main`: both prunings and the last check. */
  method Prune(cat: Catalog, effective: set<Name>, enabled: set<Name>, b: Board)
      returns (r: Result<set<Name>, Error>, groups: set<Name>)
    requires cat.Valid() && enabled <= All(cat.g) && effective <= cat.groups.Keys
    ensures var kept := Core(cat.g, enabled * Supported(cat, b));
            && r == (if b.target == "" then Err(NoTarget) else if b.required <= kept then Ok(kept)
                else Err(Unavailable))
            && (r.Ok? ==> groups == PrunedGroups(cat, effective, kept, b.capabilities))
  {
    var targeted := ApplyTargetPruning(cat, enabled, b.target);
    if targeted.Err? {
      return targeted, {};
    }
    CoreIsGreatest(cat.g, enabled * ForTarget(cat, b.target));
    var kept;
    kept, groups := ApplyCapabilityPruning(cat, effective, targeted.value, b.capabilities);
    PrunedOnce(cat, enabled, b);
    r := if b.required <= kept then Ok(kept) else Err(Unavailable);
  }

  lemma LayoutAdds(cat: Catalog, f: Flavor, b: Board)
    requires cat.Valid() && b.required + LayoutPackages(b) <= All(cat.g)
    ensures Wanted(cat, f, b) <= All(cat.g)
    ensures Wanted(cat, f, b) == Closure(cat.g, Start(cat, f) + b.required)
                                 + (if b.layout.Ota? then Closure(cat.g, {LAYOUT_PACKAGE}) else {})
  {
    StartKnown(cat, f);
    var asked := Start(cat, f) + b.required;
    ClosureOfUnion(cat.g, asked, LayoutPackages(b));
    ClosureBasics(cat.g, asked + LayoutPackages(b));
    assert asked + {} == asked;
  }

  /** The two prunings are one. */
  lemma PrunedOnce(cat: Catalog, s: set<Name>, b: Board)
    ensures Core(cat.g, Core(cat.g, s * ForTarget(cat, b.target)) * ForCapabilities(cat, b.capabilities))
         == Core(cat.g, s * Supported(cat, b))
         == Core(cat.g, Core(cat.g, s * ForCapabilities(cat, b.capabilities)) * ForTarget(cat, b.target))
  {
    CoreTwice(cat.g, s, ForTarget(cat, b.target), ForCapabilities(cat, b.capabilities));
    assert s * ForTarget(cat, b.target) * ForCapabilities(cat, b.capabilities) == s * Supported(cat, b);
  }
}
