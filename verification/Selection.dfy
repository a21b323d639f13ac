/**
 The interactive builder's package selection in scripts/flavor_config.py, the flavor it writes, and the agreement of
 the two pipelines: building the written flavor enables exactly what the builder shows.
 */
module Selection {
  import opened Wrappers
  import opened DepGraph
  import opened FlavorBuild

  /** The builder's context. Without a target or without capabilities nothing is pruned. */
  datatype Context = Context(cat: Catalog, required: set<Name>, target: Name, capabilities: Option<set<Name>>,
                             layout: Option<Layout>)
  {
    ghost predicate Valid() {
      cat.Valid() && required + LayoutNeeds() <= All(cat.g)
    }

    function LayoutNeeds(): set<Name> {
      if layout == Some(Ota) then {LAYOUT_PACKAGE} else {}
    }

    predicate Prunes() { target != "" && capabilities.Some? }
  }

  ghost function ImmutablePackages(cat: Catalog): set<Name> {
    Closure(cat.g, ImmutableMembers(cat))
  }

  /** `_resolve`. */
  ghost function Resolve(c: Context, packages: set<Name>): set<Name> {
    var closed := Closure(c.cat.g, packages);
    if !c.Prunes() then closed
    else Core(c.cat.g, closed * ForTarget(c.cat, c.target) * ForCapabilities(c.cat, c.capabilities.value))
  }

  ghost function MandatoryUnpruned(c: Context): set<Name> {
    Closure(c.cat.g, ImmutablePackages(c.cat) + c.required + c.LayoutNeeds())
  }

  ghost function Selected(c: Context, requested: set<Name>): set<Name> {
    Resolve(c, requested + MandatoryUnpruned(c))
  }

  lemma CoreMonotone(g: Graph, s: set<Name>, t: set<Name>)
    requires s <= t
    ensures Core(g, s) <= Core(g, t)
  {
    CoreIsGreatest(g, s);
    CoreIsGreatest(g, t);
  }

  lemma ImmutableKnown(cat: Catalog)
    requires cat.Valid()
    ensures ImmutableMembers(cat) <= All(cat.g) && ImmutablePackages(cat) <= All(cat.g)
  {
    ClosureBasics(cat.g, ImmutableMembers(cat));
  }

  lemma MandatoryKnown(c: Context)
    requires c.Valid()
    ensures MandatoryUnpruned(c) <= All(c.cat.g)
  {
    ImmutableKnown(c.cat);
    ClosureBasics(c.cat.g, ImmutablePackages(c.cat) + c.required + c.LayoutNeeds());
  }

  /** A larger request selects no less; in particular everything mandatory is always selected. */
  lemma ResolveMonotone(c: Context, s: set<Name>, t: set<Name>)
    requires c.Valid() && s <= t <= All(c.cat.g)
    ensures Resolve(c, s) <= Resolve(c, t)
  {
    ClosureMonotone(c.cat.g, s, t);
    if c.Prunes() {
      var ok := ForTarget(c.cat, c.target) * ForCapabilities(c.cat, c.capabilities.value);
      var a, b := Closure(c.cat.g, s), Closure(c.cat.g, t);
      assert a * ForTarget(c.cat, c.target) * ForCapabilities(c.cat, c.capabilities.value) == a * ok;
      assert b * ForTarget(c.cat, c.target) * ForCapabilities(c.cat, c.capabilities.value) == b * ok;
      CoreMonotone(c.cat.g, a * ok, b * ok);
    }
  }

  /** The packages that the builder wants before it looks at the board. */
  ghost function Asked(c: Context, requested: set<Name>): set<Name> {
    requested + ImmutableMembers(c.cat) + c.required + (if c.layout == Some(Ota) then {"service_ota"} else {})
  }

  /**
   What is selected: all that is asked for with its dependencies; and with a target and capabilities, of that exactly
   what is made for the target and offered all it needs.
   */
  lemma SelectedMeans(c: Context, requested: set<Name>, p: Name)
    requires c.Valid() && requested <= All(c.cat.g)
    ensures p in Selected(c, requested) <==>
              && p in Closure(c.cat.g, Asked(c, requested))
              && (c.target != "" && c.capabilities.Some? ==>
                    MadeFor(c.cat, c.target, p) && OfferedAll(c.cat, c.capabilities.value, p))
  {
    SameWanted(c, requested);
    MandatoryKnown(c);
    ImmutableKnown(c.cat);
    assert requested + ImmutableMembers(c.cat) + c.required + c.LayoutNeeds() == Asked(c, requested);
    var w := Closure(c.cat.g, Asked(c, requested));
    ClosureBasics(c.cat.g, Asked(c, requested));
    if c.Prunes() {
      var b := Board({}, c.target, c.capabilities.value, Single);
      BothPrunings(c.cat, w, b, p);
      assert w * Supported(c.cat, b) == w * ForTarget(c.cat, c.target) * ForCapabilities(c.cat, c.capabilities.value);
    }
  }

  // ---------------------------------------------------------------- SelectionModel

  method ResolvePackages(c: Context, packages: set<Name>) returns (r: set<Name>)
    requires c.Valid() && packages <= All(c.cat.g)
    ensures r == Resolve(c, packages)
  {
    r := DependencyClosure(c.cat.g, packages);
    ClosureBasics(c.cat.g, packages);
    if !c.Prunes() {
      return;
    }
    var targeted := ApplyTargetPruning(c.cat, r, c.target);
    CoreIsGreatest(c.cat.g, r * ForTarget(c.cat, c.target));
    CoreTwice(c.cat.g, r, ForTarget(c.cat, c.target), ForCapabilities(c.cat, c.capabilities.value));
    var groups;
    r, groups := ApplyCapabilityPruning(c.cat, {}, targeted.value, c.capabilities.value);
  }

  class SelectionModel {
    const c: Context
    const mandatoryUnpruned: set<Name>
    const mandatory: set<Name>
    var requested: set<Name>

    ghost predicate Valid()
      reads this
    {
      && c.Valid() && mandatoryUnpruned == MandatoryUnpruned(c) && mandatory == Resolve(c, mandatoryUnpruned)
      && c.required <= mandatory && requested <= All(c.cat.g)
    }

    constructor (c: Context, mandatoryUnpruned: set<Name>, mandatory: set<Name>, requested: set<Name>)
      requires c.Valid() && mandatoryUnpruned == MandatoryUnpruned(c) && mandatory == Resolve(c, mandatoryUnpruned)
      requires c.required <= mandatory && requested <= All(c.cat.g)
      ensures Valid() && this.c == c && this.requested == requested - {LAYOUT_PACKAGE}
    {
      this.c, this.mandatoryUnpruned, this.mandatory := c, mandatoryUnpruned, mandatory;
      this.requested := requested - {LAYOUT_PACKAGE};
    }

    method Selection() returns (r: set<Name>)
      requires Valid()
      ensures r == Selected(c, requested) && mandatory <= r
    {
      MandatoryKnown(c);
      ResolveMonotone(c, mandatoryUnpruned, requested + mandatoryUnpruned);
      r := ResolvePackages(c, requested + mandatoryUnpruned);
    }

    /** preview_enable: what `enable` would select. */
    method PreviewEnable(packages: set<Name>) returns (r: set<Name>)
      requires Valid() && packages <= All(c.cat.g)
      ensures r == Selected(c, requested + packages)
    {
      MandatoryKnown(c);
      assert requested + mandatoryUnpruned + packages == requested + packages + mandatoryUnpruned;
      r := ResolvePackages(c, requested + mandatoryUnpruned + packages);
    }

    /** preview_disable: what `disable` would select. */
    method PreviewDisable(packages: set<Name>) returns (r: set<Name>)
      requires Valid()
      ensures r == Selected(c, requested - packages)
    {
      MandatoryKnown(c);
      r := ResolvePackages(c, requested - packages + mandatoryUnpruned);
    }

    method Enable(packages: set<Name>)
      requires Valid() && packages <= All(c.cat.g)
      modifies this
      ensures Valid() && requested == old(requested) + packages
    {
      requested := requested + packages;
    }

    method Disable(packages: set<Name>)
      requires Valid()
      modifies this
      ensures Valid() && requested == old(requested) - packages
    {
      requested := requested - packages;
    }

    /** A mandatory package cannot be toggled; any other one is flipped alone. */
    method TogglePackage(package: Name)
      requires Valid() && package in All(c.cat.g)
      modifies this
      ensures Valid()
      ensures requested == if package in mandatory then old(requested)
                           else if package in old(requested) then old(requested) - {package}
                               else old(requested) + {package}
    {
      if package in mandatory {
        return;
      }
      if package in requested {
        Disable({package});
      } else {
        Enable({package});
      }
    }
  }

  /** The construction of a SelectionModel, which rejects a board whose required packages are unavailable. */
  method NewModel(c: Context, requested: set<Name>) returns (r: Result<SelectionModel, Error>)
    requires c.Valid() && requested <= All(c.cat.g)
    ensures r.Err? <==> !(c.required <= Resolve(c, MandatoryUnpruned(c)))
    ensures r.Err? ==> r.error == Unavailable
    ensures r.Ok? ==>
            r.value.Valid() && r.value.c == c && r.value.requested == requested - {LAYOUT_PACKAGE} && fresh(r.value)
  {
    ImmutableKnown(c.cat);
    MandatoryKnown(c);
    var members := CollectMembers(c.cat, ImmutableGroups(c.cat));
    var immutable := DependencyClosure(c.cat.g, members);
    var unpruned := DependencyClosure(c.cat.g, immutable + c.required + c.LayoutNeeds());
    var mandatory := ResolvePackages(c, unpruned);
    if !(c.required <= mandatory) {
      return Err(Unavailable);
    }
    var model := new SelectionModel(c, unpruned, mandatory, requested);
    return Ok(model);
  }

  // ---------------------------------------------------------------- render_flavor

  predicate Complete(cat: Catalog, requested: set<Name>, n: Name) {
    && n in cat.groups && !cat.groups[n].immutable && !cat.groups[n].hidden && cat.groups[n].members != []
    && forall p :: p in cat.groups[n].members ==> p in requested
  }

  function CompleteGroups(cat: Catalog, requested: set<Name>): set<Name> {
    set n | n in cat.groups && Complete(cat, requested, n)
  }

  ghost function Covered(cat: Catalog, requested: set<Name>): set<Name> {
    Members(cat, CompleteGroups(cat, requested))
  }

  /** The packages written one by one. */
  ghost function Individual(cat: Catalog, requested: set<Name>): set<Name> {
    set p | p in All(cat.g) && p in requested && p !in Covered(cat, requested)
  }

  /** render_flavor, as the tables that reading the text gives back. */
  ghost function Render(cat: Catalog, requested: set<Name>): Flavor {
    Flavor(map n | n in cat.groups
        && Complete(cat, requested, n) :: true, map p | p in Individual(cat, requested) :: true)
  }

  /**
   What is written: every visible group with members whose members are all requested, and one by one the requested
   packages that are in none of these. Nothing is written as off.
   */
  lemma RenderWrites(cat: Catalog, requested: set<Name>, n: Name)
    ensures n in Render(cat, requested).groups <==>
              && n in cat.groups && !cat.groups[n].immutable && !cat.groups[n].hidden && cat.groups[n].members != []
              && forall p :: p in cat.groups[n].members ==> p in requested
    ensures n in Render(cat, requested).packages <==>
              && n in All(cat.g) && n in requested
              && forall k :: k in Render(cat, requested).groups && k in cat.groups ==> n !in cat.groups[k].members
    ensures forall k :: k in Render(cat, requested).groups ==> Render(cat, requested).groups[k]
    ensures forall p :: p in Render(cat, requested).packages ==> Render(cat, requested).packages[p]
  {
  }

  /** Packages written one by one whose names are also group names: reading the text back takes them for the groups. */
  ghost function Clashes(cat: Catalog, requested: set<Name>): set<Name> {
    set p | p in Individual(cat, requested) && p in cat.groups
  }

  /** What is turned on whatever becomes of the clashing names. */
  ghost function Undisputed(cat: Catalog, requested: set<Name>): set<Name> {
    Covered(cat, requested) + (Individual(cat, requested) - Clashes(cat, requested)) + ImmutableMembers(cat)
  }

  lemma CoveredRequested(cat: Catalog, requested: set<Name>)
    requires requested <= All(cat.g)
    ensures Covered(cat, requested) + Individual(cat, requested) == requested
  {
  }

  /**
   What the written flavor turns on, for any names: a clashing package is lost, and the group of that name is on
   instead.
   */
  lemma RenderedStartExactly(cat: Catalog, requested: set<Name>)
    requires cat.Valid() && requested <= All(cat.g)
    ensures Disabled(cat, Render(cat, requested)) == {}
    ensures Start(cat, Render(cat, requested)) == Undisputed(cat, requested) + Members(cat, Clashes(cat, requested))
    ensures requested + ImmutableMembers(cat) == Undisputed(cat, requested) + Clashes(cat, requested)
  {
    var f, x := Render(cat, requested), Clashes(cat, requested);
    assert Chosen(cat, f) == Individual(cat, requested) - x;
    OnGroupsRendered(cat, requested);
    CoveredRequested(cat, requested);
  }

  lemma OnGroupsRendered(cat: Catalog, requested: set<Name>)
    requires cat.Valid()
    ensures Members(cat, OnGroups(cat, Render(cat, requested)))
         == Covered(cat, requested) + Members(cat, Clashes(cat, requested)) + ImmutableMembers(cat)
  {
    var f, x := Render(cat, requested), Clashes(cat, requested);
    assert OnGroups(cat, f) == CompleteGroups(cat, requested) + x + ImmutableGroups(cat);
  }

  /**
   The groups that are switched on by mistake have among their members all that is lost for it, and nothing unasked
   for.
   */
  ghost predicate Harmless(cat: Catalog, requested: set<Name>) {
    var x := Clashes(cat, requested);
    && x <= Members(cat, x) + ImmutableMembers(cat)
    && Members(cat, x) <= requested + ImmutableMembers(cat)
  }

  /** The written flavor asks for exactly the request and what is immutable, if and only if the clashes are harmless. */
  lemma RenderedStart(cat: Catalog, requested: set<Name>)
    requires cat.Valid() && requested <= All(cat.g)
    ensures Start(cat, Render(cat, requested)) == requested + ImmutableMembers(cat) <==> Harmless(cat, requested)
  {
    RenderedStartExactly(cat, requested);
    var x := Clashes(cat, requested);
    forall p | p in x ensures p !in Covered(cat, requested) + (Individual(cat, requested) - x) {
    }
  }

  /** A request whose packages share no name with a group, or only with groups of just themselves. */
  lemma OwnNamesAreHarmless(cat: Catalog, requested: set<Name>)
    requires forall n :: n in Clashes(cat, requested) ==> cat.groups[n].members == [n]
    ensures Harmless(cat, requested)
  {
    var x := Clashes(cat, requested);
    forall p | p in x ensures p in Members(cat, x) {
      assert p in cat.groups[p].members;
    }
  }

  lemma RenderedLoads(cat: Catalog, requested: set<Name>)
    requires cat.Valid() && requested <= All(cat.g)
    ensures LoadSpec(cat, Render(cat, requested)) == Ok(Closure(cat.g, Start(cat, Render(cat, requested))))
  {
    RenderedStartExactly(cat, requested);
    var f := Render(cat, requested);
    assert forall n :: n in f.groups ==> n in cat.groups;
    assert forall p :: p in f.packages ==> p in cat.defs;
  }

  /** What the builder closes and what the build closes are the same. */
  lemma SameWanted(c: Context, requested: set<Name>)
    requires c.Valid() && requested <= All(c.cat.g)
    ensures Closure(c.cat.g, requested + MandatoryUnpruned(c))
         == Closure(c.cat.g, requested + ImmutableMembers(c.cat) + c.required + c.LayoutNeeds())
  {
    var g, imm, rest := c.cat.g, ImmutableMembers(c.cat), c.required + c.LayoutNeeds();
    ImmutableKnown(c.cat);
    MandatoryKnown(c);
    var base := ImmutablePackages(c.cat) + rest;
    assert ImmutablePackages(c.cat) + c.required + c.LayoutNeeds() == base;
    ClosureOfUnion(g, requested, MandatoryUnpruned(c));
    ClosureTwice(g, base);
    ClosureOfUnion(g, ImmutablePackages(c.cat), rest);
    ClosureTwice(g, imm);
    ClosureOfUnion(g, imm, rest);
    ClosureOfUnion(g, requested, imm + rest);
    assert requested + (imm + rest) == requested + imm + c.required + c.LayoutNeeds();
  }

  ghost function BoardOf(c: Context): Board
    requires c.Prunes() && c.layout.Some?
  {
    Board(c.required, c.target, c.capabilities.value, c.layout.value)
  }

  /** What the board can have at all. */
  ghost function Buildable(c: Context): set<Name>
    requires c.Prunes()
  {
    Core(c.cat.g, All(c.cat.g) * (ForTarget(c.cat, c.target) * ForCapabilities(c.cat, c.capabilities.value)))
  }

  /** Of a closed set the pruning keeps what the board can have. */
  lemma CoreOfClosed(g: Graph, s: set<Name>, ok: set<Name>)
    requires Known(g) && s <= All(g) && Closed(g, s)
    ensures Core(g, s * ok) == s * Core(g, All(g) * ok)
  {
    CoreIsGreatest(g, s * ok);
    CoreIsGreatest(g, All(g) * ok);
    assert Closed(g, s * Core(g, All(g) * ok));
  }

  ghost function Builder(c: Context, requested: set<Name>): Result<set<Name>, Error> {
    if c.required <= Resolve(c, MandatoryUnpruned(c)) then Ok(Selected(c, requested)) else Err(Unavailable)
  }

  /** What is wanted besides the clashing names. */
  ghost function OtherWanted(c: Context, requested: set<Name>): set<Name> {
    Undisputed(c.cat, requested) + c.required + c.LayoutNeeds()
  }

  /**
   The clashes make no difference on this board: what the board can have of the lost packages and their dependencies
   is wanted for another reason, and so is what it can have of the members of the groups switched on instead.
   */
  ghost predicate Unnoticed(c: Context, requested: set<Name>)
    requires c.Prunes()
  {
    var g, x := c.cat.g, Clashes(c.cat, requested);
    var rest, lost, gained := Closure(g, OtherWanted(c, requested)), Closure(g, x), Closure(g, Members(c.cat, x));
    lost * Buildable(c) <= rest + gained && gained * Buildable(c) <= rest + lost
  }

  /** Both pipelines' wants, side by side. */
  lemma TwoWants(c: Context, requested: set<Name>)
    requires c.Valid() && c.layout.Some? && c.Prunes() && requested <= All(c.cat.g)
    ensures var g, x := c.cat.g, Clashes(c.cat, requested);
            var rest := Closure(g, OtherWanted(c, requested));
            && Wanted(c.cat, Render(c.cat, requested), BoardOf(c)) == rest + Closure(g, Members(c.cat, x))
            && Closure(g, requested + MandatoryUnpruned(c)) == rest + Closure(g, x)
  {
    var g, x, other := c.cat.g, Clashes(c.cat, requested), OtherWanted(c, requested);
    RenderedStartExactly(c.cat, requested);
    SameWanted(c, requested);
    MembersKnown(c.cat, x);
    ImmutableKnown(c.cat);
    CoveredRequested(c.cat, requested);
    assert LayoutPackages(BoardOf(c)) == c.LayoutNeeds();
    ClosureOfUnion(g, other, Members(c.cat, x));
    ClosureOfUnion(g, other, x);
    assert Start(c.cat, Render(c.cat, requested)) + c.required + c.LayoutNeeds() == other + Members(c.cat, x);
    assert requested + ImmutableMembers(c.cat) + c.required + c.LayoutNeeds() == other + x;
  }

  lemma MembersKnown(cat: Catalog, on: set<Name>)
    requires cat.Valid()
    ensures Members(cat, on) <= All(cat.g)
  {
  }

  /** The build of the written flavor: the board's required packages survive or fail as they do in the builder. */
  lemma BuildOfRendered(c: Context, requested: set<Name>)
    requires c.Valid() && c.Prunes() && c.layout.Some? && requested <= All(c.cat.g)
    ensures var w := Wanted(c.cat, Render(c.cat, requested), BoardOf(c));
            BuildSpec(c.cat, Render(c.cat, requested), BoardOf(c))
            == if c.required <= Resolve(c, MandatoryUnpruned(c)) then Ok(w * Buildable(c)) else Err(Unavailable)
    ensures Selected(c, requested) == Closure(c.cat.g, requested + MandatoryUnpruned(c)) * Buildable(c)
  {
    var g, f, b := c.cat.g, Render(c.cat, requested), BoardOf(c);
    var w, v, m := Wanted(c.cat, f, b), Closure(g, requested + MandatoryUnpruned(c)), MandatoryUnpruned(c);
    var ok := ForTarget(c.cat, c.target) * ForCapabilities(c.cat, c.capabilities.value);
    RenderedLoads(c.cat, requested);
    RenderedStartExactly(c.cat, requested);
    StartKnown(c.cat, f);
    MandatoryClosed(c);
    assert LayoutPackages(b) == c.LayoutNeeds() && Supported(c.cat, b) == ok;
    ClosureBasics(g, Start(c.cat, f) + b.required + LayoutPackages(b));
    ClosureBasics(g, requested + m);
    CoreOfClosed(g, w, ok);
    CoreOfClosed(g, v, ok);
    CoreOfClosed(g, m, ok);
    SameOk(c, v);
    SameOk(c, m);
  }

  lemma MandatoryClosed(c: Context)
    requires c.Valid()
    ensures MandatoryUnpruned(c) <= All(c.cat.g) && Closed(c.cat.g, MandatoryUnpruned(c))
    ensures c.required <= MandatoryUnpruned(c) && Closure(c.cat.g, MandatoryUnpruned(c)) == MandatoryUnpruned(c)
  {
    ImmutableKnown(c.cat);
    var base := ImmutablePackages(c.cat) + c.required + c.LayoutNeeds();
    ClosureBasics(c.cat.g, base);
    ClosureTwice(c.cat.g, base);
  }

  /**
   Building the flavor that the builder writes enables exactly the builder's selection, and rejects the board's
   required packages exactly when the builder does, if and only if the board is rejected by both or the clashes go
   unnoticed on it.
   */
  lemma BuilderAgreesExactly(c: Context, requested: set<Name>)
    requires c.Valid() && c.Prunes() && c.layout.Some? && requested <= All(c.cat.g)
    ensures BuildSpec(c.cat, Render(c.cat, requested), BoardOf(c)) == Builder(c, requested)
       <==> !(c.required <= Resolve(c, MandatoryUnpruned(c))) || Unnoticed(c, requested)
  {
    BuildOfRendered(c, requested);
    TwoWants(c, requested);
    var g, x := c.cat.g, Clashes(c.cat, requested);
    SameCut(Closure(g, OtherWanted(c, requested)), Closure(g, x), Closure(g, Members(c.cat, x)), Buildable(c));
  }

  lemma SameCut(rest: set<Name>, lost: set<Name>, gained: set<Name>, fit: set<Name>)
    ensures (rest + gained) * fit == (rest + lost) * fit <==> lost * fit <= rest + gained && gained * fit <= rest + lost
  {
    if (rest + gained) * fit == (rest + lost) * fit {
      forall p | p in lost * fit ensures p in rest + gained {
        assert p in (rest + lost) * fit;
      }
      forall p | p in gained * fit ensures p in rest + lost {
        assert p in (rest + gained) * fit;
      }
    }
  }

  /** So the two pipelines agree on every board whenever the clashes are harmless; in particular when there are none. */
  lemma BuilderAgreesWithBuild(c: Context, requested: set<Name>)
    requires c.Valid() && c.Prunes() && c.layout.Some? && requested <= All(c.cat.g) && Harmless(c.cat, requested)
    ensures BuildSpec(c.cat, Render(c.cat, requested), BoardOf(c)) == Builder(c, requested)
  {
    var g, x, other := c.cat.g, Clashes(c.cat, requested), OtherWanted(c, requested);
    BuilderAgreesExactly(c, requested);
    RenderedStartExactly(c.cat, requested);
    MembersKnown(c.cat, x);
    ImmutableKnown(c.cat);
    CoveredRequested(c.cat, requested);
    ClosureOfUnion(g, other, Members(c.cat, x));
    ClosureOfUnion(g, other, x);
    ClosureMonotone(g, x, other + Members(c.cat, x));
    ClosureMonotone(g, Members(c.cat, x), other + x);
  }

  lemma SameOk(c: Context, s: set<Name>)
    requires c.Prunes() && c.layout.Some?
    ensures s * Supported(c.cat, BoardOf(c))
            == s * ForTarget(c.cat, c.target) * ForCapabilities(c.cat, c.capabilities.value)
  {
  }

  // ---------------------------------------------------------------- load_requested_packages

  predicate Mentioned(table: map<Name, bool>, n: Name) { n in table && table[n] }

  function MentionedGroups(cat: Catalog, f: Flavor): set<Name> {
    set n | n in cat.groups && (Mentioned(f.groups, n) || Mentioned(f.packages, n))
  }

  /** The package names of the packages table with one value. */
  function Flagged(cat: Catalog, f: Flavor, value: bool): set<Name> {
    set p | p in f.packages && p in cat.defs && f.packages[p] == value
  }

  /** What load_requested_packages collects. */
  ghost function RequestedSpec(cat: Catalog, f: Flavor): set<Name> {
    Members(cat, MentionedGroups(cat, f)) + Flagged(cat, f, true) - Flagged(cat, f, false) - ImmutablePackages(cat)
  }

  /**
   What a flavor is taken to request: the packages table has the last word on a package, and otherwise a group that
   either table turns on brings its members; what is immutable anyway is left out.
   */
  lemma RequestedMeans(cat: Catalog, f: Flavor, p: Name)
    requires cat.Valid()
    ensures p in RequestedSpec(cat, f) <==>
              && p !in Closure(cat.g, ImmutableMembers(cat))
              && if p in f.packages && p in cat.defs then f.packages[p]
                 else exists n :: && n in cat.groups && p in cat.groups[n].members
                                  && ((n in f.groups && f.groups[n]) || (n in f.packages && f.packages[n]))
  {
  }

  /** The loop over the packages table. */
  method ApplyFlags(cat: Catalog, f: Flavor, members: set<Name>) returns (requested: set<Name>)
    ensures requested == members + Flagged(cat, f, true) - Flagged(cat, f, false)
  {
    requested := members;
    var names := ToList(f.packages.Keys);
    for i := 0 to |names|
      invariant forall p ::
                  p in requested <==> (if p in names[..i] && p in cat.defs then f.packages[p] else p in members)
    {
      var name := names[i];
      assert names[..i + 1] == names[..i] + [name];
      if name in cat.defs {
        if f.packages[name] {
          requested := requested + {name};
        } else {
          requested := requested - {name};
        }
      }
    }
    assert names[..|names|] == names;
  }

  method LoadRequested(cat: Catalog, f: Flavor) returns (requested: set<Name>)
    requires cat.Valid()
    ensures requested == RequestedSpec(cat, f)
  {
    requested := CollectMembers(cat, MentionedGroups(cat, f));
    requested := ApplyFlags(cat, f, requested);
    var immutable := CollectMembers(cat, ImmutableGroups(cat));
    var closure := DependencyClosure(cat.g, immutable);
    requested := requested - closure;
  }

  /** Opening the written flavor again, for any names. */
  lemma RenderedMentions(cat: Catalog, requested: set<Name>)
    requires cat.Valid() && requested <= All(cat.g)
    ensures RequestedSpec(cat, Render(cat, requested))
         == requested + Members(cat, Clashes(cat, requested)) - ImmutablePackages(cat)
  {
    var f, x := Render(cat, requested), Clashes(cat, requested);
    assert MentionedGroups(cat, f) == CompleteGroups(cat, requested) + x;
    assert Members(cat, MentionedGroups(cat, f)) == Covered(cat, requested) + Members(cat, x);
    assert Flagged(cat, f, true) == Individual(cat, requested) && Flagged(cat, f, false) == {};
    CoveredRequested(cat, requested);
  }

  /**
   It gives the request back, without what is immutable anyway, if and only if the groups that are switched on by
   mistake have no members but requested and immutable ones.
   */
  lemma RequestedRoundTrip(cat: Catalog, requested: set<Name>)
    requires cat.Valid() && requested <= All(cat.g)
    ensures RequestedSpec(cat, Render(cat, requested)) == requested - ImmutablePackages(cat)
       <==> Members(cat, Clashes(cat, requested)) <= requested + ImmutablePackages(cat)
  {
    RenderedMentions(cat, requested);
    WithoutMore(requested, Members(cat, Clashes(cat, requested)), ImmutablePackages(cat));
  }

  lemma WithoutMore(s: set<Name>, more: set<Name>, less: set<Name>)
    ensures s + more - less == s - less <==> more <= s + less
  {
    if s + more - less == s - less {
      forall p | p in more ensures p in s + less {
        assert p !in less ==> p in s + more - less;
      }
    }
  }

  // ---------------------------------------------------------------- a flavor that is not what was asked for

  const BARE := Package([], [], [])

  /** Three independent packages; one of them shares its name with a group that it is not a member of. */
  const CLASHING := Catalog(
    Graph(["a", "b", "c"], map["a" := [], "b" := [], "c" := []]), map["a" := BARE, "b" := BARE, "c" := BARE],
    ["base", "a", "both"],
    map["base" := Group(true, false, ["c"], ["c"], [], []), "a" := Group(false, false, ["b"], ["b"], [], []),
        "both" := Group(false, false, ["a", "b"], ["a", "b"], [], [])])

  const ANY_BOARD := Context(CLASHING, {}, "esp32", Some({}), Some(Single))

  lemma ClashingIsValid()
    ensures CLASHING.Valid() && All(CLASHING.g) == {"a", "b", "c"}
    ensures Edgeless(CLASHING.g)
  {
    assert All(CLASHING.g) == {"a", "b", "c"};
  }

  ghost predicate Edgeless(g: Graph) {
    forall p, d :: !Edge(g, p, d)
  }

  /** Without dependencies a set is its own closure and its own core. */
  lemma Independent(g: Graph, s: set<Name>)
    requires Known(g) && s <= All(g) && Edgeless(g)
    ensures Closure(g, s) == s && Core(g, s) == s
  {
    ClosureUnique(g, s, Closure(g, s));
    ClosureWithin(g, s, s);
    ClosureBasics(g, s);
    CoreIsGreatest(g, s);
  }

  lemma ClashingRender()
    ensures Clashes(CLASHING, {"a"}) == {"a"} && Members(CLASHING, {"a"}) == {"b"}
    ensures ImmutableMembers(CLASHING) == {"c"} && Undisputed(CLASHING, {"a"}) == {"c"}
  {
    ClashingIsValid();
    var cat := CLASHING;
    assert "b" in cat.groups["both"].members && "b" in cat.groups["a"].members && "c" in cat.groups["base"].members;
    assert CompleteGroups(cat, {"a"}) == {};
    assert Covered(cat, {"a"}) == {};
    assert Individual(cat, {"a"}) == {"a"};
    assert Clashes(cat, {"a"}) == {"a"};
    assert Members(cat, {"a"}) == {"b"} by {
      assert cat.groups["a"].members == ["b"];
    }
    assert ImmutableGroups(cat) == {"base"};
    assert ImmutableMembers(cat) == {"c"};
  }

  lemma ClashingBoard()
    ensures ANY_BOARD.Valid() && ANY_BOARD.Prunes() && Buildable(ANY_BOARD) == {"a", "b", "c"}
    ensures OtherWanted(ANY_BOARD, {"a"}) == {"c"}
  {
    ClashingIsValid();
    ClashingRender();
    var c, all := ANY_BOARD, {"a", "b", "c"};
    assert ForTarget(CLASHING, c.target) == all && ForCapabilities(CLASHING, {}) == all;
    assert all * (all * all) == all;
    Independent(CLASHING.g, all);
  }

  lemma ClashingClosures()
    ensures Closure(CLASHING.g, {"a"}) == {"a"} && Closure(CLASHING.g, {"b"}) == {"b"}
            && Closure(CLASHING.g, {"c"}) == {"c"}
  {
    ClashingIsValid();
    Independent(CLASHING.g, {"a"});
    Independent(CLASHING.g, {"b"});
    Independent(CLASHING.g, {"c"});
  }

  /** What there is to know of a request on a board that requires nothing. */
  ghost predicate Parts(c: Context, requested: set<Name>, rest: set<Name>, lost: set<Name>, gained: set<Name>) {
    && c.Valid() && c.Prunes() && c.layout.Some? && requested <= All(c.cat.g) && c.required == {}
    && OtherWanted(c, requested) == rest == Closure(c.cat.g, rest)
    && Clashes(c.cat, requested) == lost == Closure(c.cat.g, lost)
    && Members(c.cat, lost) == gained == Closure(c.cat.g, gained)
    && rest + lost + gained <= Buildable(c)
  }

  lemma PartsDecide(c: Context, requested: set<Name>, rest: set<Name>, lost: set<Name>, gained: set<Name>)
    requires Parts(c, requested, rest, lost, gained)
    ensures Selected(c, requested) == rest + lost
    ensures BuildSpec(c.cat, Render(c.cat, requested), BoardOf(c)) == Ok(rest + gained)
  {
    TwoWants(c, requested);
    BuildOfRendered(c, requested);
    assert (rest + gained) * Buildable(c) == rest + gained && (rest + lost) * Buildable(c) == rest + lost;
  }

  lemma ClashingParts()
    ensures Parts(ANY_BOARD, {"a"}, {"c"}, {"a"}, {"b"})
  {
    ClashingIsValid();
    ClashingRender();
    ClashingBoard();
    ClashingClosures();
  }

  /**
   The request for "a" is written as `a = true` among the packages, which the build reads as the group "a": it leaves
   "a" out and builds "b" instead, on a board that supports everything.
   */
  lemma NamesCanClash()
    ensures ANY_BOARD.Valid() && ANY_BOARD.Prunes()
    ensures Selected(ANY_BOARD, {"a"}) == {"c"} + {"a"}
    ensures BuildSpec(CLASHING, Render(CLASHING, {"a"}), BoardOf(ANY_BOARD)) == Ok({"c"} + {"b"})
  {
    ClashingParts();
    PartsDecide(ANY_BOARD, {"a"}, {"c"}, {"a"}, {"b"});
  }
}
