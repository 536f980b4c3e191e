/** The marketplace planner: a depth-first topological sort of the part of the catalogue
    that an install target needs, with cycle and unknown-dependency detection. */
module InstallPlan {
  import opened Wrappers

  /** A catalogue entry, reduced to the fields the planner and the load-time check read.
      An absent dependency list is the empty one. */
  datatype Plugin = Plugin(
    id: string,
    packageName: string,
    categoryId: string,
    categoryLabel: string,
    dependencies: seq<string>
  )

  datatype PlanError =
    | Cycle(path: seq<string>)
    | UnknownDependency(dependency: string, requiredBy: string)

  type Plan = Result<seq<Plugin>, PlanError>

  function Ids(plugins: seq<Plugin>): set<string> {
    set plugin | plugin in plugins :: plugin.id
  }

  /** The lookup table of a catalogue: a later entry replaces an earlier one with the same id. */
  function ById(catalog: seq<Plugin>): (m: map<string, Plugin>)
    ensures m.Keys == Ids(catalog)
    ensures forall id :: id in m ==> m[id].id == id && m[id] in catalog
  {
    if catalog == [] then
      map[]
    else
      var last := Last(catalog);
      var front := catalog[..|catalog| - 1];
      assert catalog == front + [last];
      ById(front)[last.id := last]
  }

  function IndexOf(s: seq<string>, x: string): (i: nat)
    requires x in s
    ensures i < |s| && s[i] == x && x !in s[..i]
  {
    if s[0] == x then 0 else 1 + IndexOf(s[1..], x)
  }

  // ----- the traversal

  /** One visit: `visiting` is the chain of entries being expanded and `plan` lists the completed
      ones. `universe` bounds the ids that can occur; the ids outside `visiting` shrink. */
  function Visit(byId: map<string, Plugin>, ghost universe: set<string>,
                 visiting: seq<string>, plan: seq<Plugin>, entry: Plugin): Plan
    requires byId.Keys <= universe && entry.id in universe
    requires forall id :: id in byId ==> byId[id].id == id
    decreases universe - Elems(visiting), 0, 0
  {
    if entry.id in Ids(plan) then
      Success(plan)
    else if entry.id in visiting then
      Failure(Cycle(visiting[IndexOf(visiting, entry.id)..] + [entry.id]))
    else
      assert entry.id in universe - Elems(visiting);
      match VisitAll(byId, universe, visiting + [entry.id], plan, entry.dependencies)
      case Failure(error) => Failure(error)
      case Success(dependencyPlan) => Success(dependencyPlan + [entry])
  }

  /** The dependency loop of the entry that `visiting` ends with. */
  function VisitAll(byId: map<string, Plugin>, ghost universe: set<string>,
                    visiting: seq<string>, plan: seq<Plugin>, dependencies: seq<string>): Plan
    requires byId.Keys <= universe && visiting != []
    requires forall id :: id in byId ==> byId[id].id == id
    decreases universe - Elems(visiting), 1, |dependencies|
  {
    if dependencies == [] then
      Success(plan)
    else if dependencies[0] !in byId then
      Failure(UnknownDependency(dependencies[0], Last(visiting)))
    else
      match Visit(byId, universe, visiting, plan, byId[dependencies[0]])
      case Failure(error) => Failure(error)
      case Success(nextPlan) => VisitAll(byId, universe, visiting, nextPlan, dependencies[1..])
  }

  /** What `marketplaceInstallPlan` returns or throws. */
  function PlanOf(plugin: Plugin, catalog: seq<Plugin>): Plan {
    var byId := ById(catalog);
    Visit(byId, byId.Keys + {plugin.id}, [], [], plugin)
  }

  // ----- the dependency graph, independently of any traversal

  /** The graph an install of `plugin` walks: the catalogue, with the target under its own id. */
  function Graph(plugin: Plugin, catalog: seq<Plugin>): map<string, Plugin> {
    ById(catalog)[plugin.id := plugin]
  }

  predicate Edge(g: map<string, Plugin>, a: string, b: string) {
    a in g && b in g[a].dependencies
  }

  ghost predicate IsPath(g: map<string, Plugin>, p: seq<string>) {
    p != [] && forall i :: 0 <= i < |p| - 1 ==> Edge(g, p[i], p[i + 1])
  }

  ghost predicate Connects(g: map<string, Plugin>, p: seq<string>, a: string, b: string) {
    IsPath(g, p) && p[0] == a && Last(p) == b
  }

  ghost predicate Reaches(g: map<string, Plugin>, a: string, b: string) {
    exists p :: Connects(g, p, a, b)
  }

  /** A closed walk of at least one edge, first and last node written twice as the error does. */
  ghost predicate IsCycle(g: map<string, Plugin>, p: seq<string>) {
    IsPath(g, p) && |p| >= 2 && p[0] == Last(p)
  }

  /** Every dependency that can be reached is a known entry. */
  ghost predicate ClosedFrom(g: map<string, Plugin>, root: string) {
    forall id :: Reaches(g, root, id) ==> id in g
  }

  ghost predicate AcyclicFrom(g: map<string, Plugin>, root: string) {
    forall p :: IsCycle(g, p) ==> !Reaches(g, root, p[0])
  }

  ghost predicate Plannable(plugin: Plugin, catalog: seq<Plugin>) {
    var g := Graph(plugin, catalog);
    ClosedFrom(g, plugin.id) && AcyclicFrom(g, plugin.id)
  }

  /** Every entry comes after all of its dependencies. */
  ghost predicate DependenciesFirst(plan: seq<Plugin>) {
    forall i, d :: 0 <= i < |plan| && d in plan[i].dependencies ==> d in Ids(plan[..i])
  }

  ghost predicate DistinctIds(plan: seq<Plugin>) {
    forall i, j :: 0 <= i < j < |plan| ==> plan[i].id != plan[j].id
  }

  /** What a caller wants of a plan. */
  ghost predicate IsInstallPlan(plugin: Plugin, catalog: seq<Plugin>, plan: seq<Plugin>) {
    var g := Graph(plugin, catalog);
    && plan != [] && Last(plan) == plugin
    && DistinctIds(plan)
    && DependenciesFirst(plan)
    && (forall id :: id in Ids(plan) <==> Reaches(g, plugin.id, id))
    && (forall i :: 0 <= i < |plan| ==> plan[i].id in g && g[plan[i].id] == plan[i])
  }

  /** The reported error describes something that is really in the reachable graph. */
  ghost predicate RealError(plugin: Plugin, catalog: seq<Plugin>, error: PlanError) {
    var g := Graph(plugin, catalog);
    match error
    case Cycle(path) => IsCycle(g, path) && Reaches(g, plugin.id, path[0])
    case UnknownDependency(dependency, requiredBy) =>
      dependency !in ById(catalog) && Edge(g, requiredBy, dependency) && Reaches(g, plugin.id, requiredBy)
  }

  // ----- paths

  lemma ExtendPath(g: map<string, Plugin>, p: seq<string>, b: string)
    requires IsPath(g, p) && Edge(g, Last(p), b)
    ensures IsPath(g, p + [b])
  {
  }

  lemma ReachesStep(g: map<string, Plugin>, a: string, b: string, c: string)
    requires Reaches(g, a, b) && Edge(g, b, c)
    ensures Reaches(g, a, c)
  {
    var p :| Connects(g, p, a, b);
    ExtendPath(g, p, c);
    assert Connects(g, p + [c], a, c);
  }

  lemma ReachesSelf(g: map<string, Plugin>, a: string)
    ensures Reaches(g, a, a)
  {
    assert Connects(g, [a], a, a);
  }

  lemma PathReaches(g: map<string, Plugin>, p: seq<string>, k: nat)
    requires IsPath(g, p) && k < |p|
    ensures Reaches(g, p[0], p[k])
  {
    assert Connects(g, p[..k + 1], p[0], p[k]);
  }

  /** A set that contains the root and is closed under edges contains everything reachable. */
  lemma {:induction false} ClosedSetContainsReachable(g: map<string, Plugin>, s: set<string>, p: seq<string>)
    requires IsPath(g, p) && p[0] in s
    requires forall a, b :: a in s && Edge(g, a, b) ==> b in s
    ensures Last(p) in s
  {
    if |p| > 1 {
      assert Edge(g, p[0], p[1]);
      ClosedSetContainsReachable(g, s, p[1..]);
    }
  }

  // ----- what the traversal maintains

  /** `visiting` is a simple path from the root and `plan` a partial plan, disjoint from it. */
  ghost predicate WalkState(g: map<string, Plugin>, root: string, visiting: seq<string>, plan: seq<Plugin>) {
    && (visiting != [] ==> IsPath(g, visiting) && visiting[0] == root)
    && Elems(visiting) !! Ids(plan)
    && DistinctIds(plan)
    && DependenciesFirst(plan)
    && EntriesReached(g, root, plan)
  }

  ghost predicate EntriesReached(g: map<string, Plugin>, root: string, plan: seq<Plugin>) {
    forall i :: 0 <= i < |plan| ==>
      plan[i].id in g && g[plan[i].id] == plan[i] && Reaches(g, root, plan[i].id)
  }

  lemma AppendKeepsOrder(plan: seq<Plugin>, entry: Plugin)
    requires DistinctIds(plan) && DependenciesFirst(plan)
    requires entry.id !in Ids(plan) && Elems(entry.dependencies) <= Ids(plan)
    ensures DistinctIds(plan + [entry]) && DependenciesFirst(plan + [entry])
    ensures Ids(plan + [entry]) == Ids(plan) + {entry.id}
  {
    var extended := plan + [entry];
    assert extended[..|plan|] == plan;
    forall i, d | 0 <= i < |extended| && d in extended[i].dependencies
      ensures d in Ids(extended[..i])
    {
      if i < |plan| {
        assert extended[..i] == plan[..i];
      } else {
        assert d in Elems(entry.dependencies);
      }
    }
    forall i | 0 <= i < |plan|
      ensures plan[i].id != entry.id
    {
      assert plan[i] in plan;
    }
    assert entry in extended;
    forall id | id in Ids(plan)
      ensures id in Ids(extended)
    {
      var plugin :| plugin in plan && plugin.id == id;
      assert plugin in extended;
    }
  }

  lemma {:induction false} VisitCorrect(plugin: Plugin, catalog: seq<Plugin>,
                                        visiting: seq<string>, plan: seq<Plugin>, entry: Plugin)
    requires WalkState(Graph(plugin, catalog), plugin.id, visiting, plan)
    requires if visiting == [] then entry == plugin
             else Edge(Graph(plugin, catalog), Last(visiting), entry.id)
    requires entry == plugin || (entry.id in ById(catalog) && entry == ById(catalog)[entry.id])
    ensures var byId := ById(catalog);
            match Visit(byId, byId.Keys + {plugin.id}, visiting, plan, entry)
            case Failure(error) => RealError(plugin, catalog, error)
            case Success(next) =>
              && WalkState(Graph(plugin, catalog), plugin.id, visiting, next)
              && Ids(plan) + {entry.id} <= Ids(next)
              && (entry.id !in Ids(plan) ==> next != [] && Last(next) == entry)
    decreases ById(catalog).Keys + {plugin.id} - Elems(visiting), 0, 0
  {
    var byId := ById(catalog);
    var universe := byId.Keys + {plugin.id};
    var g := Graph(plugin, catalog);
    if entry.id in Ids(plan) {
    } else if entry.id in visiting {
      CycleIsReal(plugin, catalog, visiting, entry.id);
    } else {
      var deeper := visiting + [entry.id];
      PushKeepsState(plugin, catalog, visiting, plan, entry);
      assert entry.id in universe - Elems(visiting);
      VisitAllCorrect(plugin, catalog, deeper, plan, entry.dependencies);
      var result := VisitAll(byId, universe, deeper, plan, entry.dependencies);
      if result.Success? {
        PopKeepsState(g, plugin.id, visiting, result.value, entry);
      }
    }
  }

  lemma CycleIsReal(plugin: Plugin, catalog: seq<Plugin>, visiting: seq<string>, id: string)
    requires visiting != [] && IsPath(Graph(plugin, catalog), visiting) && visiting[0] == plugin.id
    requires Edge(Graph(plugin, catalog), Last(visiting), id) && id in visiting
    ensures RealError(plugin, catalog, Cycle(visiting[IndexOf(visiting, id)..] + [id]))
  {
    var g := Graph(plugin, catalog);
    var k := IndexOf(visiting, id);
    var path := visiting[k..] + [id];
    ExtendPath(g, visiting, id);
    forall i | 0 <= i < |path| - 1
      ensures Edge(g, path[i], path[i + 1])
    {
      assert path[i] == (visiting + [id])[k + i];
      assert path[i + 1] == (visiting + [id])[k + i + 1];
    }
    PathReaches(g, visiting, k);
  }

  lemma PushKeepsState(plugin: Plugin, catalog: seq<Plugin>,
                       visiting: seq<string>, plan: seq<Plugin>, entry: Plugin)
    requires WalkState(Graph(plugin, catalog), plugin.id, visiting, plan)
    requires if visiting == [] then entry == plugin
             else Edge(Graph(plugin, catalog), Last(visiting), entry.id)
    requires entry == plugin || (entry.id in ById(catalog) && entry == ById(catalog)[entry.id])
    requires entry.id !in Ids(plan) && entry.id !in visiting
    ensures WalkState(Graph(plugin, catalog), plugin.id, visiting + [entry.id], plan)
    ensures Graph(plugin, catalog)[entry.id] == entry && Reaches(Graph(plugin, catalog), plugin.id, entry.id)
  {
    var g := Graph(plugin, catalog);
    var deeper := visiting + [entry.id];
    if visiting != [] {
      ExtendPath(g, visiting, entry.id);
      assert visiting[0] in visiting;
    }
    PathReaches(g, deeper, |deeper| - 1);
    assert Elems(deeper) == Elems(visiting) + {entry.id};
  }

  lemma PopKeepsState(g: map<string, Plugin>, root: string, visiting: seq<string>, plan: seq<Plugin>, entry: Plugin)
    requires WalkState(g, root, visiting + [entry.id], plan)
    requires entry.id !in visiting && Elems(entry.dependencies) <= Ids(plan)
    requires entry.id in g && g[entry.id] == entry && Reaches(g, root, entry.id)
    ensures WalkState(g, root, visiting, plan + [entry])
    ensures Ids(plan + [entry]) == Ids(plan) + {entry.id}
  {
    assert Elems(visiting + [entry.id]) == Elems(visiting) + {entry.id} by {
      assert entry.id in visiting + [entry.id];
      assert forall x :: x in visiting ==> x in visiting + [entry.id];
    }
    AppendKeepsOrder(plan, entry);
    if visiting != [] {
      var p := visiting + [entry.id];
      assert p[..|visiting|] == visiting;
      forall i | 0 <= i < |visiting| - 1
        ensures Edge(g, visiting[i], visiting[i + 1])
      {
        assert Edge(g, p[i], p[i + 1]);
      }
    }
  }

  lemma {:induction false} VisitAllCorrect(plugin: Plugin, catalog: seq<Plugin>,
                                           visiting: seq<string>, plan: seq<Plugin>, dependencies: seq<string>)
    requires visiting != [] && WalkState(Graph(plugin, catalog), plugin.id, visiting, plan)
    requires forall d :: d in dependencies ==> Edge(Graph(plugin, catalog), Last(visiting), d)
    ensures var byId := ById(catalog);
            match VisitAll(byId, byId.Keys + {plugin.id}, visiting, plan, dependencies)
            case Failure(error) => RealError(plugin, catalog, error)
            case Success(next) =>
              && WalkState(Graph(plugin, catalog), plugin.id, visiting, next)
              && Ids(plan) + Elems(dependencies) <= Ids(next)
    decreases ById(catalog).Keys + {plugin.id} - Elems(visiting), 1, |dependencies|
  {
    var byId := ById(catalog);
    var universe := byId.Keys + {plugin.id};
    if dependencies == [] {
    } else if dependencies[0] !in byId {
      PathReaches(Graph(plugin, catalog), visiting, |visiting| - 1);
    } else {
      var entry := byId[dependencies[0]];
      VisitCorrect(plugin, catalog, visiting, plan, entry);
      var result := Visit(byId, universe, visiting, plan, entry);
      if result.Success? {
        VisitAllCorrect(plugin, catalog, visiting, result.value, dependencies[1..]);
        assert dependencies == [dependencies[0]] + dependencies[1..];
      }
    }
  }

  // ----- the main results

  /** A plan orders its ids: an edge inside it goes from a later entry to an earlier one. */
  lemma {:induction false} PathsDescend(g: map<string, Plugin>, plan: seq<Plugin>, p: seq<string>, i: nat)
    requires DistinctIds(plan) && DependenciesFirst(plan)
    requires forall k :: 0 <= k < |plan| ==> plan[k].id in g && g[plan[k].id] == plan[k]
    requires IsPath(g, p) && i < |plan| && plan[i].id == p[0]
    ensures exists j :: 0 <= j <= i && plan[j].id == Last(p) && (|p| >= 2 ==> j < i)
  {
    if |p| == 1 {
      assert plan[i].id == Last(p);
    } else {
      assert Edge(g, p[0], p[1]);
      assert p[1] in Ids(plan[..i]);
      var entry :| entry in plan[..i] && entry.id == p[1];
      var k :| 0 <= k < i && plan[k] == entry;
      PathsDescend(g, plan, p[1..], k);
      var j :| 0 <= j <= k && plan[j].id == Last(p[1..]);
      assert Last(p[1..]) == Last(p);
    }
  }

  /** A cycle or an unknown dependency in the reachable part rules out a plan. */
  lemma RealErrorRefutes(plugin: Plugin, catalog: seq<Plugin>, error: PlanError)
    requires RealError(plugin, catalog, error)
    ensures !Plannable(plugin, catalog)
  {
    var g := Graph(plugin, catalog);
    if error.UnknownDependency? {
      ReachesStep(g, plugin.id, error.requiredBy, error.dependency);
      if error.dependency in g {
        // The dependency is the target itself, which the catalogue does not hold: a cycle.
        var p :| Connects(g, p, plugin.id, error.requiredBy);
        ExtendPath(g, p, error.dependency);
        assert IsCycle(g, p + [error.dependency]);
        ReachesSelf(g, plugin.id);
      }
    }
  }

  lemma PlanImpliesPlannable(plugin: Plugin, catalog: seq<Plugin>, plan: seq<Plugin>)
    requires IsInstallPlan(plugin, catalog, plan)
    ensures Plannable(plugin, catalog)
  {
    var g := Graph(plugin, catalog);
    forall id | Reaches(g, plugin.id, id)
      ensures id in g
    {
      assert id in Ids(plan);
      var entry :| entry in plan && entry.id == id;
    }
    forall p | IsCycle(g, p)
      ensures !Reaches(g, plugin.id, p[0])
    {
      if Reaches(g, plugin.id, p[0]) {
        assert p[0] in Ids(plan);
        var entry :| entry in plan && entry.id == p[0];
        ghost var i :| 0 <= i < |plan| && plan[i] == entry;
        PathsDescend(g, plan, p, i);
      }
    }
  }

  /** The planner returns a plan exactly when the reachable part of the catalogue is closed and
      acyclic; what it returns is an install plan, and what it throws is a real defect. */
  lemma PlanCorrect(plugin: Plugin, catalog: seq<Plugin>)
    ensures PlanOf(plugin, catalog).Success? <==> Plannable(plugin, catalog)
    ensures PlanOf(plugin, catalog).Success? ==> IsInstallPlan(plugin, catalog, PlanOf(plugin, catalog).value)
    ensures PlanOf(plugin, catalog).Failure? ==> RealError(plugin, catalog, PlanOf(plugin, catalog).error)
  {
    var g := Graph(plugin, catalog);
    VisitCorrect(plugin, catalog, [], [], plugin);
    match PlanOf(plugin, catalog) {
      case Failure(error) =>
        RealErrorRefutes(plugin, catalog, error);
      case Success(plan) =>
        forall id
          ensures id in Ids(plan) <==> Reaches(g, plugin.id, id)
        {
          if Reaches(g, plugin.id, id) {
            var p :| Connects(g, p, plugin.id, id);
            PlanIsClosed(g, plan);
            ClosedSetContainsReachable(g, Ids(plan), p);
          }
          if id in Ids(plan) {
            var entry :| entry in plan && entry.id == id;
            var i :| 0 <= i < |plan| && plan[i] == entry;
          }
        }
        PlanImpliesPlannable(plugin, catalog, plan);
    }
  }

  lemma PlanIsClosed(g: map<string, Plugin>, plan: seq<Plugin>)
    requires DependenciesFirst(plan)
    requires forall i :: 0 <= i < |plan| ==> plan[i].id in g && g[plan[i].id] == plan[i]
    ensures forall a, b :: a in Ids(plan) && Edge(g, a, b) ==> b in Ids(plan)
  {
    forall a, b | a in Ids(plan) && Edge(g, a, b)
      ensures b in Ids(plan)
    {
      var entry :| entry in plan && entry.id == a;
      var i :| 0 <= i < |plan| && plan[i] == entry;
      assert b in Ids(plan[..i]);
    }
  }

  // ----- the planner as it runs

  /** The closure state of `marketplaceInstallPlan`: three collections that `visit` updates in place. */
  class Planner {
    const byId: map<string, Plugin>
    ghost const universe: set<string>
    var completed: set<string>
    var visiting: seq<string>
    var plan: seq<Plugin>

    ghost predicate Valid()
      reads this
    {
      && byId.Keys <= universe
      && (forall id :: id in byId ==> byId[id].id == id)
      && completed == Ids(plan)
    }

    constructor (plugin: Plugin, catalog: seq<Plugin>)
      ensures Valid() && byId == ById(catalog) && universe == byId.Keys + {plugin.id}
      ensures visiting == [] && plan == []
    {
      byId := ById(catalog);
      universe := ById(catalog).Keys + {plugin.id};
      completed, visiting, plan := {}, [], [];
    }

    /** A thrown error leaves `visiting` as it was when the error was found, as in the source. */
    method VisitEntry(entry: Plugin) returns (error: Option<PlanError>)
      requires Valid() && entry.id in universe
      modifies this
      ensures Valid()
      ensures match Visit(byId, universe, old(visiting), old(plan), entry)
              case Failure(e) => error == Some(e)
              case Success(next) => error == None && visiting == old(visiting) && plan == next
      decreases universe - Elems(visiting)
    {
      if entry.id in completed {
        return None;
      }
      if entry.id in visiting {
        return Some(Cycle(visiting[IndexOf(visiting, entry.id)..] + [entry.id]));
      }
      assert entry.id in universe - Elems(visiting);
      visiting := visiting + [entry.id];
      var k := 0;
      while k < |entry.dependencies|
        invariant 0 <= k <= |entry.dependencies|
        invariant Valid() && visiting == old(visiting) + [entry.id]
        invariant VisitAll(byId, universe, visiting, plan, entry.dependencies[k..])
               == VisitAll(byId, universe, visiting, old(plan), entry.dependencies)
      {
        var dependencyId := entry.dependencies[k];
        if dependencyId !in byId {
          return Some(UnknownDependency(dependencyId, entry.id));
        }
        assert Elems(old(visiting)) < Elems(visiting) by { assert entry.id in Elems(visiting); }
        var failed := VisitEntry(byId[dependencyId]);
        if failed.Some? {
          return failed;
        }
        assert entry.dependencies[k..][1..] == entry.dependencies[k + 1..];
        k := k + 1;
      }
      visiting := visiting[..|visiting| - 1];
      completed := completed + {entry.id};
      plan := plan + [entry];
      assert Ids(plan) == completed by {
        assert entry in plan;
      }
      return None;
    }
  }

  /** The exported planner. */
  method MarketplaceInstallPlan(plugin: Plugin, catalog: seq<Plugin>) returns (r: Plan)
    ensures r == PlanOf(plugin, catalog)
    ensures r.Success? <==> Plannable(plugin, catalog)
    ensures r.Success? ==> IsInstallPlan(plugin, catalog, r.value)
    ensures r.Failure? ==> RealError(plugin, catalog, r.error)
  {
    var planner := new Planner(plugin, catalog);
    var error := planner.VisitEntry(plugin);
    PlanCorrect(plugin, catalog);
    r := if error.Some? then Failure(error.value) else Success(planner.plan);
  }

  // ----- the check made once, when the catalogue is loaded

  datatype LoadError =
    | DuplicateId(id: string)
    | DuplicatePackage(packageName: string)
    | ConflictingCategoryLabel(categoryId: string)
    | Unplannable(error: PlanError)

  predicate Compatible(p: Plugin, q: Plugin) {
    && p.id != q.id
    && p.packageName != q.packageName
    && (p.categoryId == q.categoryId ==> p.categoryLabel == q.categoryLabel)
  }

  /** No two entries share an id or a package, and no category is spelled in two ways. */
  ghost predicate ConsistentEntries(plugins: seq<Plugin>) {
    forall i, j :: 0 <= i < j < |plugins| ==> Compatible(plugins[i], plugins[j])
  }

  ghost predicate LoadableCatalog(plugins: seq<Plugin>) {
    ConsistentEntries(plugins) && forall i :: 0 <= i < |plugins| ==> Plannable(plugins[i], plugins)
  }

  /** The first loop of the load: nothing is reported exactly when the entries are consistent. */
  method CheckConsistency(plugins: seq<Plugin>) returns (error: Option<LoadError>)
    ensures error.None? <==> ConsistentEntries(plugins)
  {
    var ids, packages: set<string> := {}, {};
    var categoryLabels: map<string, string> := map[];
    var k := 0;
    while k < |plugins|
      invariant 0 <= k <= |plugins|
      invariant ids == set i | 0 <= i < k :: plugins[i].id
      invariant packages == set i | 0 <= i < k :: plugins[i].packageName
      invariant categoryLabels.Keys == set i | 0 <= i < k :: plugins[i].categoryId
      invariant forall i :: 0 <= i < k ==> categoryLabels[plugins[i].categoryId] == plugins[i].categoryLabel
      invariant forall i, j :: 0 <= i < j < k ==> Compatible(plugins[i], plugins[j])
    {
      var plugin := plugins[k];
      if plugin.id in ids {
        ghost var i :| 0 <= i < k && plugins[i].id == plugin.id;
        assert !Compatible(plugins[i], plugins[k]);
        return Some(DuplicateId(plugin.id));
      }
      if plugin.packageName in packages {
        ghost var i :| 0 <= i < k && plugins[i].packageName == plugin.packageName;
        assert !Compatible(plugins[i], plugins[k]);
        return Some(DuplicatePackage(plugin.packageName));
      }
      if plugin.categoryId in categoryLabels && categoryLabels[plugin.categoryId] != plugin.categoryLabel {
        ghost var i :| 0 <= i < k && plugins[i].categoryId == plugin.categoryId;
        assert !Compatible(plugins[i], plugins[k]);
        return Some(ConflictingCategoryLabel(plugin.categoryId));
      }
      ids, packages := ids + {plugin.id}, packages + {plugin.packageName};
      categoryLabels := categoryLabels[plugin.categoryId := plugin.categoryLabel];
      k := k + 1;
    }
    return None;
  }

  /** The load succeeds exactly on consistent catalogues all of whose entries can be planned. */
  method LoadMarketplacePlugins(plugins: seq<Plugin>) returns (r: Result<seq<Plugin>, LoadError>)
    ensures r.Success? <==> LoadableCatalog(plugins)
    ensures r.Success? ==> r.value == plugins
  {
    var error := CheckConsistency(plugins);
    if error.Some? {
      return Failure(error.value);
    }
    var k := 0;
    while k < |plugins|
      invariant 0 <= k <= |plugins|
      invariant forall i :: 0 <= i < k ==> Plannable(plugins[i], plugins)
    {
      var plan := MarketplaceInstallPlan(plugins[k], plugins);
      if plan.Failure? {
        return Failure(Unplannable(plan.error));
      }
      k := k + 1;
    }
    return Success(plugins);
  }

  lemma {:induction false} ByIdFinds(catalog: seq<Plugin>, plugin: Plugin)
    requires ConsistentEntries(catalog) && plugin in catalog
    ensures plugin.id in ById(catalog) && ById(catalog)[plugin.id] == plugin
  {
    var front := catalog[..|catalog| - 1];
    if plugin != Last(catalog) {
      ByIdFinds(front, plugin);
    }
  }

  /** Once the load has accepted a catalogue, planning any of its entries succeeds, every entry of
      the plan comes from the catalogue, and the direct dependencies of each are in the plan too. */
  lemma LoadedCatalogNeverThrows(catalog: seq<Plugin>, plugin: Plugin)
    requires LoadableCatalog(catalog) && plugin in catalog
    ensures PlanOf(plugin, catalog).Success?
    ensures var plan := PlanOf(plugin, catalog).value;
            && IsInstallPlan(plugin, catalog, plan)
            && Elems(plan) <= Elems(catalog)
            && forall p, q :: p in plan && q in catalog && q.id in p.dependencies ==> q in plan
  {
    var i :| 0 <= i < |catalog| && catalog[i] == plugin;
    PlanCorrect(plugin, catalog);
    ByIdFinds(catalog, plugin);
    var plan := PlanOf(plugin, catalog).value;
    var g := Graph(plugin, catalog);
    assert g == ById(catalog);
    PlanIsClosed(g, plan);
    forall p, q | p in plan && q in catalog && q.id in p.dependencies
      ensures q in plan
    {
      ByIdFinds(catalog, q);
      var a :| 0 <= a < |plan| && plan[a] == p;
      assert Edge(g, p.id, q.id);
      var entry :| entry in plan && entry.id == q.id;
      var b :| 0 <= b < |plan| && plan[b] == entry;
    }
  }
}
