/** What the answers of the marketplace handlers say about the two states: when a change is refused
    for its dependencies, and what it means that no restart is required. */
module MarketplaceReplies {
  import opened Wrappers
  import opened InstallPlan
  import opened Marketplace
  import opened MarketplaceSafety

  // ----- refusals

  lemma DependenciesOfPlan(catalog: seq<Plugin>, plugin: Plugin, q: Plugin)
    requires ValidCatalog(catalog) && plugin in catalog
    ensures PlanOf(plugin, catalog).Success? && PlanOf(plugin, catalog).value != []
    ensures var plan := PlanOf(plugin, catalog).value;
            q in plan[..|plan| - 1] <==>
            q in catalog && q != plugin && Reaches(Graph(plugin, catalog), plugin.id, q.id)
  {
    LoadedCatalogNeverThrows(catalog, plugin);
    var plan := PlanOf(plugin, catalog).value;
    if q in plan[..|plan| - 1] {
      var k :| 0 <= k < |plan| - 1 && plan[k] == q;
      assert q in Elems(plan) && q.id in Ids(plan);
      assert plan[k].id != plan[|plan| - 1].id;
    } else if q in catalog && q != plugin && Reaches(Graph(plugin, catalog), plugin.id, q.id) {
      ReachedIsPlanned(catalog, plugin, plan, q);
    }
  }

  lemma ReachedIsPlanned(catalog: seq<Plugin>, plugin: Plugin, plan: seq<Plugin>, q: Plugin)
    requires ConsistentEntries(catalog) && IsInstallPlan(plugin, catalog, plan) && Elems(plan) <= Elems(catalog)
    requires q in catalog && q != plugin && Reaches(Graph(plugin, catalog), plugin.id, q.id)
    ensures q in plan[..|plan| - 1]
  {
    assert q.id in Ids(plan);
    var k :| 0 <= k < |plan| && plan[k].id == q.id;
    assert plan[k] in Elems(plan) && plan[k] in catalog;
    SameIdSamePlugin(catalog, plan[k], q);
    assert k != |plan| - 1;
  }

  /** A plugin may be enabled exactly when everything that it reaches through dependencies is active. */
  lemma EnableAllowedExactly(catalog: seq<Plugin>, s: State, plugin: Plugin)
    requires ValidCatalog(catalog) && plugin in catalog
    ensures MayEnable(catalog, s, plugin) <==>
            forall q :: q in catalog && q != plugin && Reaches(Graph(plugin, catalog), plugin.id, q.id) ==> Active(s, q)
  {
    DependenciesOfPlan(catalog, plugin, plugin);
    var plan := PlanOf(plugin, catalog).value;
    var dependencies := plan[..|plan| - 1];
    var idle := Filter((d: Plugin) => d.packageName !in ActivePackages(s.loader, ReadProfile(s.profile)), dependencies);
    assert idle == [] <==> forall q :: q in dependencies ==> Active(s, q) by {
      assert idle != [] ==> idle[0] in dependencies && !Active(s, idle[0]);
      assert forall q :: q in dependencies && !Active(s, q) ==> q in idle;
    }
    forall q
      ensures q in dependencies <==>
              q in catalog && q != plugin && Reaches(Graph(plugin, catalog), plugin.id, q.id)
    {
      DependenciesOfPlan(catalog, plugin, q);
    }
  }

  /** A plugin may be disabled or uninstalled exactly when no other enabled plugin reaches it. Only
      direct dependents are looked at; in a safe state that is enough. */
  lemma DropAllowedExactly(catalog: seq<Plugin>, s: State, plugin: Plugin)
    requires ValidCatalog(catalog) && Safe(catalog, s) && plugin in catalog
    ensures MayDrop(catalog, s, plugin) <==>
            forall p :: p in catalog && p != plugin && Reaches(Graph(p, catalog), p.id, plugin.id) ==> !Enabled(s, p)
  {
    if MayDrop(catalog, s, plugin) {
      forall p | p in catalog && p != plugin && Reaches(Graph(p, catalog), p.id, plugin.id)
        ensures !Enabled(s, p)
      {
        if Enabled(s, p) {
          var q := EnabledDependent(catalog, s, plugin, p);
          NoBlockers(catalog, s, plugin, q);
          assert false;
        }
      }
    } else {
      var blockers := DependencyBlockers(catalog, plugin, EnabledPackages(s.loader, ReadProfile(s.profile)));
      var p := blockers[0];
      assert p in blockers;
      NoSelfDependency(catalog, p, plugin);
      OneEdgeReaches(catalog, p, plugin.id);
    }
  }

  lemma OneEdgeReaches(catalog: seq<Plugin>, p: Plugin, id: string)
    requires id in p.dependencies
    ensures Reaches(Graph(p, catalog), p.id, id)
  {
    var g := Graph(p, catalog);
    assert Connects(g, [p.id, id], p.id, id);
  }

  /** Behind every enabled plugin that reaches another one stands an enabled direct dependent of it. */
  lemma EnabledDependent(catalog: seq<Plugin>, s: State, plugin: Plugin, p: Plugin) returns (q: Plugin)
    requires ValidCatalog(catalog) && DependencyClosed(catalog, s)
    requires p in catalog && Enabled(s, p) && p.id != plugin.id && Reaches(Graph(p, catalog), p.id, plugin.id)
    ensures q in catalog && Enabled(s, q) && plugin.id in q.dependencies
  {
    var g := Graph(p, catalog);
    var path :| Connects(g, path, p.id, plugin.id);
    var front := path[..|path| - 1];
    assert Connects(g, front, p.id, Last(front));
    ClosedTransitively(catalog, s, p, Last(front));
    q :| q in catalog && q.id == Last(front) && Enabled(s, q);
    assert Edge(g, path[|path| - 2], path[|path| - 1]);
    ByIdFinds(catalog, p);
    ByIdFinds(catalog, q);
  }

  // ----- restart required

  ghost predicate HasLoaderId(loader: seq<LoaderEntry>, id: string, disabled: bool) {
    exists e :: e in loader && e.id == id && e.disabled == disabled
  }

  ghost predicate HasProfileId(profile: seq<ProfileEntry>, id: string, disabled: bool) {
    exists e :: e in profile && e.id == id && e.disabled == disabled
  }

  /** When a restart is said to be required, the loader runs as before, exactly unless the request is
      a toggle whose rejected update left the other flag. */
  lemma RestartLeavesLoader(catalog: seq<Plugin>, s: State, request: Request, env: Environment)
    requires Handle(catalog, s, request, env).1 == Applied(true)
    ensures Handle(catalog, s, request, env).0.loader == s.loader <==>
            !(request.ToggleRequest? && env.update.UpdateLeased? &&
              env.update.disabled != s.loader[LoaderPosition(s.loader, request.id)].disabled)
  {
    match request {
      case InstallRequest(id) => RestartedInstall(catalog, s, id, env);
      case ToggleRequest(id, enabled) => FlagOnly(s.loader, LoaderPosition(s.loader, id));
      case UninstallRequest(id) =>
    }
  }

  lemma RestartedInstall(catalog: seq<Plugin>, s: State, id: string, env: Environment)
    requires Install(catalog, s, id, env).1 == Applied(true)
    ensures Install(catalog, s, id, env).0.loader == s.loader
  {
  }

  /** Whatever flag a rejected update left, after an accepted toggle and a restart the loader carries
      the requested one. */
  lemma RestartCompletesToggle(catalog: seq<Plugin>, s: State, id: string, enabled: bool, env: Environment)
    requires UniqueIds(s.profile) && UniqueLoaderIds(s.loader)
    requires Toggle(catalog, s, id, enabled, env).1.Applied?
    ensures var s' := Restart(Toggle(catalog, s, id, enabled, env).0);
            HasLoaderId(s'.loader, id, !enabled) && !HasLoaderId(s'.loader, id, enabled)
  {
    var profile := Toggle(catalog, s, id, enabled, env).0.profile;
    var k := Position(s.profile, id);
    assert profile == SetDisabled(s.profile, id, !enabled);
    var loader := Restart(Toggle(catalog, s, id, enabled, env).0).loader;
    assert loader[k].id == id && loader[k].disabled == !enabled && loader[k] in loader;
    assert forall j :: 0 <= j < |s.profile| && j != k ==> loader[j].id == s.profile[j].id != s.profile[k].id;
  }

  /** And at once, before any restart, a plugin that was switched off is no longer active. */
  lemma SwitchedOffIsInactive(catalog: seq<Plugin>, s: State, plugin: Plugin, env: Environment)
    requires ValidCatalog(catalog) && Safe(catalog, s) && plugin in catalog
    requires Toggle(catalog, s, EntryId(plugin), false, env).1.Applied?
    ensures !Active(Toggle(catalog, s, EntryId(plugin), false, env).0, plugin)
  {
    var s' := Toggle(catalog, s, EntryId(plugin), false, env).0;
    ToggleKeepsSafe(catalog, s, EntryId(plugin), false, env);
    SwitchedIn(catalog, s.profile, plugin, true, plugin);
    EnabledMeans(catalog, s', plugin);
  }

  /** When none is, a toggle shows in the loader and in the profile alike. */
  lemma ToggleShows(catalog: seq<Plugin>, s: State, id: string, enabled: bool, env: Environment)
    requires UniqueIds(s.profile) && UniqueLoaderIds(s.loader)
    requires Toggle(catalog, s, id, enabled, env).1 == Applied(false)
    ensures var s' := Toggle(catalog, s, id, enabled, env).0;
            && HasLoaderId(s'.loader, id, !enabled) && !HasLoaderId(s'.loader, id, enabled)
            && HasProfileId(s'.profile, id, !enabled) && !HasProfileId(s'.profile, id, enabled)
  {
    var s' := Toggle(catalog, s, id, enabled, env).0;
    var i, k := LoaderPosition(s.loader, id), Position(s.profile, id);
    assert s'.loader[i].id == id && s'.loader[i].disabled == !enabled && s'.loader[i] in s'.loader;
    assert s'.profile[k].id == id && s'.profile[k].disabled == !enabled && s'.profile[k] in s'.profile;
    assert forall j :: 0 <= j < |s.loader| && j != i ==> s'.loader[j] == s.loader[j] && s.loader[j].id != s.loader[i].id;
    assert forall j :: 0 <= j < |s.profile| && j != k ==> s'.profile[j] == s.profile[j] && s.profile[j].id != s.profile[k].id;
  }

  /** An uninstall leaves neither a loader entry nor a profile entry with the id. */
  lemma UninstallShows(catalog: seq<Plugin>, s: State, id: string, env: Environment)
    requires UniqueIds(s.profile) && UniqueLoaderIds(s.loader)
    requires Uninstall(catalog, s, id, env).1.Applied?
    ensures var (s', reply) := Uninstall(catalog, s, id, env);
            && reply == Applied(false)
            && (forall e :: e in s'.loader ==> e.id != id) && (forall e :: e in s'.profile ==> e.id != id)
  {
    var s' := Uninstall(catalog, s, id, env).0;
    var i := LoaderPosition(s.loader, id);
    RemoveEntryEntries(s.profile, id);
    assert s'.profile == RemoveEntry(s.profile, id);
    if i < |s.loader| {
      RemovedLoaderEntries(s.loader, i);
    }
  }

  /** After an install without restart, the whole plan is loaded, except a target that was already
      installed and switched off. */
  lemma InstallShows(catalog: seq<Plugin>, s: State, plugin: Plugin, env: Environment, q: Plugin)
    requires ValidCatalog(catalog) && Safe(catalog, s) && plugin in catalog
    requires Install(catalog, s, plugin.id, env).1 == Applied(false)
    requires PlanOf(plugin, catalog).Success? && q in PlanOf(plugin, catalog).value
    ensures Loaded(Install(catalog, s, plugin.id, env).0.loader, q.packageName).Some?
         || (q == plugin && InProfile(s.profile, q) && !Enabled(s, q))
  {
    var plan := PlanOf(plugin, catalog).value;
    SameIdSamePlugin(catalog, plugin, PluginById(catalog, plugin.id).value);
    LoadedCatalogNeverThrows(catalog, plugin);
    var s' := Install(catalog, s, plugin.id, env).0;
    var missing := MissingFrom(s, plan);
    CreatedAll(s, plan, env);
    assert missing[0] in missing;
    if Loaded(s.loader, q.packageName).Some? || q in missing {
      LoaderGrew(s, plan, env, q);
    } else {
      assert q in Elems(plan) && q in catalog;
      assert Configured(ReadProfile(s.profile), q.packageName).Some?;
      NotPending(s, plan, env, q);
      LastOrDependency(plan, q);
      EnabledMeans(catalog, s, q);
      if Enabled(s, q) {
        NotMissing(catalog, s, plugin, plan, missing[0]);
      }
    }
  }

  /** Only an install that creates what was missing needs no restart. */
  lemma CreatedAll(s: State, plan: seq<Plugin>, env: Environment)
    requires plan != [] && InstallPlanned(s, plan, env).1 == Applied(false)
    ensures MissingFrom(s, plan) != [] && PendingAmong(s, plan[..|plan| - 1]) == []
    ensures var i := RuntimePosition(s.loader);
            InstallPlanned(s, plan, env).0.loader == s.loader[..i] + NewLoaderEntries(MissingFrom(s, plan)) + s.loader[i..]
  {
  }

  lemma LoaderGrew(s: State, plan: seq<Plugin>, env: Environment, q: Plugin)
    requires plan != [] && InstallPlanned(s, plan, env).1 == Applied(false)
    requires Loaded(s.loader, q.packageName).Some? || q in MissingFrom(s, plan)
    ensures Loaded(InstallPlanned(s, plan, env).0.loader, q.packageName).Some?
  {
    CreatedAll(s, plan, env);
    var loader, added, i := s.loader, NewLoaderEntries(MissingFrom(s, plan)), RuntimePosition(s.loader);
    var e := if Loaded(loader, q.packageName).Some? then Loaded(loader, q.packageName).value else NewLoaderEntry(q);
    assert e.name == q.packageName && (e in loader || e in added) by {
      if Loaded(loader, q.packageName).None? {
        var k :| 0 <= k < |MissingFrom(s, plan)| && MissingFrom(s, plan)[k] == q;
        assert added[k] == e;
      }
    }
    InsertedLoaderEntries(loader, i, added, e);
  }

  lemma NotPending(s: State, plan: seq<Plugin>, env: Environment, q: Plugin)
    requires plan != [] && InstallPlanned(s, plan, env).1 == Applied(false)
    requires Configured(ReadProfile(s.profile), q.packageName).Some? && Loaded(s.loader, q.packageName).None?
    ensures q !in plan[..|plan| - 1]
  {
    assert q in plan[..|plan| - 1] ==> q in PendingAmong(s, plan[..|plan| - 1]);
    CreatedAll(s, plan, env);
  }

  /** An enabled target has its whole plan in the profile. */
  lemma NotMissing(catalog: seq<Plugin>, s: State, plugin: Plugin, plan: seq<Plugin>, d: Plugin)
    requires ValidCatalog(catalog) && Safe(catalog, s) && plugin in catalog && Enabled(s, plugin)
    requires IsInstallPlan(plugin, catalog, plan) && Elems(plan) <= Elems(catalog)
    ensures d !in MissingFrom(s, plan)
  {
    if d in plan {
      assert d in Elems(plan) && d.id in Ids(plan);
      ClosedTransitively(catalog, s, plugin, d.id);
      var q :| q in catalog && q.id == d.id && Enabled(s, q);
      SameIdSamePlugin(catalog, q, d);
      EnabledMeans(catalog, s, d);
    }
  }
}
