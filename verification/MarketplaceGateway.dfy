/** The marketplace handlers as they run: fields updated in place, one write after another, and
    compensating writes when something fails. Each is proved against the function in Marketplace. */
module MarketplaceGateway {
  import opened Wrappers
  import opened InstallPlan
  import opened Marketplace
  import opened MarketplaceSafety

  /** No entry of another package carries the id that an install would give to a catalogue plugin. */
  ghost predicate OwnIds(catalog: seq<Plugin>, loader: seq<LoaderEntry>) {
    forall e, p :: e in loader && p in catalog && e.id == EntryId(p) ==> e.name == p.packageName
  }

  /** The number of steps before the one that fails, if it is among the first n. */
  function Bound(failing: Option<nat>, n: nat): nat {
    if failing.Some? && failing.value < n then failing.value else n
  }

  /** The failing step, counted from a later start. */
  function Later(failing: Option<nat>, done: nat): Option<nat>
    requires failing.Some? ==> failing.value >= done
  {
    if failing.None? then None else Some(failing.value - done)
  }

  predicate IsWritten(entries: seq<ProfileEntry>, missing: set<string>, plugin: Plugin) {
    Configured(entries, plugin.packageName).None? && plugin.packageName in missing
  }

  /** The walk gets to the end unless one of its writes fails; then it stands in front of that write. */
  ghost predicate Walked(before: seq<ProfileEntry>, entries: seq<ProfileEntry>, missing: set<string>, plan: seq<Plugin>,
                         anchor: Option<string>, failing: Option<nat>, ok: bool, after: seq<ProfileEntry>)
  {
    && (ok <==> !(failing.Some? && failing.value < |plan|
                  && IsWritten(entries, missing, plan[|plan| - 1 - failing.value])))
    && after == Walk(before, entries, missing, if ok then plan else Passed(plan, failing.value), anchor)
  }

  /** The writing gets to the end, unless the specification throws or a write fails; then the profile
      holds what was written before. */
  ghost predicate AsSpecified(s: State, plan: seq<Plugin>, failing: Option<nat>, ok: bool, profile: seq<ProfileEntry>)
    requires plan != []
  {
    && (ok <==> InstalledProfile(s, plan).Some? && !(failing.Some? && WritesAt(s, plan, failing.value)))
    && (ok ==> InstalledProfile(s, plan) == Some(profile))
    && (!ok && InstalledProfile(s, plan).Some? ==> profile == WrittenProfile(s, plan, failing.value))
  }

  /** From where the walk stands, it goes on to what it would give as a whole. */
  ghost predicate OnTheWay(before: seq<ProfileEntry>, now: seq<ProfileEntry>, entries: seq<ProfileEntry>,
                           missing: set<string>, plan: seq<Plugin>, index: nat,
                           anchor: Option<string>, here: Option<string>)
    requires index <= |plan|
  {
    forall m: nat :: m <= index ==>
      Walk(now, entries, missing, plan[m..index], here) == Walk(before, entries, missing, plan[m..], anchor)
  }

  lemma StartOnTheWay(before: seq<ProfileEntry>, entries: seq<ProfileEntry>, missing: set<string>, plan: seq<Plugin>,
                      anchor: Option<string>)
    ensures OnTheWay(before, before, entries, missing, plan, |plan|, anchor, anchor)
  {
    assert forall m: nat :: m <= |plan| ==> plan[m..|plan|] == plan[m..];
  }

  lemma StepOnTheWay(before: seq<ProfileEntry>, now: seq<ProfileEntry>, entries: seq<ProfileEntry>,
                     missing: set<string>, plan: seq<Plugin>, index: nat, anchor: Option<string>, here: Option<string>)
    requires 0 < index <= |plan| && OnTheWay(before, now, entries, missing, plan, index, anchor, here)
    ensures var p := plan[index - 1];
            match Configured(entries, p.packageName)
            case Some(entry) => OnTheWay(before, now, entries, missing, plan, index - 1, anchor, Some(entry.id))
            case None =>
              if p.packageName in missing
              then OnTheWay(before, AppendEntry(now, p, here), entries, missing, plan, index - 1, anchor, Some(EntryId(p)))
              else OnTheWay(before, now, entries, missing, plan, index - 1, anchor, here)
  {
    var p := plan[index - 1];
    forall m: nat | m < index
      ensures plan[m..index] != [] && Last(plan[m..index]) == p
      ensures plan[m..index][..|plan[m..index]| - 1] == plan[m..index - 1]
      ensures Walk(now, entries, missing, plan[m..index], here) == Walk(before, entries, missing, plan[m..], anchor)
    {
    }
  }

  lemma HereOnTheWay(before: seq<ProfileEntry>, now: seq<ProfileEntry>, entries: seq<ProfileEntry>,
                     missing: set<string>, plan: seq<Plugin>, index: nat, anchor: Option<string>, here: Option<string>)
    requires index <= |plan| && OnTheWay(before, now, entries, missing, plan, index, anchor, here)
    ensures now == Walk(before, entries, missing, plan[index..], anchor)
    ensures plan[index..] == Passed(plan, |plan| - index) && plan[0..] == plan
  {
    assert plan[index..index] == [];
  }

  class Gateway {
    const catalog: seq<Plugin>
    var loader: seq<LoaderEntry>
    var profile: seq<ProfileEntry>
    var mutationInFlight: bool

    constructor (catalog: seq<Plugin>, profile: seq<ProfileEntry>)
      ensures this.catalog == catalog && this.profile == profile && !mutationInFlight
      ensures Current() == Restart(State([], profile))
    {
      this.catalog := catalog;
      this.profile := profile;
      loader := Restart(State([], profile)).loader;
      mutationInFlight := false;
    }

    function Current(): State
      reads this
    {
      State(loader, profile)
    }

    /** Re-enable dependencies one write at a time. False stands for the thrown error: of a dependency
        without an entry, or of the write that fails. */
    method ReenableDependencies(entries: seq<ProfileEntry>, dependencies: seq<Plugin>, failing: Option<nat>)
      returns (ok: bool)
      modifies this`profile
      ensures profile == ReenableUpTo(old(profile), entries, dependencies, Bound(failing, |dependencies|))
      ensures ok <==> Reenable(old(profile), entries, dependencies).Some? && Bound(failing, |dependencies|) == |dependencies|
      ensures ok ==> Reenable(old(profile), entries, dependencies) == Some(profile)
    {
      ghost var bound := Bound(failing, |dependencies|);
      var k := 0;
      while k < |dependencies|
        invariant 0 <= k <= bound
        invariant Reenable(profile, entries, dependencies[k..]) == Reenable(old(profile), entries, dependencies)
        invariant ReenableUpTo(profile, entries, dependencies[k..], bound - k)
               == ReenableUpTo(old(profile), entries, dependencies, bound)
      {
        var entry := Configured(entries, dependencies[k].packageName);
        if entry.None? || !HasId(profile, entry.value.id) || failing == Some(k) {
          return false;
        }
        assert dependencies[k..][1..] == dependencies[k + 1..];
        profile := SetDisabled(profile, entry.value.id, false);
        k := k + 1;
      }
      return true;
    }

    /** The walk from the last plan entry to the first, with the anchor in a local variable. It stops
        at a write that fails. */
    method WritePlan(entries: seq<ProfileEntry>, missing: set<string>, plan: seq<Plugin>, anchor: Option<string>,
                     failing: Option<nat>) returns (ok: bool)
      modifies this`profile
      ensures Walked(old(profile), entries, missing, plan, anchor, failing, ok, profile)
    {
      ghost var before := profile;
      var profileAnchor := anchor;
      var index := |plan|;
      StartOnTheWay(before, entries, missing, plan, anchor);
      while index > 0
        invariant 0 <= index <= |plan|
        invariant failing.Some? && failing.value < |plan| - index ==>
          !IsWritten(entries, missing, plan[|plan| - 1 - failing.value])
        invariant OnTheWay(before, profile, entries, missing, plan, index, anchor, profileAnchor)
      {
        var entry := plan[index - 1];
        var configured := Configured(entries, entry.packageName);
        if configured.None? && entry.packageName in missing && failing == Some(|plan| - index) {
          HereOnTheWay(before, profile, entries, missing, plan, index, anchor, profileAnchor);
          return false;
        }
        StepOnTheWay(before, profile, entries, missing, plan, index, anchor, profileAnchor);
        index := index - 1;
        if configured.Some? {
          profileAnchor := Some(configured.value.id);
        } else if entry.packageName in missing {
          profile := AppendEntry(profile, entry, profileAnchor);
          profileAnchor := Some(EntryId(entry));
        }
      }
      HereOnTheWay(before, profile, entries, missing, plan, 0, anchor, profileAnchor);
      return true;
    }

    /** Create the loader entries one by one. On failure the entries created so far are taken out
        again, newest first, by their ids. */
    method CreateMissing(missing: seq<Plugin>, position: nat, activation: Activation) returns (created: bool)
      requires position <= |loader|
      requires forall i, e :: 0 <= i < |missing| && e in loader ==> e.id != EntryId(missing[i])
      requires DistinctIds(missing)
      modifies this`loader
      ensures created <==> !(activation.CreateFails? && activation.index < |missing|)
      ensures loader == if created then old(loader)[..position] + NewLoaderEntries(missing) + old(loader)[position..]
                        else old(loader)
    {
      var entryIds: seq<string> := [];
      var index := 0;
      while index < |missing| && !(activation.CreateFails? && activation.index == index)
        invariant 0 <= index <= |missing|
        invariant activation.CreateFails? && activation.index < |missing| ==> index <= activation.index
        invariant loader == old(loader)[..position] + NewLoaderEntries(missing[..index]) + old(loader)[position..]
        invariant |entryIds| == index && forall i :: 0 <= i < index ==> entryIds[i] == EntryId(missing[i])
      {
        var at := position + index;
        ghost var before := loader;
        loader := loader[..at] + [NewLoaderEntry(missing[index])] + loader[at..];
        assert before[..at] == old(loader)[..position] + NewLoaderEntries(missing[..index]);
        assert before[at..] == old(loader)[position..];
        assert NewLoaderEntries(missing[..index + 1])
            == NewLoaderEntries(missing[..index]) + [NewLoaderEntry(missing[index])];
        entryIds := entryIds + [EntryId(missing[index])];
        index := index + 1;
      }
      if index == |missing| {
        assert missing[..index] == missing;
        return true;
      }
      RemoveCreated(entryIds, old(loader), position, missing[..index]);
      return false;
    }

    /** Take the created entries out again, newest first. */
    method RemoveCreated(entryIds: seq<string>, ghost before: seq<LoaderEntry>, ghost position: nat, ghost created: seq<Plugin>)
      requires position <= |before| && DistinctIds(created)
      requires forall i, e :: 0 <= i < |created| && e in before ==> e.id != EntryId(created[i])
      requires loader == before[..position] + NewLoaderEntries(created) + before[position..]
      requires |entryIds| == |created| && forall i :: 0 <= i < |created| ==> entryIds[i] == EntryId(created[i])
      modifies this`loader
      ensures loader == before
    {
      var index := |entryIds|;
      assert created[..index] == created;
      while index > 0
        invariant 0 <= index <= |entryIds|
        invariant loader == before[..position] + NewLoaderEntries(created[..index]) + before[position..]
      {
        index := index - 1;
        CreatedPosition(before, position, created[..index + 1]);
        var at := LoaderPosition(loader, entryIds[index]);
        RemoveNewest(before, position, created[..index + 1]);
        assert created[..index + 1][..index] == created[..index];
        loader := loader[..at] + loader[at + 1..];
      }
      assert before[..position] + before[position..] == before;
    }

    method InstallPlugin(id: string, env: Environment) returns (reply: Reply)
      requires ValidCatalog(catalog) && OwnIds(catalog, loader)
      modifies this
      ensures mutationInFlight == old(mutationInFlight)
      ensures (Current(), reply) == if old(mutationInFlight) then (old(Current()), Refused(409))
                                    else Install(catalog, old(Current()), id, env)
    {
      if mutationInFlight {
        return Refused(409);
      }
      mutationInFlight := true;
      reply := InstallExclusively(id, env);
      mutationInFlight := false;
    }

    method InstallExclusively(id: string, env: Environment) returns (reply: Reply)
      requires ValidCatalog(catalog) && OwnIds(catalog, loader)
      modifies this`loader, this`profile
      ensures (Current(), reply) == Install(catalog, old(Current()), id, env)
    {
      var found := PluginById(catalog, id);
      if found.None? {
        return Refused(404);
      }
      var plugin := found.value;
      LoadedCatalogNeverThrows(catalog, plugin);
      var result := MarketplaceInstallPlan(plugin, catalog);
      var installPlan := result.value;
      var dependencies := installPlan[..|installPlan| - 1];
      var missing := MissingFrom(Current(), installPlan);
      var disabledDependencies := DisabledAmong(Current(), dependencies);
      var pendingDependencies := PendingAmong(Current(), dependencies);
      if missing == [] && disabledDependencies == [] && pendingDependencies == []
         && Loaded(loader, Last(installPlan).packageName).Some? {
        return Refused(409);
      }
      if missing == [] && disabledDependencies == [] {
        return Applied(true);
      }
      if missing != [] && !env.npm {
        return RolledBack;
      }
      reply := WriteAndActivate(installPlan, missing, disabledDependencies, pendingDependencies, env);
    }

    /** The part of an install inside the inner try block. */
    method WriteAndActivate(installPlan: seq<Plugin>, missing: seq<Plugin>, disabledDependencies: seq<Plugin>,
                            pendingDependencies: seq<Plugin>, env: Environment) returns (reply: Reply)
      requires ValidCatalog(catalog) && OwnIds(catalog, loader)
      requires installPlan != [] && DistinctIds(installPlan) && Elems(installPlan) <= Elems(catalog)
      requires missing == MissingFrom(Current(), installPlan)
      requires disabledDependencies == DisabledAmong(Current(), installPlan[..|installPlan| - 1])
      requires pendingDependencies == PendingAmong(Current(), installPlan[..|installPlan| - 1])
      requires !(missing == [] && disabledDependencies == []) && (missing != [] ==> env.npm)
      modifies this`loader, this`profile
      ensures (Current(), reply) == InstallPlanned(old(Current()), installPlan, env)
    {
      var profileBefore := profile;
      var position := RuntimePosition(loader);
      var ok := WriteProfile(installPlan, disabledDependencies, env.failingWrite);
      if !ok {
        profile := profileBefore;
        return RolledBack;
      }
      if disabledDependencies != [] || pendingDependencies != [] {
        return Applied(true);
      }
      MissingIsNew(catalog, old(Current()), installPlan);
      var created := CreateMissing(missing, position, env.activation);
      if created {
        return Applied(false);
      }
      if env.activation.leased {
        return Applied(true);
      }
      profile := profileBefore;
      return RolledBack;
    }

    /** Both passes over the profile. When a write fails, the profile holds what came before it. */
    method WriteProfile(installPlan: seq<Plugin>, disabledDependencies: seq<Plugin>, failing: Option<nat>) returns (ok: bool)
      requires installPlan != []
      requires disabledDependencies == DisabledAmong(Current(), installPlan[..|installPlan| - 1])
      modifies this`profile
      ensures AsSpecified(old(Current()), installPlan, failing, ok, profile)
    {
      var before := Current();
      ok := ReenableDependencies(ReadProfile(before.profile), disabledDependencies, failing);
      if ok {
        ok := WriteMissing(before, installPlan, |disabledDependencies|, failing);
      } else {
        NotReenabled(before, installPlan, failing);
      }
    }

    /** The second pass, on a profile with the dependencies switched on. It goes by what was loaded and
        configured before. */
    method WriteMissing(before: State, installPlan: seq<Plugin>, done: nat, failing: Option<nat>) returns (ok: bool)
      requires installPlan != [] && done == |DisabledAmong(before, installPlan[..|installPlan| - 1])|
      requires failing.Some? ==> failing.value >= done
      requires Reenable(before.profile, ReadProfile(before.profile), DisabledAmong(before, installPlan[..|installPlan| - 1]))
               == Some(profile)
      modifies this`profile
      ensures AsSpecified(before, installPlan, failing, ok, profile)
    {
      ghost var reenabled := profile;
      var entries, missing, anchor := ReadProfile(before.profile), MissingPackages(before, installPlan), RuntimeAnchor(before.loader);
      var later := Later(failing, done);
      ok := WritePlan(entries, missing, installPlan, anchor, later);
      WrittenAsSpecified(before, installPlan, reenabled, done, failing, ok, profile);
    }

    method TogglePlugin(id: string, enabled: bool, env: Environment) returns (reply: Reply)
      requires ValidCatalog(catalog)
      modifies this
      ensures mutationInFlight == old(mutationInFlight)
      ensures (Current(), reply) == if old(mutationInFlight) then (old(Current()), Refused(409))
                                    else Toggle(catalog, old(Current()), id, enabled, env)
    {
      if mutationInFlight {
        return Refused(409);
      }
      mutationInFlight := true;
      reply := ToggleExclusively(id, enabled, env);
      mutationInFlight := false;
    }

    method ToggleExclusively(id: string, enabled: bool, env: Environment) returns (reply: Reply)
      requires ValidCatalog(catalog)
      modifies this`loader, this`profile
      ensures (Current(), reply) == Toggle(catalog, old(Current()), id, enabled, env)
    {
      var s := Current();
      var i := LoaderPosition(loader, id);
      if i == |loader| {
        return Refused(404);
      }
      var plugin := PluginByPackage(catalog, loader[i].name);
      if plugin.None? {
        return Refused(403);
      }
      if enabled {
        LoadedCatalogNeverThrows(catalog, plugin.value);
        var plan := MarketplaceInstallPlan(plugin.value, catalog);
        var missing := Filter((d: Plugin) => d.packageName !in ActivePackages(s.loader, ReadProfile(s.profile)),
                              plan.value[..|plan.value| - 1]);
        if missing != [] {
          return Refused(409);
        }
      } else {
        var blockers := DependencyBlockers(catalog, plugin.value, EnabledPackages(loader, ReadProfile(profile)));
        if blockers != [] {
          return Refused(409);
        }
      }
      if !HasId(profile, id) || env.failingWrite == Some(0) {
        return Refused(400);
      }
      var before := profile;
      profile := SetDisabled(profile, id, !enabled);
      match env.update {
        case Updated =>
          loader := loader[i := loader[i].(disabled := !enabled)];
          return Applied(false);
        case UpdateLeased(flag) =>
          loader := loader[i := loader[i].(disabled := flag)];
          return Applied(true);
        case UpdateFailed(flag) =>
          loader := loader[i := loader[i].(disabled := flag)];
          profile := before;
          return RolledBack;
      }
    }

    method UninstallPlugin(id: string, env: Environment) returns (reply: Reply)
      modifies this
      ensures mutationInFlight == old(mutationInFlight)
      ensures (Current(), reply) == if old(mutationInFlight) then (old(Current()), Refused(409))
                                    else Uninstall(catalog, old(Current()), id, env)
    {
      if mutationInFlight {
        return Refused(409);
      }
      mutationInFlight := true;
      var i := LoaderPosition(loader, id);
      if i == |loader| {
        reply := UninstallPending(id, env);
      } else {
        reply := UninstallLoaded(id, i, env);
      }
      mutationInFlight := false;
    }

    method UninstallPending(id: string, env: Environment) returns (reply: Reply)
      requires LoaderPosition(loader, id) == |loader|
      modifies this`profile
      ensures (Current(), reply) == Uninstall(catalog, old(Current()), id, env)
    {
      var pending := Find((entry: ProfileEntry) => entry.id == id, ReadProfile(profile));
      if pending.None? {
        return Refused(404);
      }
      var plugin := PluginByPackage(catalog, pending.value.packageName);
      if plugin.None? {
        return Refused(404);
      }
      if !MayDrop(catalog, Current(), plugin.value) {
        return Refused(409);
      }
      var profileBefore := profile;
      if !HasId(profile, id) || env.failingWrite == Some(0) {
        return RolledBack;
      }
      profile := RemoveEntry(profile, id);
      if !env.npm {
        profile := profileBefore;
        return RolledBack;
      }
      return Applied(false);
    }

    /** The loader entry goes first; if the rest fails it is created again in its old place. */
    method UninstallLoaded(id: string, i: nat, env: Environment) returns (reply: Reply)
      requires i == LoaderPosition(loader, id) < |loader|
      modifies this`loader, this`profile
      ensures (Current(), reply) == Uninstall(catalog, old(Current()), id, env)
    {
      var entry := loader[i];
      var plugin := PluginByPackage(catalog, entry.name);
      if plugin.None? {
        return Refused(403);
      }
      if !MayDrop(catalog, Current(), plugin.value) {
        return Refused(409);
      }
      var profileBefore := profile;
      loader := loader[..i] + loader[i + 1..];
      if HasId(profile, id) && env.failingWrite != Some(0) {
        profile := RemoveEntry(profile, id);
        if env.npm {
          return Applied(false);
        }
      }
      profile := profileBefore;
      loader := loader[..i] + [LoaderEntry(entry.id, entry.name, false)] + loader[i..];
      RestoredInPlace(old(loader), i);
      return RolledBack;
    }
  }

  lemma RestoredInPlace(loader: seq<LoaderEntry>, i: nat)
    requires i < |loader|
    ensures var removed := loader[..i] + loader[i + 1..];
            removed[..i] + [LoaderEntry(loader[i].id, loader[i].name, false)] + removed[i..]
            == loader[i := loader[i].(disabled := false)]
  {
  }

  /** The newest created entry is where it was inserted: no other entry has its id. */
  lemma CreatedPosition(loader: seq<LoaderEntry>, position: nat, created: seq<Plugin>)
    requires position <= |loader| && created != [] && DistinctIds(created)
    requires forall i, e :: 0 <= i < |created| && e in loader ==> e.id != EntryId(created[i])
    ensures LoaderPosition(loader[..position] + NewLoaderEntries(created) + loader[position..], EntryId(Last(created)))
         == position + |created| - 1
  {
    var all := loader[..position] + NewLoaderEntries(created) + loader[position..];
    var at := position + |created| - 1;
    assert all[at].id == EntryId(Last(created));
    forall k | 0 <= k < at
      ensures all[k].id != EntryId(Last(created))
    {
      if k < position {
        assert loader[k] in loader;
      } else {
        EntryIdInjective(created[k - position], Last(created));
      }
    }
  }

  lemma RemoveNewest(loader: seq<LoaderEntry>, position: nat, created: seq<Plugin>)
    requires position <= |loader| && created != []
    ensures var all := loader[..position] + NewLoaderEntries(created) + loader[position..];
            var at := position + |created| - 1;
            all[..at] + all[at + 1..]
            == loader[..position] + NewLoaderEntries(created[..|created| - 1]) + loader[position..]
  {
  }

  lemma MissingIsNew(catalog: seq<Plugin>, s: State, plan: seq<Plugin>)
    requires OwnIds(catalog, s.loader) && DistinctIds(plan) && Elems(plan) <= Elems(catalog)
    ensures var missing := MissingFrom(s, plan);
            && DistinctIds(missing)
            && forall i, e :: 0 <= i < |missing| && e in s.loader ==> e.id != EntryId(missing[i])
  {
    var missing := MissingFrom(s, plan);
    FilterKeepsDistinct(s, plan);
    forall i, e | 0 <= i < |missing| && e in s.loader
      ensures e.id != EntryId(missing[i])
    {
      assert missing[i] in missing && missing[i] in Elems(plan) && missing[i] in catalog;
    }
  }

  /** The walk writes exactly the missing plan entries. */
  lemma WrittenIsMissing(s: State, plan: seq<Plugin>, p: Plugin)
    requires p in plan
    ensures IsWritten(ReadProfile(s.profile), MissingPackages(s, plan), p) <==> p in MissingFrom(s, plan)
  {
    if p.packageName in MissingPackages(s, plan) {
      var q :| q in MissingFrom(s, plan) && q.packageName == p.packageName;
    }
  }

  lemma {:induction false} AllReenabled(profile: seq<ProfileEntry>, entries: seq<ProfileEntry>, dependencies: seq<Plugin>)
    requires Reenable(profile, entries, dependencies).Some?
    ensures ReenableUpTo(profile, entries, dependencies, |dependencies|) == Reenable(profile, entries, dependencies).value
    decreases |dependencies|
  {
    if dependencies != [] {
      var entry := Configured(entries, dependencies[0].packageName).value;
      AllReenabled(SetDisabled(profile, entry.id, false), entries, dependencies[1..]);
    }
  }

  /** The second pass ends as specified. */
  lemma WrittenAsSpecified(s: State, plan: seq<Plugin>, reenabled: seq<ProfileEntry>, done: nat, failing: Option<nat>,
                           ok: bool, profile: seq<ProfileEntry>)
    requires plan != [] && Reenable(s.profile, ReadProfile(s.profile), DisabledAmong(s, plan[..|plan| - 1])) == Some(reenabled)
    requires done == |DisabledAmong(s, plan[..|plan| - 1])| && (failing.Some? ==> failing.value >= done)
    requires Walked(reenabled, ReadProfile(s.profile), MissingPackages(s, plan), plan, RuntimeAnchor(s.loader),
                    Later(failing, done), ok, profile)
    ensures AsSpecified(s, plan, failing, ok, profile)
  {
    if failing.Some? {
      WritesAtStep(s, plan, done, failing.value);
      StoppedInWalk(s, plan, reenabled, failing.value);
    }
    WalkedToTheEnd(s, plan, reenabled);
  }

  lemma WritesAtStep(s: State, plan: seq<Plugin>, done: nat, n: nat)
    requires plan != [] && done == |DisabledAmong(s, plan[..|plan| - 1])| && n >= done
    ensures WritesAt(s, plan, n) <==>
      n - done < |plan| && IsWritten(ReadProfile(s.profile), MissingPackages(s, plan), plan[|plan| - 1 - (n - done)])
  {
    if n - done < |plan| {
      WrittenIsMissing(s, plan, plan[|plan| - 1 - (n - done)]);
    }
  }

  lemma WalkedToTheEnd(s: State, plan: seq<Plugin>, reenabled: seq<ProfileEntry>)
    requires plan != [] && Reenable(s.profile, ReadProfile(s.profile), DisabledAmong(s, plan[..|plan| - 1])) == Some(reenabled)
    ensures InstalledProfile(s, plan)
         == Some(Walk(reenabled, ReadProfile(s.profile), MissingPackages(s, plan), plan, RuntimeAnchor(s.loader)))
  {
  }

  lemma StoppedInWalk(s: State, plan: seq<Plugin>, reenabled: seq<ProfileEntry>, n: nat)
    requires plan != [] && Reenable(s.profile, ReadProfile(s.profile), DisabledAmong(s, plan[..|plan| - 1])) == Some(reenabled)
    requires n >= |DisabledAmong(s, plan[..|plan| - 1])|
    ensures WrittenProfile(s, plan, n)
         == Walk(reenabled, ReadProfile(s.profile), MissingPackages(s, plan),
                 Passed(plan, n - |DisabledAmong(s, plan[..|plan| - 1])|), RuntimeAnchor(s.loader))
  {
    if n == |DisabledAmong(s, plan[..|plan| - 1])| {
      AllReenabled(s.profile, ReadProfile(s.profile), DisabledAmong(s, plan[..|plan| - 1]));
      assert Passed(plan, 0) == [];
    }
  }

  /** The first pass that stops does so as specified. */
  lemma NotReenabled(s: State, plan: seq<Plugin>, failing: Option<nat>)
    requires plan != []
    requires var d := DisabledAmong(s, plan[..|plan| - 1]);
             !(Reenable(s.profile, ReadProfile(s.profile), d).Some? && Bound(failing, |d|) == |d|)
    ensures var d := DisabledAmong(s, plan[..|plan| - 1]);
            AsSpecified(s, plan, failing, false, ReenableUpTo(s.profile, ReadProfile(s.profile), d, Bound(failing, |d|)))
  {
  }
}
