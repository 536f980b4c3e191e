/** When the marketplace handlers accept, refuse and roll back, said by the entries of loader and
    profile, by what the target reaches in the catalogue, and by the answers of the environment. */
module MarketplaceOutcomes {
  import opened Wrappers
  import opened InstallPlan
  import opened Marketplace
  import opened MarketplaceSafety
  import opened MarketplaceReplies

  // ----- entries by their positions

  ghost predicate IsLoaded(s: State, p: Plugin) {
    exists e :: e in s.loader && e.name == p.packageName
  }

  predicate IsEntryOf(e: ProfileEntry, p: Plugin) {
    MARKETPLACE_PREFIX < e.id && e.packageName == p.packageName
  }

  ghost predicate IsConfigured(s: State, p: Plugin) {
    exists e :: e in s.profile && IsEntryOf(e, p)
  }

  ghost predicate IsMissing(s: State, p: Plugin) {
    !IsLoaded(s, p) && !IsConfigured(s, p)
  }

  ghost predicate IsPending(s: State, p: Plugin) {
    IsConfigured(s, p) && !IsLoaded(s, p)
  }

  predicate FirstLoaded(loader: seq<LoaderEntry>, p: Plugin, k: int) {
    0 <= k < |loader| && loader[k].name == p.packageName && forall j :: 0 <= j < k ==> loader[j].name != p.packageName
  }

  predicate FirstConfigured(profile: seq<ProfileEntry>, p: Plugin, k: int) {
    0 <= k < |profile| && IsEntryOf(profile[k], p) && forall j :: 0 <= j < k ==> !IsEntryOf(profile[j], p)
  }

  predicate LastOf(profile: seq<ProfileEntry>, p: Plugin, k: int) {
    0 <= k < |profile| && IsEntryOf(profile[k], p) && forall j :: k < j < |profile| ==> !IsEntryOf(profile[j], p)
  }

  /** The first entry of the package, in the loader or in the profile, is switched off. */
  ghost predicate SwitchedOff(s: State, p: Plugin) {
    || (exists k :: FirstLoaded(s.loader, p, k) && s.loader[k].disabled)
    || (exists k :: FirstConfigured(s.profile, p, k) && s.profile[k].disabled)
  }

  /** A profile entry is switched on, or only the loader knows the package and has it switched on. */
  ghost predicate IsEnabled(s: State, p: Plugin) {
    || (exists e :: e in s.profile && IsEntryOf(e, p) && !e.disabled)
    || (!IsConfigured(s, p) && exists e :: e in s.loader && e.name == p.packageName && !e.disabled)
  }

  /** The loader has it switched on, and the last profile entry of the package, if any, does not switch
      it off. */
  ghost predicate IsActive(s: State, p: Plugin) {
    && (exists e :: e in s.loader && e.name == p.packageName && !e.disabled)
    && (forall k :: LastOf(s.profile, p, k) ==> !s.profile[k].disabled)
  }

  // ----- what the handlers look up

  lemma {:induction false} LoadedIsFirst(loader: seq<LoaderEntry>, p: Plugin)
    ensures match Loaded(loader, p.packageName)
            case None => forall e :: e in loader ==> e.name != p.packageName
            case Some(entry) => exists k :: FirstLoaded(loader, p, k) && loader[k] == entry
  {
    if loader != [] {
      LoadedIsFirst(loader[1..], p);
      if loader[0].name == p.packageName {
        assert FirstLoaded(loader, p, 0);
      } else if Loaded(loader, p.packageName).Some? {
        var k :| FirstLoaded(loader[1..], p, k) && loader[1..][k] == Loaded(loader, p.packageName).value;
        assert FirstLoaded(loader, p, k + 1);
      }
    }
  }

  lemma ReadPrepended(profile: seq<ProfileEntry>)
    requires profile != []
    ensures var read, rest := ReadProfile(profile), ReadProfile(profile[1..]);
            if MARKETPLACE_PREFIX < profile[0].id then read != [] && read[0] == profile[0] && read[1..] == rest
            else read == rest
  {
  }

  lemma {:induction false} ConfiguredIsFirst(profile: seq<ProfileEntry>, p: Plugin)
    ensures match Configured(ReadProfile(profile), p.packageName)
            case None => forall e :: e in profile ==> !IsEntryOf(e, p)
            case Some(entry) => exists k :: FirstConfigured(profile, p, k) && profile[k] == entry
  {
    if profile != [] {
      ConfiguredIsFirst(profile[1..], p);
      var rest := ReadProfile(profile[1..]);
      ReadPrepended(profile);
      if IsEntryOf(profile[0], p) {
        assert FirstConfigured(profile, p, 0);
      } else if Configured(rest, p.packageName).Some? {
        var k :| FirstConfigured(profile[1..], p, k) && profile[1..][k] == Configured(rest, p.packageName).value;
        assert FirstConfigured(profile, p, k + 1);
      }
    }
  }

  lemma {:induction false} ReadAppended(profile: seq<ProfileEntry>, e: ProfileEntry)
    ensures ReadProfile(profile + [e]) == ReadProfile(profile) + if MARKETPLACE_PREFIX < e.id then [e] else []
  {
    if profile == [] {
      assert [e][1..] == [];
    } else {
      ReadAppended(profile[1..], e);
      assert (profile + [e])[1..] == profile[1..] + [e];
    }
  }

  lemma LastConfiguredAppended(entries: seq<ProfileEntry>, e: ProfileEntry, packageName: string)
    ensures LastConfigured(entries + [e], packageName)
         == if e.packageName == packageName then Some(e) else LastConfigured(entries, packageName)
  {
    assert (entries + [e])[..|entries|] == entries;
  }

  lemma LastOfAppended(front: seq<ProfileEntry>, last: ProfileEntry, p: Plugin, k: int)
    requires LastOf(front, p, k) || (k == -1 && forall e :: e in front ==> !IsEntryOf(e, p))
    ensures var r := front + [last];
            if IsEntryOf(last, p) then LastOf(r, p, |front|)
            else LastOf(r, p, k) || (k == -1 && forall e :: e in r ==> !IsEntryOf(e, p))
  {
  }

  lemma LastReadAppended(front: seq<ProfileEntry>, last: ProfileEntry, p: Plugin)
    ensures LastConfigured(ReadProfile(front + [last]), p.packageName)
         == if IsEntryOf(last, p) then Some(last) else LastConfigured(ReadProfile(front), p.packageName)
  {
    ReadAppended(front, last);
    if MARKETPLACE_PREFIX < last.id {
      LastConfiguredAppended(ReadProfile(front), last, p.packageName);
    } else {
      assert ReadProfile(front) + [] == ReadProfile(front);
    }
  }

  lemma {:induction false} LastConfiguredIsLast(profile: seq<ProfileEntry>, p: Plugin) returns (k: int)
    ensures LastOf(profile, p, k) || (k == -1 && forall e :: e in profile ==> !IsEntryOf(e, p))
    ensures LastConfigured(ReadProfile(profile), p.packageName) == if k == -1 then None else Some(profile[k])
  {
    if profile == [] {
      k := -1;
    } else {
      var front, last := profile[..|profile| - 1], Last(profile);
      k := LastConfiguredIsLast(front, p);
      LastReadAppended(front, last, p);
      LastOfAppended(front, last, p, k);
      assert profile == front + [last];
      if IsEntryOf(last, p) {
        k := |front|;
      }
    }
  }

  /** The lookups of the handlers, by the entries. */
  lemma LookupsMean(s: State, p: Plugin)
    ensures Loaded(s.loader, p.packageName).Some? <==> IsLoaded(s, p)
    ensures Configured(ReadProfile(s.profile), p.packageName).Some? <==> IsConfigured(s, p)
    ensures IsDisabled(s, p.packageName) <==> SwitchedOff(s, p)
  {
    LoadedIsFirst(s.loader, p);
    ConfiguredIsFirst(s.profile, p);
    forall j, k | FirstLoaded(s.loader, p, j) && FirstLoaded(s.loader, p, k)
      ensures j == k
    {
    }
    forall j, k | FirstConfigured(s.profile, p, j) && FirstConfigured(s.profile, p, k)
      ensures j == k
    {
    }
  }

  lemma EnabledByEntries(s: State, p: Plugin)
    ensures Enabled(s, p) <==> IsEnabled(s, p)
  {
    var entries := ReadProfile(s.profile);
    var configured := set e | e in entries :: e.packageName;
    assert p.packageName in configured <==> IsConfigured(s, p) by {
      if IsConfigured(s, p) {
        var e :| e in s.profile && IsEntryOf(e, p);
        assert e in entries;
      }
    }
    if exists e :: e in s.profile && IsEntryOf(e, p) && !e.disabled {
      var e :| e in s.profile && IsEntryOf(e, p) && !e.disabled;
      assert e in entries;
    }
  }

  lemma ActiveByEntries(s: State, p: Plugin)
    ensures Active(s, p) <==> IsActive(s, p)
  {
    var _ := LastConfiguredIsLast(s.profile, p);
    forall j, k | LastOf(s.profile, p, j) && LastOf(s.profile, p, k)
      ensures j == k
    {
    }
    forall e | e in s.loader && e.name == p.packageName
      ensures LastConfigured(ReadProfile(s.profile), e.name) == LastConfigured(ReadProfile(s.profile), p.packageName)
    {
    }
  }

  // ----- what an install needs

  /** The target itself and every catalogue plugin that it reaches through dependencies. */
  ghost predicate Needs(catalog: seq<Plugin>, plugin: Plugin, q: Plugin) {
    q in catalog && Reaches(Graph(plugin, catalog), plugin.id, q.id)
  }

  ghost function MissingNeeds(catalog: seq<Plugin>, plugin: Plugin, s: State): set<Plugin> {
    set q | q in catalog && Needs(catalog, plugin, q) && IsMissing(s, q)
  }

  ghost function OffNeeds(catalog: seq<Plugin>, plugin: Plugin, s: State): set<Plugin> {
    set q | q in catalog && q != plugin && Needs(catalog, plugin, q) && SwitchedOff(s, q)
  }

  ghost function PendingNeeds(catalog: seq<Plugin>, plugin: Plugin, s: State): set<Plugin> {
    set q | q in catalog && q != plugin && Needs(catalog, plugin, q) && IsPending(s, q)
  }

  /** One of the writes fails: first a step for each dependency that is switched off, then one for each
      plan entry from the last to the first, of which those of missing entries write. */
  ghost predicate WriteFails(catalog: seq<Plugin>, plugin: Plugin, s: State, env: Environment)
    requires PlanOf(plugin, catalog).Success?
  {
    var plan := PlanOf(plugin, catalog).value;
    var first := |OffNeeds(catalog, plugin, s)|;
    && env.failingWrite.Some?
    && (|| env.failingWrite.value < first
        || exists k :: 0 <= k < |plan| && IsMissing(s, plan[k]) && env.failingWrite.value == first + (|plan| - 1 - k))
  }

  ghost predicate CreationFails(catalog: seq<Plugin>, plugin: Plugin, s: State, env: Environment) {
    env.activation.CreateFails? && env.activation.index < |MissingNeeds(catalog, plugin, s)|
  }

  /** A dependency that is switched off has no profile entry to switch on. */
  ghost predicate CannotReenable(catalog: seq<Plugin>, plugin: Plugin, s: State) {
    exists q :: q in OffNeeds(catalog, plugin, s) && !IsConfigured(s, q)
  }

  ghost predicate HasWork(catalog: seq<Plugin>, plugin: Plugin, s: State) {
    MissingNeeds(catalog, plugin, s) != {} || OffNeeds(catalog, plugin, s) != {}
  }

  /** All that is to be written gets written. */
  ghost predicate GetsWritten(catalog: seq<Plugin>, plugin: Plugin, s: State, env: Environment)
    requires PlanOf(plugin, catalog).Success?
  {
    && (MissingNeeds(catalog, plugin, s) != {} ==> env.npm)
    && !CannotReenable(catalog, plugin, s) && !WriteFails(catalog, plugin, s, env)
  }

  /** The new entries cannot be activated before a restart, whatever the loader says. */
  ghost predicate MustWait(catalog: seq<Plugin>, plugin: Plugin, s: State) {
    OffNeeds(catalog, plugin, s) != {} || PendingNeeds(catalog, plugin, s) != {}
  }

  lemma PlanIsNeeds(catalog: seq<Plugin>, plugin: Plugin, q: Plugin)
    requires ValidCatalog(catalog) && plugin in catalog
    ensures PlanOf(plugin, catalog).Success? && PlanOf(plugin, catalog).value != []
    ensures q in PlanOf(plugin, catalog).value <==> Needs(catalog, plugin, q)
    ensures q in PlanOf(plugin, catalog).value[..|PlanOf(plugin, catalog).value| - 1]
            <==> q != plugin && Needs(catalog, plugin, q)
  {
    DependenciesOfPlan(catalog, plugin, q);
    LoadedCatalogNeverThrows(catalog, plugin);
    ReachesSelf(Graph(plugin, catalog), plugin.id);
    var plan := PlanOf(plugin, catalog).value;
    assert plan == plan[..|plan| - 1] + [Last(plan)];
  }

  lemma {:induction false} DistinctSize(plugins: seq<Plugin>)
    requires DistinctIds(plugins)
    ensures |Elems(plugins)| == |plugins|
  {
    if plugins != [] {
      DistinctSize(plugins[1..]);
      assert Elems(plugins) == {plugins[0]} + Elems(plugins[1..]);
    }
  }

  lemma {:induction false} OffIsDistinct(s: State, plan: seq<Plugin>)
    requires DistinctIds(plan)
    ensures DistinctIds(DisabledAmong(s, plan))
  {
    if plan != [] {
      var rest := plan[1..];
      OffIsDistinct(s, rest);
      var kept, all := DisabledAmong(s, rest), DisabledAmong(s, plan);
      assert all == kept || all == [plan[0]] + kept;
      forall i | 0 <= i < |kept|
        ensures kept[i].id != plan[0].id
      {
        assert kept[i] in kept && kept[i] in rest;
        var j :| 0 <= j < |rest| && rest[j] == kept[i];
        assert plan[j + 1] == rest[j];
      }
    }
  }

  /** The three lists of an install hold exactly what it needs and lacks. */
  lemma ListsMean(catalog: seq<Plugin>, plugin: Plugin, s: State)
    requires ValidCatalog(catalog) && plugin in catalog
    ensures PlanOf(plugin, catalog).Success? && PlanOf(plugin, catalog).value != []
    ensures var plan := PlanOf(plugin, catalog).value;
            && Elems(MissingFrom(s, plan)) == MissingNeeds(catalog, plugin, s)
            && Elems(DisabledAmong(s, plan[..|plan| - 1])) == OffNeeds(catalog, plugin, s)
            && Elems(PendingAmong(s, plan[..|plan| - 1])) == PendingNeeds(catalog, plugin, s)
  {
    PlanIsNeeds(catalog, plugin, plugin);
    var plan := PlanOf(plugin, catalog).value;
    forall q
      ensures q in MissingFrom(s, plan) <==> q in MissingNeeds(catalog, plugin, s)
      ensures q in DisabledAmong(s, plan[..|plan| - 1]) <==> q in OffNeeds(catalog, plugin, s)
      ensures q in PendingAmong(s, plan[..|plan| - 1]) <==> q in PendingNeeds(catalog, plugin, s)
    {
      PlanIsNeeds(catalog, plugin, q);
      LookupsMean(s, q);
    }
  }

  lemma ListSizes(catalog: seq<Plugin>, plugin: Plugin, s: State)
    requires ValidCatalog(catalog) && plugin in catalog
    ensures PlanOf(plugin, catalog).Success? && PlanOf(plugin, catalog).value != []
    ensures var plan := PlanOf(plugin, catalog).value;
            && |MissingFrom(s, plan)| == |MissingNeeds(catalog, plugin, s)|
            && |DisabledAmong(s, plan[..|plan| - 1])| == |OffNeeds(catalog, plugin, s)|
            && |PendingAmong(s, plan[..|plan| - 1])| >= |PendingNeeds(catalog, plugin, s)|
  {
    ListsMean(catalog, plugin, s);
    LoadedCatalogNeverThrows(catalog, plugin);
    var plan := PlanOf(plugin, catalog).value;
    FilterKeepsDistinct(s, plan);
    DistinctSize(MissingFrom(s, plan));
    OffIsDistinct(s, plan[..|plan| - 1]);
    DistinctSize(DisabledAmong(s, plan[..|plan| - 1]));
    ElemsNoMore(PendingAmong(s, plan[..|plan| - 1]));
  }

  lemma {:induction false} ElemsNoMore<T>(s: seq<T>)
    ensures |Elems(s)| <= |s|
    ensures Elems(s) == {} <==> s == []
  {
    if s != [] {
      ElemsNoMore(s[1..]);
      assert Elems(s) == {s[0]} + Elems(s[1..]);
    }
  }

  /** The error of the loop that re-enables, for any profile that still has all ids. */
  lemma {:induction false} ReenableThrows(s: State, profile: seq<ProfileEntry>, dependencies: seq<Plugin>)
    requires SameEntries(profile, s.profile)
    ensures Reenable(profile, ReadProfile(s.profile), dependencies).None? <==>
            exists q :: q in dependencies && !IsConfigured(s, q)
    decreases |dependencies|
  {
    if dependencies != [] {
      var d := dependencies[0];
      assert dependencies == [d] + dependencies[1..];
      LookupsMean(s, d);
      var found := Configured(ReadProfile(s.profile), d.packageName);
      if found.Some? {
        assert found.value in s.profile;
        SameEntriesHasId(profile, s.profile, found.value.id);
        ReenableThrows(s, SetDisabled(profile, found.value.id, false), dependencies[1..]);
      }
    }
  }

  lemma WritesAtMeans(catalog: seq<Plugin>, plugin: Plugin, s: State, env: Environment)
    requires ValidCatalog(catalog) && plugin in catalog
    ensures PlanOf(plugin, catalog).Success? && PlanOf(plugin, catalog).value != []
    ensures env.failingWrite.Some? && WritesAt(s, PlanOf(plugin, catalog).value, env.failingWrite.value)
            <==> WriteFails(catalog, plugin, s, env)
  {
    ListSizes(catalog, plugin, s);
    if env.failingWrite.Some? {
      WritesAtStep(s, PlanOf(plugin, catalog).value, env.failingWrite.value);
    }
  }

  lemma WritesAtStep(s: State, plan: seq<Plugin>, n: nat)
    requires plan != []
    ensures var first := |DisabledAmong(s, plan[..|plan| - 1])|;
            WritesAt(s, plan, n) <==>
            n < first || exists k :: 0 <= k < |plan| && IsMissing(s, plan[k]) && n == first + (|plan| - 1 - k)
  {
    var k := |plan| - 1 - (n - |DisabledAmong(s, plan[..|plan| - 1])|);
    if 0 <= k < |plan| {
      LookupsMean(s, plan[k]);
    }
  }

  /** The branches of the handler, by its three lists. */
  lemma PlannedAnswers(s: State, plan: seq<Plugin>, env: Environment)
    requires plan != []
    ensures var missing := MissingFrom(s, plan);
            var off, pending := DisabledAmong(s, plan[..|plan| - 1]), PendingAmong(s, plan[..|plan| - 1]);
            var written := && (missing != [] ==> env.npm) && Reenable(s.profile, ReadProfile(s.profile), off).Some?
                           && !(env.failingWrite.Some? && WritesAt(s, plan, env.failingWrite.value));
            var fails := env.activation.CreateFails? && env.activation.index < |missing|;
            InstallPlanned(s, plan, env).1 ==
              if missing == [] && off == [] then
                if pending == [] && Loaded(s.loader, Last(plan).packageName).Some? then Refused(409) else Applied(true)
              else if !written then RolledBack
              else if off != [] || pending != [] then Applied(true)
              else if !fails then Applied(false)
              else if env.activation.leased then Applied(true)
              else RolledBack
  {
  }

  /** What an install of a catalogue plugin answers. It is refused exactly if there is nothing to do at
      all; accepted without restart exactly if something is missing, nothing is switched off or waiting
      for a restart, and npm, every write and every creation succeed; accepted with restart exactly if
      all is written already but not all of it is loaded, or all gets written and cannot be activated
      now; and rolled back exactly if not all gets written, or a creation fails for another reason. */
  lemma InstallAnswers(catalog: seq<Plugin>, s: State, plugin: Plugin, env: Environment)
    requires ValidCatalog(catalog) && plugin in catalog
    ensures PlanOf(plugin, catalog).Success?
    ensures var reply := Install(catalog, s, plugin.id, env).1;
            var work, waits := HasWork(catalog, plugin, s), MustWait(catalog, plugin, s);
            var written, fails := GetsWritten(catalog, plugin, s, env), CreationFails(catalog, plugin, s, env);
            && (reply == Refused(409) <==> !work && !waits && IsLoaded(s, plugin))
            && (reply == Applied(false) <==> work && !waits && written && !fails)
            && (reply == Applied(true) <==>
                  || (!work && (waits || !IsLoaded(s, plugin)))
                  || (work && written && (waits || (fails && env.activation.leased))))
            && (reply == RolledBack <==> work && (!written || (!waits && fails && !env.activation.leased)))
  {
    InstallIsPlanned(catalog, s, plugin, env);
    var plan := PlanOf(plugin, catalog).value;
    ListsDecide(catalog, plugin, s);
    ListSizes(catalog, plugin, s);
    WritesAtMeans(catalog, plugin, s, env);
    PlannedAnswers(s, plan, env);
  }

  /** What the handler finds in its lists and lookups. */
  lemma ListsDecide(catalog: seq<Plugin>, plugin: Plugin, s: State)
    requires ValidCatalog(catalog) && plugin in catalog
    ensures PlanOf(plugin, catalog).Success? && PlanOf(plugin, catalog).value != []
    ensures var plan := PlanOf(plugin, catalog).value;
            var missing := MissingFrom(s, plan);
            var off, pending := DisabledAmong(s, plan[..|plan| - 1]), PendingAmong(s, plan[..|plan| - 1]);
            && (missing == [] <==> MissingNeeds(catalog, plugin, s) == {})
            && (off == [] <==> OffNeeds(catalog, plugin, s) == {})
            && (pending == [] <==> PendingNeeds(catalog, plugin, s) == {})
            && (Reenable(s.profile, ReadProfile(s.profile), off).None? <==> CannotReenable(catalog, plugin, s))
            && (Loaded(s.loader, Last(plan).packageName).Some? <==> IsLoaded(s, plugin))
  {
    ListsMean(catalog, plugin, s);
    LoadedCatalogNeverThrows(catalog, plugin);
    var plan := PlanOf(plugin, catalog).value;
    var off := DisabledAmong(s, plan[..|plan| - 1]);
    ElemsNoMore(MissingFrom(s, plan));
    ElemsNoMore(off);
    ElemsNoMore(PendingAmong(s, plan[..|plan| - 1]));
    ReenableThrows(s, s.profile, off);
    assert forall q :: q in off <==> q in Elems(off);
    LookupsMean(s, plugin);
  }

  lemma InstallIsPlanned(catalog: seq<Plugin>, s: State, plugin: Plugin, env: Environment)
    requires ValidCatalog(catalog) && plugin in catalog
    ensures PlanOf(plugin, catalog).Success? && PlanOf(plugin, catalog).value != []
    ensures Install(catalog, s, plugin.id, env) == InstallPlanned(s, PlanOf(plugin, catalog).value, env)
  {
    SameIdSamePlugin(catalog, plugin, PluginById(catalog, plugin.id).value);
    LoadedCatalogNeverThrows(catalog, plugin);
  }

  /** Of a plugin that is not in the catalogue, and of no other, an install says that it was not found. */
  lemma UnknownInstall(catalog: seq<Plugin>, s: State, id: string, env: Environment)
    requires ValidCatalog(catalog)
    ensures Install(catalog, s, id, env).1 == Refused(404) <==> forall p :: p in catalog ==> p.id != id
  {
    if PluginById(catalog, id).Some? {
      InstallIsPlanned(catalog, s, PluginById(catalog, id).value, env);
    }
  }

  /** The loader after an install without restart: what was there, in its order, with one entry that is
      switched on for each missing plugin, directly in front of the first runtime entry or else at the
      end, and every dependency in front of what needs it. Every other install leaves the loader alone. */
  ghost predicate Grown(catalog: seq<Plugin>, before: seq<LoaderEntry>, after: seq<LoaderEntry>, i: nat,
                        missing: set<Plugin>, added: seq<Plugin>)
  {
    && i <= |before| && |after| == |before| + |missing| && |added| == |missing| && Elems(added) == missing
    && after[..i] == before[..i] && after[i + |added|..] == before[i..]
    && (forall k :: 0 <= k < i ==> before[k].name != RUNTIME_ENTRY_NAME)
    && (i < |before| ==> before[i].name == RUNTIME_ENTRY_NAME)
    && (forall k :: 0 <= k < |added| ==> after[i + k] == LoaderEntry(EntryId(added[k]), added[k].packageName, false))
    && NeedsFirst(added)
  }

  lemma {:induction false} RuntimeIsFirst(loader: seq<LoaderEntry>)
    ensures var i := RuntimePosition(loader);
            && (forall k :: 0 <= k < i ==> loader[k].name != RUNTIME_ENTRY_NAME)
            && (i < |loader| ==> loader[i].name == RUNTIME_ENTRY_NAME)
  {
    if loader != [] {
      RuntimeIsFirst(loader[1..]);
    }
  }

  /** Nothing depends on what stands at its place or behind it. */
  ghost predicate NeedsFirst(plugins: seq<Plugin>) {
    forall j, k :: 0 <= k <= j < |plugins| ==> plugins[j].id !in plugins[k].dependencies
  }

  lemma PlanNeedsFirst(plan: seq<Plugin>)
    requires DistinctIds(plan) && DependenciesFirst(plan)
    ensures NeedsFirst(plan)
  {
    forall j, k, d | 0 <= k <= j < |plan| && d in plan[k].dependencies
      ensures d != plan[j].id
    {
      assert d in Ids(plan[..k]);
      var q :| q in plan[..k] && q.id == d;
      var c :| 0 <= c < k && plan[c] == q;
    }
  }

  lemma {:induction false} MissingNeedsFirst(s: State, plan: seq<Plugin>)
    requires NeedsFirst(plan)
    ensures NeedsFirst(MissingFrom(s, plan))
  {
    if plan != [] {
      var rest := plan[1..];
      MissingNeedsFirst(s, rest);
      var kept, all := MissingFrom(s, rest), MissingFrom(s, plan);
      assert all == kept || all == [plan[0]] + kept;
      forall q | q in kept
        ensures q.id !in plan[0].dependencies
      {
        var c :| 0 <= c < |rest| && rest[c] == q;
        assert plan[c + 1] == q;
      }
      if all == [plan[0]] + kept {
        HeadNeedsNone(plan[0], kept);
      }
    }
  }

  lemma HeadNeedsNone(p: Plugin, kept: seq<Plugin>)
    requires NeedsFirst(kept) && p.id !in p.dependencies && forall q :: q in kept ==> q.id !in p.dependencies
    ensures NeedsFirst([p] + kept)
  {
    var all := [p] + kept;
    forall j, k | 0 <= k <= j < |all|
      ensures all[j].id !in all[k].dependencies
    {
      assert j > 0 ==> all[j] == kept[j - 1];
      assert k > 0 ==> all[k] == kept[k - 1];
    }
  }

  lemma InstallGrowsLoader(catalog: seq<Plugin>, s: State, plugin: Plugin, env: Environment)
    requires ValidCatalog(catalog) && plugin in catalog
    ensures var (s', reply) := Install(catalog, s, plugin.id, env);
            if reply == Applied(false) then
              exists i, added :: Grown(catalog, s.loader, s'.loader, i, MissingNeeds(catalog, plugin, s), added)
            else s'.loader == s.loader
  {
    InstallIsPlanned(catalog, s, plugin, env);
    var plan := PlanOf(plugin, catalog).value;
    var (s', reply) := Install(catalog, s, plugin.id, env);
    if reply == Applied(false) {
      var i, added := RuntimePosition(s.loader), MissingFrom(s, plan);
      CreatedAll(s, plan, env);
      RuntimeIsFirst(s.loader);
      ListsMean(catalog, plugin, s);
      ListSizes(catalog, plugin, s);
      LoadedCatalogNeverThrows(catalog, plugin);
      PlanNeedsFirst(plan);
      MissingNeedsFirst(s, plan);
      SplicedLoader(s.loader, i, added);
      assert Grown(catalog, s.loader, s'.loader, i, MissingNeeds(catalog, plugin, s), added);
    } else {
      NotGrown(s, plan, env);
    }
  }

  lemma NotGrown(s: State, plan: seq<Plugin>, env: Environment)
    requires plan != [] && InstallPlanned(s, plan, env).1 != Applied(false)
    ensures InstallPlanned(s, plan, env).0.loader == s.loader
  {
  }

  lemma Spliced<T>(before: seq<T>, i: nat, added: seq<T>)
    requires i <= |before|
    ensures var r := before[..i] + added + before[i..];
            && |r| == |before| + |added| && r[..i] == before[..i] && r[i + |added|..] == before[i..]
            && r[i..i + |added|] == added
  {
  }

  lemma SplicedLoader(loader: seq<LoaderEntry>, i: nat, added: seq<Plugin>)
    requires i <= |loader|
    ensures var r := loader[..i] + NewLoaderEntries(added) + loader[i..];
            && |r| == |loader| + |added| && r[..i] == loader[..i] && r[i + |added|..] == loader[i..]
            && forall k :: 0 <= k < |added| ==> r[i + k] == NewLoaderEntry(added[k])
  {
    var news := NewLoaderEntries(added);
    var r := loader[..i] + news + loader[i..];
    Spliced(loader, i, news);
    forall k | 0 <= k < |added|
      ensures r[i + k] == NewLoaderEntry(added[k])
    {
      assert r[i..i + |news|][k] == r[i + k];
    }
  }

  // ----- toggle

  /** Nothing stands in the way of switching the plugin: its needs are active, or nothing that is enabled
      depends on it. */
  ghost predicate MaySwitch(catalog: seq<Plugin>, s: State, plugin: Plugin, enabled: bool) {
    if enabled then forall q :: q != plugin && Needs(catalog, plugin, q) ==> IsActive(s, q)
    else Unneeded(catalog, s, plugin)
  }

  ghost predicate Unneeded(catalog: seq<Plugin>, s: State, plugin: Plugin) {
    forall p :: p in catalog && plugin.id in p.dependencies ==> !IsEnabled(s, p)
  }

  lemma MayEnableMeans(catalog: seq<Plugin>, s: State, plugin: Plugin)
    requires ValidCatalog(catalog) && plugin in catalog
    ensures MayEnable(catalog, s, plugin) <==> MaySwitch(catalog, s, plugin, true)
  {
    EnableAllowedExactly(catalog, s, plugin);
    forall q
      ensures Active(s, q) <==> IsActive(s, q)
    {
      ActiveByEntries(s, q);
    }
  }

  lemma MayDropMeans(catalog: seq<Plugin>, s: State, plugin: Plugin)
    ensures MayDrop(catalog, s, plugin) <==> Unneeded(catalog, s, plugin)
  {
    var blockers := DependencyBlockers(catalog, plugin, EnabledPackages(s.loader, ReadProfile(s.profile)));
    forall p
      ensures p in blockers <==> p in catalog && plugin.id in p.dependencies && IsEnabled(s, p)
    {
      EnabledByEntries(s, p);
    }
    assert blockers != [] ==> blockers[0] in blockers;
  }

  ghost predicate InProfileById(s: State, id: string) {
    exists e :: e in s.profile && e.id == id
  }

  lemma HasIdMeans(s: State, id: string)
    ensures HasId(s.profile, id) <==> InProfileById(s, id)
  {
    if InProfileById(s, id) {
      var e :| e in s.profile && e.id == id;
      var k :| 0 <= k < |s.profile| && s.profile[k] == e;
    }
  }

  /** What a toggle answers when the loader has no entry with the id, or one of no catalogue plugin. */
  lemma UnknownToggle(catalog: seq<Plugin>, s: State, id: string, enabled: bool, env: Environment)
    ensures var reply := Toggle(catalog, s, id, enabled, env).1;
            var i := LoaderPosition(s.loader, id);
            && (reply == Refused(404) <==> forall e :: e in s.loader ==> e.id != id)
            && (reply == Refused(403) <==>
                  i < |s.loader| && forall p :: p in catalog ==> p.packageName != s.loader[i].name)
  {
    var i := LoaderPosition(s.loader, id);
    if i < |s.loader| {
      assert s.loader[i] in s.loader;
    }
  }

  /** What it answers for the entry of a catalogue plugin, the first one with the id. */
  lemma ToggleAnswers(catalog: seq<Plugin>, s: State, plugin: Plugin, id: string, enabled: bool, env: Environment)
    requires ValidCatalog(catalog) && plugin in catalog
    requires var i := LoaderPosition(s.loader, id); i < |s.loader| && s.loader[i].name == plugin.packageName
    ensures var reply := Toggle(catalog, s, id, enabled, env).1;
            var may := MaySwitch(catalog, s, plugin, enabled);
            var written := InProfileById(s, id) && env.failingWrite != Some(0);
            && (reply == Refused(409) <==> !may)
            && (reply == Refused(400) <==> may && !written)
            && (reply == Applied(false) <==> may && written && env.update.Updated?)
            && (reply == Applied(true) <==> may && written && env.update.UpdateLeased?)
            && (reply == RolledBack <==> may && written && env.update.UpdateFailed?)
  {
    SameIdSamePlugin(catalog, plugin, PluginByPackage(catalog, plugin.packageName).value);
    MayEnableMeans(catalog, s, plugin);
    MayDropMeans(catalog, s, plugin);
    HasIdMeans(s, id);
  }

  predicate SameBut<T(==)>(before: seq<T>, after: seq<T>, k: nat) {
    |after| == |before| && forall j :: 0 <= j < |before| && j != k ==> after[j] == before[j]
  }

  /** What it changes: the flag of the loader entry with the id, to what the loader made of it, and the
      flag of the profile entry, exactly if it is accepted; all else stays. */
  lemma ToggleChangesFlags(catalog: seq<Plugin>, s: State, id: string, enabled: bool, env: Environment)
    requires !Toggle(catalog, s, id, enabled, env).1.Refused?
    ensures var (s', reply) := Toggle(catalog, s, id, enabled, env);
            var i, k := LoaderPosition(s.loader, id), Position(s.profile, id);
            && i < |s.loader| && k < |s.profile| && SameBut(s.loader, s'.loader, i) && SameBut(s.profile, s'.profile, k)
            && s'.loader[i] == s.loader[i].(disabled := if env.update.Updated? then !enabled else env.update.disabled)
            && s'.profile[k] == s.profile[k].(disabled := if reply.Applied? then !enabled else s.profile[k].disabled)
  {
  }

  // ----- uninstall

  /** The package that an uninstall is about: of the first loader entry with the id, or else of the
      first profile entry with it, which the reader must see. */
  function TargetPackage(s: State, id: string): Option<string> {
    var i, k := LoaderPosition(s.loader, id), Position(s.profile, id);
    if i < |s.loader| then Some(s.loader[i].name)
    else if k < |s.profile| && MARKETPLACE_PREFIX < id then Some(s.profile[k].packageName)
    else None
  }

  lemma {:induction false} PendingIsFirst(profile: seq<ProfileEntry>, id: string)
    ensures var k := Position(profile, id);
            Find((entry: ProfileEntry) => entry.id == id, ReadProfile(profile))
            == if k < |profile| && MARKETPLACE_PREFIX < id then Some(profile[k]) else None
  {
    if profile != [] {
      PendingIsFirst(profile[1..], id);
      ReadPrepended(profile);
    }
  }

  ghost predicate OfCatalog(catalog: seq<Plugin>, package: Option<string>) {
    package.Some? && exists p :: p in catalog && p.packageName == package.value
  }

  lemma UnknownUninstall(catalog: seq<Plugin>, s: State, id: string, env: Environment)
    ensures var reply := Uninstall(catalog, s, id, env).1;
            var loaded := exists e :: e in s.loader && e.id == id;
            && (reply == Refused(404) <==> !loaded && !OfCatalog(catalog, TargetPackage(s, id)))
            && (reply == Refused(403) <==> loaded && !OfCatalog(catalog, TargetPackage(s, id)))
  {
    var i := LoaderPosition(s.loader, id);
    if i < |s.loader| {
      assert s.loader[i] in s.loader;
    }
    PendingIsFirst(s.profile, id);
  }

  lemma UninstallAnswers(catalog: seq<Plugin>, s: State, plugin: Plugin, id: string, env: Environment)
    requires ValidCatalog(catalog) && plugin in catalog && TargetPackage(s, id) == Some(plugin.packageName)
    ensures var reply := Uninstall(catalog, s, id, env).1;
            var may := Unneeded(catalog, s, plugin);
            var done := InProfileById(s, id) && env.failingWrite != Some(0) && env.npm;
            && (reply == Refused(409) <==> !may)
            && (reply == RolledBack <==> may && !done)
            && (reply == Applied(false) <==> may && done)
  {
    SameIdSamePlugin(catalog, plugin, PluginByPackage(catalog, plugin.packageName).value);
    MayDropMeans(catalog, s, plugin);
    HasIdMeans(s, id);
    PendingIsFirst(s.profile, id);
  }

  predicate Without<T(==)>(before: seq<T>, after: seq<T>, k: nat) {
    if k < |before| then
      && |after| == |before| - 1 && (forall j :: 0 <= j < k ==> after[j] == before[j])
      && (forall j :: k <= j < |after| ==> after[j] == before[j + 1])
    else after == before
  }

  /** An uninstall that is accepted takes out the one entry with the id, of loader and profile. */
  lemma UninstallRemoves(catalog: seq<Plugin>, s: State, id: string, env: Environment)
    requires Uninstall(catalog, s, id, env).1.Applied?
    ensures var s' := Uninstall(catalog, s, id, env).0;
            && Without(s.loader, s'.loader, LoaderPosition(s.loader, id))
            && InProfileById(s, id) && Without(s.profile, s'.profile, Position(s.profile, id))
  {
    HasIdMeans(s, id);
  }
}
