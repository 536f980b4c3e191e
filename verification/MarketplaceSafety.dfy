/** What every marketplace request and every restart keeps: whatever is enabled has all of its
    transitive dependencies enabled. */
module MarketplaceSafety {
  import opened Wrappers
  import opened InstallPlan
  import opened Marketplace

  // ----- the invariant

  /** Entries of a catalogue package, and only they, carry the id an install gives them. */
  ghost predicate Named(catalog: seq<Plugin>, id: string, packageName: string) {
    forall p :: p in catalog ==> (packageName == p.packageName <==> id == EntryId(p))
  }

  ghost predicate UniqueIds(profile: seq<ProfileEntry>) {
    forall i, j :: 0 <= i < j < |profile| ==> profile[i].id != profile[j].id
  }

  ghost predicate UniqueLoaderIds(loader: seq<LoaderEntry>) {
    forall i, j :: 0 <= i < j < |loader| ==> loader[i].id != loader[j].id
  }

  /** Every catalogue plugin, loaded or not, is installed through a `marketplace-*` profile entry. */
  ghost predicate WellFormed(catalog: seq<Plugin>, s: State) {
    && UniqueIds(s.profile) && UniqueLoaderIds(s.loader)
    && (forall e :: e in s.profile ==> Named(catalog, e.id, e.packageName))
    && (forall e :: e in s.loader ==> Named(catalog, e.id, e.name))
    && (forall e, p :: e in s.loader && p in catalog && e.name == p.packageName ==> InProfile(s.profile, p))
  }

  ghost predicate InProfile(profile: seq<ProfileEntry>, p: Plugin) {
    exists e :: e in profile && e.id == EntryId(p)
  }

  ghost predicate EnabledIn(profile: seq<ProfileEntry>, p: Plugin) {
    exists e :: e in profile && e.id == EntryId(p) && !e.disabled
  }

  predicate Enabled(s: State, p: Plugin) {
    p.packageName in EnabledPackages(s.loader, ReadProfile(s.profile))
  }

  predicate Active(s: State, p: Plugin) {
    p.packageName in ActivePackages(s.loader, ReadProfile(s.profile))
  }

  ghost predicate DependencyClosed(catalog: seq<Plugin>, s: State) {
    forall p, q :: p in catalog && q in catalog && q.id in p.dependencies && Enabled(s, p) ==> Enabled(s, q)
  }

  ghost predicate Safe(catalog: seq<Plugin>, s: State) {
    WellFormed(catalog, s) && DependencyClosed(catalog, s)
  }

  /** On well-formed states the package sets of the handlers mean what the profile says. */
  lemma EnabledMeans(catalog: seq<Plugin>, s: State, p: Plugin)
    requires WellFormed(catalog, s) && p in catalog && p.id != ""
    ensures Enabled(s, p) <==> EnabledIn(s.profile, p)
    ensures Active(s, p) ==> Enabled(s, p)
    ensures Configured(ReadProfile(s.profile), p.packageName).Some? <==> InProfile(s.profile, p)
    ensures InProfile(s.profile, p) ==> Configured(ReadProfile(s.profile), p.packageName).value.id == EntryId(p)
  {
    var entries := ReadProfile(s.profile);
    assert forall e :: e in s.profile && e.packageName == p.packageName ==> e.id == EntryId(p);
    assert MARKETPLACE_PREFIX < EntryId(p);
    if InProfile(s.profile, p) {
      var e :| e in s.profile && e.id == EntryId(p);
      assert e in entries && e.packageName == p.packageName;
    }
    if EnabledIn(s.profile, p) {
      var e :| e in s.profile && e.id == EntryId(p) && !e.disabled;
      assert e in entries && e.packageName == p.packageName;
    }
  }

  // ----- edits of the profile, by their entries

  lemma SetDisabledEntries(profile: seq<ProfileEntry>, id: string, disabled: bool)
    requires UniqueIds(profile) && HasId(profile, id)
    ensures var r := SetDisabled(profile, id, disabled);
            && UniqueIds(r) && |r| == |profile|
            && (forall i :: 0 <= i < |r| ==> r[i].id == profile[i].id && r[i].packageName == profile[i].packageName)
            && (forall i :: 0 <= i < |r| ==> r[i].disabled == if r[i].id == id then disabled else profile[i].disabled)
  {
  }

  lemma RemoveEntryEntries(profile: seq<ProfileEntry>, id: string)
    requires UniqueIds(profile) && HasId(profile, id)
    ensures UniqueIds(RemoveEntry(profile, id))
    ensures forall e :: e in RemoveEntry(profile, id) <==> e in profile && e.id != id
  {
    var i := Position(profile, id);
    var r := RemoveEntry(profile, id);
    forall e | e in profile && e.id != id
      ensures e in r
    {
      var j :| 0 <= j < |profile| && profile[j] == e;
      assert r[if j < i then j else j - 1] == e;
    }
  }

  lemma AppendEntryEntries(profile: seq<ProfileEntry>, plugin: Plugin, anchor: Option<string>)
    requires UniqueIds(profile)
    requires forall e :: e in profile ==> e.packageName != plugin.packageName && e.id != EntryId(plugin)
    ensures var r := AppendEntry(profile, plugin, anchor);
            var entry := ProfileEntry(EntryId(plugin), plugin.packageName, false);
            UniqueIds(r) && forall e :: e in r <==> e in profile || e == entry
  {
    var r := AppendEntry(profile, plugin, anchor);
    var entry := ProfileEntry(EntryId(plugin), plugin.packageName, false);
    var i := if anchor.None? then |profile| else Position(profile, anchor.value);
    assert r == profile[..i] + [entry] + profile[i..];
    assert r[i] == entry;
    forall e | e in profile
      ensures e in r
    {
      var j :| 0 <= j < |profile| && profile[j] == e;
      assert r[if j < i then j else j + 1] == e;
    }
  }

  /** What the schema check and the load-time check guarantee of the catalogue. */
  ghost predicate ValidCatalog(catalog: seq<Plugin>) {
    LoadableCatalog(catalog) && forall p :: p in catalog ==> p.id != ""
  }

  lemma EntryIdInjective(p: Plugin, q: Plugin)
    ensures EntryId(p) == EntryId(q) <==> p.id == q.id
  {
    assert EntryId(p)[|MARKETPLACE_PREFIX|..] == p.id;
    assert EntryId(q)[|MARKETPLACE_PREFIX|..] == q.id;
  }

  lemma SameIdSamePlugin(catalog: seq<Plugin>, p: Plugin, q: Plugin)
    requires ConsistentEntries(catalog) && p in catalog && q in catalog
    requires p.id == q.id || p.packageName == q.packageName
    ensures p == q
  {
    var i :| 0 <= i < |catalog| && catalog[i] == p;
    var j :| 0 <= j < |catalog| && catalog[j] == q;
  }

  // ----- the two passes of an install over the profile

  /** The same entries in the same order, up to their disabled flags. */
  ghost predicate SameEntries(a: seq<ProfileEntry>, b: seq<ProfileEntry>) {
    |a| == |b| && forall i :: 0 <= i < |a| ==> a[i].id == b[i].id && a[i].packageName == b[i].packageName
  }

  ghost predicate HasEntryId(plugins: seq<Plugin>, id: string) {
    exists p :: p in plugins && EntryId(p) == id
  }

  /** Re-enabling clears exactly the flags of the given dependencies; it throws exactly when one of
      them has no profile entry. */
  lemma HeadEntryId(dependencies: seq<Plugin>)
    requires dependencies != []
    ensures forall d :: d in dependencies <==> d == dependencies[0] || d in dependencies[1..]
    ensures forall x :: HasEntryId(dependencies, x) <==> x == EntryId(dependencies[0]) || HasEntryId(dependencies[1..], x)
  {
    assert dependencies == [dependencies[0]] + dependencies[1..];
  }

  lemma {:induction false} ReenableEffect(catalog: seq<Plugin>, s: State, profile: seq<ProfileEntry>, dependencies: seq<Plugin>)
    requires ValidCatalog(catalog) && WellFormed(catalog, s) && SameEntries(profile, s.profile)
    requires forall d :: d in dependencies ==> d in catalog
    ensures match Reenable(profile, ReadProfile(s.profile), dependencies)
            case None => exists d :: d in dependencies && !InProfile(s.profile, d)
            case Some(r) =>
              && SameEntries(r, s.profile)
              && (forall d :: d in dependencies ==> InProfile(s.profile, d))
              && (forall i :: 0 <= i < |r| ==>
                    r[i].disabled == (profile[i].disabled && !HasEntryId(dependencies, r[i].id)))
    decreases |dependencies|
  {
    if dependencies != [] {
      var d := dependencies[0];
      EnabledMeans(catalog, s, d);
      if InProfile(s.profile, d) {
        var id := EntryId(d);
        SameEntriesHasId(profile, s.profile, id);
        SetDisabledEntries(profile, id, false);
        var next := SetDisabled(profile, id, false);
        ReenableEffect(catalog, s, next, dependencies[1..]);
        HeadEntryId(dependencies);
      } else {
        assert d in dependencies;
      }
    }
  }

  lemma SameEntriesHasId(a: seq<ProfileEntry>, b: seq<ProfileEntry>, id: string)
    requires SameEntries(a, b) && exists e :: e in b && e.id == id
    ensures HasId(a, id)
  {
    var e :| e in b && e.id == id;
    var k :| 0 <= k < |b| && b[k] == e;
    assert a[k].id == id;
  }

  function NewEntry(p: Plugin): ProfileEntry {
    ProfileEntry(EntryId(p), p.packageName, false)
  }

  /** The walk keeps every entry and adds one for each missing plan entry, nothing else. */
  lemma {:induction false} WalkEffect(catalog: seq<Plugin>, entries: seq<ProfileEntry>, missing: set<string>,
                                      profile: seq<ProfileEntry>, plan: seq<Plugin>, anchor: Option<string>)
    requires UniqueIds(profile) && (forall e :: e in profile ==> Named(catalog, e.id, e.packageName))
    requires DistinctIds(plan) && forall p :: p in plan ==> p in catalog
    requires ConsistentEntries(catalog)
    requires forall p :: p in plan && p.packageName in missing ==>
               Configured(entries, p.packageName).None? && !InProfile(profile, p)
    ensures var r := Walk(profile, entries, missing, plan, anchor);
            && UniqueIds(r)
            && (forall e :: e in r ==> Named(catalog, e.id, e.packageName))
            && (forall e :: e in profile ==> e in r)
            && (forall p :: p in plan && p.packageName in missing ==> NewEntry(p) in r)
            && (forall e :: e in r ==> e in profile || exists p :: p in plan && p.packageName in missing && e == NewEntry(p))
    decreases |plan|
  {
    if plan != [] {
      var p := Last(plan);
      var rest := plan[..|plan| - 1];
      assert plan == rest + [p];
      assert p in plan;
      match Configured(entries, p.packageName) {
        case Some(entry) =>
          WalkEffect(catalog, entries, missing, profile, rest, Some(entry.id));
        case None =>
          if p.packageName in missing {
            assert forall e :: e in profile ==> Named(catalog, e.id, e.packageName);
            assert forall e :: e in profile ==> e.packageName != p.packageName && e.id != EntryId(p);
            AppendEntryEntries(profile, p, anchor);
            var next := AppendEntry(profile, p, anchor);
            NewEntryNamed(catalog, p);
            forall q | q in rest && q.packageName in missing
              ensures !InProfile(next, q)
            {
              var i :| 0 <= i < |rest| && rest[i] == q;
              assert plan[i].id != plan[|plan| - 1].id;
              EntryIdInjective(p, q);
            }
            WalkEffect(catalog, entries, missing, next, rest, Some(EntryId(p)));
          } else {
            WalkEffect(catalog, entries, missing, profile, rest, anchor);
          }
      }
    }
  }

  lemma NewEntryNamed(catalog: seq<Plugin>, p: Plugin)
    requires ConsistentEntries(catalog) && p in catalog
    ensures Named(catalog, EntryId(p), p.packageName)
  {
    forall q | q in catalog
      ensures p.packageName == q.packageName <==> EntryId(p) == EntryId(q)
    {
      EntryIdInjective(p, q);
      if p.packageName == q.packageName || p.id == q.id {
        SameIdSamePlugin(catalog, p, q);
      }
    }
  }

  // ----- install

  /** The profile an install writes: nothing else is enabled than before, the missing plan entries
      and the re-enabled dependencies; no entry is lost. */
  lemma InstalledProfileEffect(catalog: seq<Plugin>, s: State, plan: seq<Plugin>)
    requires ValidCatalog(catalog) && WellFormed(catalog, s)
    requires plan != [] && DistinctIds(plan) && forall p :: p in plan ==> p in catalog
    requires InstalledProfile(s, plan).Some?
    ensures var profile := InstalledProfile(s, plan).value;
            var added := MissingFrom(s, plan);
            && UniqueIds(profile) && (forall e :: e in profile ==> Named(catalog, e.id, e.packageName))
            && (forall p :: p in catalog ==>
                  (InProfile(profile, p) <==> InProfile(s.profile, p) || p in added))
            && (forall p :: p in catalog ==>
                  (EnabledIn(profile, p) <==>
                   EnabledIn(s.profile, p) || p in added || p in DisabledAmong(s, plan[..|plan| - 1])))
  {
    var entries := ReadProfile(s.profile);
    var added := MissingFrom(s, plan);
    var dependencies := DisabledAmong(s, plan[..|plan| - 1]);
    var missing := set p | p in added :: p.packageName;
    ReenabledProfile(catalog, s, dependencies);
    var reenabled := Reenable(s.profile, entries, dependencies).value;
    forall p | p in plan && p.packageName in missing
      ensures Configured(entries, p.packageName).None? && !InProfile(reenabled, p)
    {
      MissingPackage(catalog, s, plan, p);
      EnabledMeans(catalog, s, p);
    }
    WalkEffect(catalog, entries, missing, reenabled, plan, RuntimeAnchor(s.loader));
    var profile := InstalledProfile(s, plan).value;
    assert profile == Walk(reenabled, entries, missing, plan, RuntimeAnchor(s.loader));
    forall p | p in catalog
      ensures InProfile(profile, p) <==> InProfile(s.profile, p) || p in added
      ensures EnabledIn(profile, p) <==> EnabledIn(s.profile, p) || p in added || p in dependencies
    {
      WalkedIn(catalog, reenabled, profile, missing, plan, p);
      MissingPackage(catalog, s, plan, p);
    }
  }

  lemma MissingPackage(catalog: seq<Plugin>, s: State, plan: seq<Plugin>, p: Plugin)
    requires ConsistentEntries(catalog) && p in catalog && forall q :: q in plan ==> q in catalog
    ensures var added := MissingFrom(s, plan);
            p in plan && p.packageName in (set q | q in added :: q.packageName) <==> p in added
  {
    var added := MissingFrom(s, plan);
    if p.packageName in (set q | q in added :: q.packageName) {
      var q :| q in added && q.packageName == p.packageName;
      SameIdSamePlugin(catalog, p, q);
    }
  }

  lemma ReenabledProfile(catalog: seq<Plugin>, s: State, dependencies: seq<Plugin>)
    requires ValidCatalog(catalog) && WellFormed(catalog, s)
    requires forall d :: d in dependencies ==> d in catalog
    requires Reenable(s.profile, ReadProfile(s.profile), dependencies).Some?
    ensures var profile := Reenable(s.profile, ReadProfile(s.profile), dependencies).value;
            && UniqueIds(profile) && (forall e :: e in profile ==> Named(catalog, e.id, e.packageName))
            && (forall p :: p in catalog ==> (InProfile(profile, p) <==> InProfile(s.profile, p)))
            && (forall p :: p in catalog ==>
                  (EnabledIn(profile, p) <==> EnabledIn(s.profile, p) || p in dependencies))
  {
    ReenableEffect(catalog, s, s.profile, dependencies);
    var profile := Reenable(s.profile, ReadProfile(s.profile), dependencies).value;
    forall e | e in profile
      ensures Named(catalog, e.id, e.packageName)
    {
      var i :| 0 <= i < |profile| && profile[i] == e;
      assert s.profile[i] in s.profile;
    }
    forall p | p in catalog
      ensures InProfile(profile, p) <==> InProfile(s.profile, p)
      ensures EnabledIn(profile, p) <==> EnabledIn(s.profile, p) || p in dependencies
    {
      ReenabledIn(catalog, s.profile, profile, dependencies, p);
    }
  }

  lemma ReenabledIn(catalog: seq<Plugin>, before: seq<ProfileEntry>, after: seq<ProfileEntry>,
                    dependencies: seq<Plugin>, p: Plugin)
    requires ConsistentEntries(catalog) && p in catalog && forall d :: d in dependencies ==> d in catalog
    requires SameEntries(after, before)
    requires forall d :: d in dependencies ==> InProfile(before, d)
    requires forall i :: 0 <= i < |after| ==>
               after[i].disabled == (before[i].disabled && !HasEntryId(dependencies, after[i].id))
    ensures InProfile(after, p) <==> InProfile(before, p)
    ensures EnabledIn(after, p) <==> EnabledIn(before, p) || p in dependencies
  {
    forall i | 0 <= i < |after| && after[i].id == EntryId(p)
      ensures HasEntryId(dependencies, after[i].id) <==> p in dependencies
    {
      if HasEntryId(dependencies, after[i].id) {
        var d :| d in dependencies && EntryId(d) == after[i].id;
        EntryIdInjective(p, d);
        SameIdSamePlugin(catalog, p, d);
      }
    }
    if InProfile(before, p) {
      var e :| e in before && e.id == EntryId(p);
      var i :| 0 <= i < |before| && before[i] == e;
      assert after[i] in after;
    }
    if EnabledIn(before, p) {
      var e :| e in before && e.id == EntryId(p) && !e.disabled;
      var i :| 0 <= i < |before| && before[i] == e;
      assert after[i] in after;
    }
    if p in dependencies {
      var e :| e in before && e.id == EntryId(p);
      var i :| 0 <= i < |before| && before[i] == e;
      assert after[i] in after;
    }
    if EnabledIn(after, p) {
      var e :| e in after && e.id == EntryId(p) && !e.disabled;
      var i :| 0 <= i < |after| && after[i] == e;
      assert before[i] in before;
    }
  }

  lemma WalkedIn(catalog: seq<Plugin>, before: seq<ProfileEntry>, after: seq<ProfileEntry>,
                 missing: set<string>, plan: seq<Plugin>, p: Plugin)
    requires ConsistentEntries(catalog) && p in catalog && forall q :: q in plan ==> q in catalog
    requires forall e :: e in before ==> e in after
    requires forall q :: q in plan && q.packageName in missing ==> NewEntry(q) in after
    requires forall e :: e in after ==>
               e in before || exists q :: q in plan && q.packageName in missing && e == NewEntry(q)
    ensures InProfile(after, p) <==> InProfile(before, p) || (p in plan && p.packageName in missing)
    ensures EnabledIn(after, p) <==> EnabledIn(before, p) || (p in plan && p.packageName in missing)
  {
    if p in plan && p.packageName in missing {
      assert NewEntry(p) in after && NewEntry(p).id == EntryId(p);
    }
    forall e | e in after && e.id == EntryId(p)
      ensures e in before || (p in plan && p.packageName in missing)
    {
      if e !in before {
        var q :| q in plan && q.packageName in missing && e == NewEntry(q);
        EntryIdInjective(p, q);
        SameIdSamePlugin(catalog, p, q);
      }
    }
  }

  /** A plan entry that an install neither adds nor switches on is enabled already. */
  lemma SettledIsEnabled(catalog: seq<Plugin>, s: State, plan: seq<Plugin>, q: Plugin)
    requires ValidCatalog(catalog) && WellFormed(catalog, s)
    requires plan != [] && q in plan && q in plan[..|plan| - 1] && q in catalog
    requires q !in MissingFrom(s, plan) && q !in DisabledAmong(s, plan[..|plan| - 1])
    ensures EnabledIn(s.profile, q)
  {
    EnabledMeans(catalog, s, q);
    var loaded := Loaded(s.loader, q.packageName);
    if loaded.Some? {
      assert loaded.value in s.loader && loaded.value.name == q.packageName;
      assert InProfile(s.profile, q);
    }
    var entry := Configured(ReadProfile(s.profile), q.packageName).value;
    assert entry in s.profile && entry.id == EntryId(q) && !entry.disabled;
  }

  lemma DependencyComesEarlier(plan: seq<Plugin>, p: Plugin, q: Plugin)
    requires DistinctIds(plan) && DependenciesFirst(plan)
    requires p in plan && q in plan && q.id in p.dependencies
    ensures q in plan[..|plan| - 1]
  {
    var i :| 0 <= i < |plan| && plan[i] == p;
    var j :| 0 <= j < |plan| && plan[j] == q;
    assert q.id in Ids(plan[..i]);
    var entry :| entry in plan[..i] && entry.id == q.id;
    var k :| 0 <= k < i && plan[k] == entry;
    assert j == k;
    assert plan[..|plan| - 1][j] == q;
  }

  /** Whatever loader the new profile is read with, an installed profile is closed. */
  lemma InstalledProfileClosed(catalog: seq<Plugin>, s: State, plugin: Plugin, s': State)
    requires ValidCatalog(catalog) && Safe(catalog, s) && plugin in catalog
    requires PlanOf(plugin, catalog).Success? && PlanOf(plugin, catalog).value != []
    requires var plan := PlanOf(plugin, catalog).value; InstalledProfile(s, plan) == Some(s'.profile)
    requires WellFormed(catalog, s')
    ensures DependencyClosed(catalog, s')
  {
    var plan := PlanOf(plugin, catalog).value;
    LoadedCatalogNeverThrows(catalog, plugin);
    assert forall p :: p in plan ==> p in catalog by {
      assert forall p :: p in plan ==> p in Elems(plan);
    }
    InstalledProfileEffect(catalog, s, plan);
    forall p, q | p in catalog && q in catalog && q.id in p.dependencies && Enabled(s', p)
      ensures Enabled(s', q)
    {
      EnabledMeans(catalog, s', p);
      EnabledMeans(catalog, s', q);
      EnabledMeans(catalog, s, p);
      EnabledMeans(catalog, s, q);
      if !EnabledIn(s.profile, p) {
        assert p in plan;
        assert q in plan;
        DependencyComesEarlier(plan, p, q);
        if q !in MissingFrom(s, plan) && q !in DisabledAmong(s, plan[..|plan| - 1]) {
          SettledIsEnabled(catalog, s, plan, q);
        }
      }
    }
  }

  lemma InsertedLoaderEntries(loader: seq<LoaderEntry>, i: nat, added: seq<LoaderEntry>, e: LoaderEntry)
    requires i <= |loader|
    ensures e in loader[..i] + added + loader[i..] <==> e in loader || e in added
  {
    assert loader == loader[..i] + loader[i..];
  }

  lemma CreatedEntriesUnique(catalog: seq<Plugin>, s: State, added: seq<Plugin>, i: nat)
    requires ConsistentEntries(catalog) && WellFormed(catalog, s) && i <= |s.loader|
    requires DistinctIds(added)
    requires forall p :: p in added ==> p in catalog && Loaded(s.loader, p.packageName).None?
    ensures UniqueLoaderIds(s.loader[..i] + NewLoaderEntries(added) + s.loader[i..])
  {
    var loader := s.loader;
    var news := NewLoaderEntries(added);
    forall j, k | 0 <= j < |loader| && 0 <= k < |news|
      ensures loader[j].id != news[k].id
    {
      assert loader[j] in loader && added[k] in added;
      assert Named(catalog, loader[j].id, loader[j].name);
    }
    forall j, k | 0 <= j < k < |news|
      ensures news[j].id != news[k].id
    {
      EntryIdInjective(added[j], added[k]);
    }
  }

  lemma {:induction false} FilterKeepsDistinct(s: State, plan: seq<Plugin>)
    requires DistinctIds(plan)
    ensures DistinctIds(MissingFrom(s, plan))
  {
    if plan != [] {
      var rest := plan[1..];
      FilterKeepsDistinct(s, rest);
      var kept := MissingFrom(s, rest);
      var all := MissingFrom(s, plan);
      assert all == kept || all == [plan[0]] + kept;
      forall i | 0 <= i < |kept|
        ensures kept[i].id != plan[0].id
      {
        assert kept[i] in kept && kept[i] in rest;
        var j :| 0 <= j < |rest| && rest[j] == kept[i];
        assert plan[j + 1] == rest[j];
      }
    }
  }

  /** A loader that grew by the missing plugins is named well against the profile that grew too. */
  lemma GrownLoaderNamed(catalog: seq<Plugin>, s: State, added: seq<Plugin>, profile: seq<ProfileEntry>, e: LoaderEntry)
    requires ConsistentEntries(catalog) && WellFormed(catalog, s)
    requires forall p :: p in added ==> p in catalog
    requires forall p :: p in catalog && (InProfile(s.profile, p) || p in added) ==> InProfile(profile, p)
    requires e in s.loader || e in NewLoaderEntries(added)
    ensures Named(catalog, e.id, e.name)
    ensures forall p :: p in catalog && e.name == p.packageName ==> InProfile(profile, p)
  {
    var news := NewLoaderEntries(added);
    if e in news {
      var k :| 0 <= k < |news| && news[k] == e;
      assert added[k] in added;
      NewEntryNamed(catalog, added[k]);
      forall p | p in catalog && e.name == p.packageName
        ensures InProfile(profile, p)
      {
        SameIdSamePlugin(catalog, p, added[k]);
      }
    }
  }

  lemma GrownStateWellFormed(catalog: seq<Plugin>, s: State, plan: seq<Plugin>, s': State)
    requires ValidCatalog(catalog) && WellFormed(catalog, s)
    requires plan != [] && DistinctIds(plan) && forall p :: p in plan ==> p in catalog
    requires InstalledProfile(s, plan) == Some(s'.profile)
    requires var i := RuntimePosition(s.loader);
             s'.loader == s.loader || s'.loader == s.loader[..i] + NewLoaderEntries(MissingFrom(s, plan)) + s.loader[i..]
    ensures WellFormed(catalog, s')
  {
    var added := MissingFrom(s, plan);
    var i := RuntimePosition(s.loader);
    InstalledProfileEffect(catalog, s, plan);
    FilterKeepsDistinct(s, plan);
    CreatedEntriesUnique(catalog, s, added, i);
    forall e | e in s'.loader
      ensures Named(catalog, e.id, e.name)
      ensures forall p :: p in catalog && e.name == p.packageName ==> InProfile(s'.profile, p)
    {
      InsertedLoaderEntries(s.loader, i, NewLoaderEntries(added), e);
      GrownLoaderNamed(catalog, s, added, s'.profile, e);
    }
  }

  /** What an install may change, if it changes anything. */
  lemma InstallShape(s: State, plan: seq<Plugin>, env: Environment)
    requires plan != [] && InstallPlanned(s, plan, env).0 != s
    ensures var s' := InstallPlanned(s, plan, env).0;
            var i := RuntimePosition(s.loader);
            && InstalledProfile(s, plan) == Some(s'.profile)
            && (s'.loader == s.loader || s'.loader == s.loader[..i] + NewLoaderEntries(MissingFrom(s, plan)) + s.loader[i..])
  {
  }

  /** An install, whatever the environment answers, leads from safe states to safe states. */
  lemma InstallKeepsSafe(catalog: seq<Plugin>, s: State, id: string, env: Environment)
    requires ValidCatalog(catalog) && Safe(catalog, s)
    ensures Safe(catalog, Install(catalog, s, id, env).0)
  {
    if Install(catalog, s, id, env).0 != s {
      var plugin := PluginById(catalog, id).value;
      LoadedCatalogNeverThrows(catalog, plugin);
      PlannedKeepsSafe(catalog, s, plugin, env);
    }
  }

  lemma PlannedKeepsSafe(catalog: seq<Plugin>, s: State, plugin: Plugin, env: Environment)
    requires ValidCatalog(catalog) && Safe(catalog, s) && plugin in catalog
    requires PlanOf(plugin, catalog).Success? && PlanOf(plugin, catalog).value != []
    requires InstallPlanned(s, PlanOf(plugin, catalog).value, env).0 != s
    ensures Safe(catalog, InstallPlanned(s, PlanOf(plugin, catalog).value, env).0)
  {
    var plan := PlanOf(plugin, catalog).value;
    LoadedCatalogNeverThrows(catalog, plugin);
    assert forall p :: p in plan ==> p in catalog by {
      assert forall p :: p in plan ==> p in Elems(plan);
    }
    InstallShape(s, plan, env);
    GrownStateWellFormed(catalog, s, plan, InstallPlanned(s, plan, env).0);
    InstalledProfileClosed(catalog, s, plugin, InstallPlanned(s, plan, env).0);
  }

  // ----- toggle and uninstall

  /** With no blocker, nothing that is enabled depends on the plugin. */
  lemma NoBlockers(catalog: seq<Plugin>, s: State, plugin: Plugin, p: Plugin)
    requires MayDrop(catalog, s, plugin) && p in catalog && plugin.id in p.dependencies
    ensures !Enabled(s, p)
  {
    var blockers := DependencyBlockers(catalog, plugin, EnabledPackages(s.loader, ReadProfile(s.profile)));
    assert p !in blockers;
  }

  /** A plugin may be enabled only when its whole plan, up to itself, is active. */
  lemma EnableIsCovered(catalog: seq<Plugin>, s: State, plugin: Plugin, q: Plugin)
    requires ValidCatalog(catalog) && WellFormed(catalog, s) && plugin in catalog && q in catalog
    requires MayEnable(catalog, s, plugin) && q.id in plugin.dependencies
    ensures EnabledIn(s.profile, q)
  {
    LoadedCatalogNeverThrows(catalog, plugin);
    var plan := PlanOf(plugin, catalog).value;
    assert Last(plan) in plan;
    DependencyComesEarlier(plan, plugin, q);
    var idle := Filter((d: Plugin) => d.packageName !in ActivePackages(s.loader, ReadProfile(s.profile)),
                       plan[..|plan| - 1]);
    assert q !in idle;
    EnabledMeans(catalog, s, q);
  }

  /** What the profile enables after one entry was switched, for every catalogue plugin. */
  lemma SwitchedIn(catalog: seq<Plugin>, profile: seq<ProfileEntry>, plugin: Plugin, disabled: bool, p: Plugin)
    requires ConsistentEntries(catalog) && p in catalog && plugin in catalog
    requires UniqueIds(profile) && HasId(profile, EntryId(plugin))
    ensures var r := SetDisabled(profile, EntryId(plugin), disabled);
            && (InProfile(r, p) <==> InProfile(profile, p))
            && (EnabledIn(r, p) <==> if p == plugin then !disabled else EnabledIn(profile, p))
  {
    var id := EntryId(plugin);
    var r := SetDisabled(profile, id, disabled);
    SetDisabledEntries(profile, id, disabled);
    EntryIdInjective(p, plugin);
    if p.id == plugin.id {
      SameIdSamePlugin(catalog, p, plugin);
    }
    var at := Position(profile, id);
    assert r == profile[at := profile[at].(disabled := disabled)];
    assert r[at] in r && profile[at] in profile;
    if p == plugin {
      assert forall k :: 0 <= k < |r| && r[k].id == id ==> k == at;
    } else {
      OthersUnchanged(profile, r, at, p);
    }
  }

  lemma OthersUnchanged(before: seq<ProfileEntry>, after: seq<ProfileEntry>, at: nat, p: Plugin)
    requires |after| == |before| && at < |before| && after[at].id == before[at].id != EntryId(p)
    requires forall k :: 0 <= k < |before| && k != at ==> after[k] == before[k]
    ensures InProfile(after, p) <==> InProfile(before, p)
    ensures EnabledIn(after, p) <==> EnabledIn(before, p)
  {
    forall e: ProfileEntry | e.id == EntryId(p)
      ensures e in after <==> e in before
    {
      if e in after {
        var k :| 0 <= k < |after| && after[k] == e;
        assert before[k] == e;
      }
      if e in before {
        var k :| 0 <= k < |before| && before[k] == e;
        assert after[k] == e;
      }
    }
  }

  /** What a toggle may change, if it changes anything. */
  lemma ToggleShape(catalog: seq<Plugin>, s: State, id: string, enabled: bool, env: Environment)
    requires Toggle(catalog, s, id, enabled, env).0 != s
    ensures var s' := Toggle(catalog, s, id, enabled, env).0;
            var i := LoaderPosition(s.loader, id);
            && i < |s.loader| && PluginByPackage(catalog, s.loader[i].name).Some?
            && |s'.loader| == |s.loader| && s'.loader == s.loader[i := s.loader[i].(disabled := s'.loader[i].disabled)]
            && HasId(s.profile, id)
            && (s'.profile == s.profile || s'.profile == SetDisabled(s.profile, id, !enabled))
            && var plugin := PluginByPackage(catalog, s.loader[i].name).value;
               if enabled then MayEnable(catalog, s, plugin) else MayDrop(catalog, s, plugin)
  {
  }

  lemma ToggleKeepsSafe(catalog: seq<Plugin>, s: State, id: string, enabled: bool, env: Environment)
    requires ValidCatalog(catalog) && Safe(catalog, s)
    ensures Safe(catalog, Toggle(catalog, s, id, enabled, env).0)
  {
    var s' := Toggle(catalog, s, id, enabled, env).0;
    if s' != s {
      ToggleShape(catalog, s, id, enabled, env);
      var i := LoaderPosition(s.loader, id);
      var plugin := PluginByPackage(catalog, s.loader[i].name).value;
      assert s.loader[i] in s.loader && Named(catalog, id, s.loader[i].name);
      ToggledIsSafe(catalog, s, plugin, i, enabled, s');
    }
  }

  lemma ToggledIsSafe(catalog: seq<Plugin>, s: State, plugin: Plugin, i: nat, enabled: bool, s': State)
    requires ValidCatalog(catalog) && Safe(catalog, s) && plugin in catalog && HasId(s.profile, EntryId(plugin))
    requires if enabled then MayEnable(catalog, s, plugin) else MayDrop(catalog, s, plugin)
    requires i < |s.loader| == |s'.loader| && s'.loader == s.loader[i := s.loader[i].(disabled := s'.loader[i].disabled)]
    requires s'.profile == s.profile || s'.profile == SetDisabled(s.profile, EntryId(plugin), !enabled)
    ensures Safe(catalog, s')
  {
    if s'.profile == s.profile {
      ToggledLoader(catalog, s, i, s'.loader[i].disabled, s');
      SameProfileSameClosure(catalog, s, s');
    } else {
      SwitchedProfileNamed(catalog, s, plugin, !enabled);
      ToggledLoader(catalog, s, i, s'.loader[i].disabled, s');
      SwitchKeepsClosure(catalog, s, plugin, enabled, s');
    }
  }

  lemma SwitchedProfileNamed(catalog: seq<Plugin>, s: State, plugin: Plugin, disabled: bool)
    requires ConsistentEntries(catalog) && WellFormed(catalog, s) && plugin in catalog
    requires HasId(s.profile, EntryId(plugin))
    ensures var r := SetDisabled(s.profile, EntryId(plugin), disabled);
            && UniqueIds(r) && (forall e :: e in r ==> Named(catalog, e.id, e.packageName))
            && (forall p :: p in catalog && InProfile(s.profile, p) ==> InProfile(r, p))
  {
    SetDisabledEntries(s.profile, EntryId(plugin), disabled);
    forall p | p in catalog && InProfile(s.profile, p)
      ensures InProfile(SetDisabled(s.profile, EntryId(plugin), disabled), p)
    {
      SwitchedIn(catalog, s.profile, plugin, disabled, p);
    }
  }

  /** Switching the profile entry of a plugin that may be switched keeps dependencies enabled. */
  lemma SwitchKeepsClosure(catalog: seq<Plugin>, s: State, plugin: Plugin, enabled: bool, s': State)
    requires ValidCatalog(catalog) && Safe(catalog, s) && plugin in catalog && WellFormed(catalog, s')
    requires HasId(s.profile, EntryId(plugin)) && s'.profile == SetDisabled(s.profile, EntryId(plugin), !enabled)
    requires if enabled then MayEnable(catalog, s, plugin) else MayDrop(catalog, s, plugin)
    ensures DependencyClosed(catalog, s')
  {
    forall p, q | p in catalog && q in catalog && q.id in p.dependencies && Enabled(s', p)
      ensures Enabled(s', q)
    {
      EnabledMeans(catalog, s', p);
      EnabledMeans(catalog, s', q);
      EnabledMeans(catalog, s, p);
      EnabledMeans(catalog, s, q);
      SwitchedIn(catalog, s.profile, plugin, !enabled, p);
      SwitchedIn(catalog, s.profile, plugin, !enabled, q);
      if enabled && p == plugin {
        EnableIsCovered(catalog, s, plugin, q);
      } else if !enabled && q == plugin {
        NoBlockers(catalog, s, plugin, p);
      }
    }
  }

  /** The loader changed at most the flag of one entry, and the profile lost no id. */
  lemma ToggledLoader(catalog: seq<Plugin>, s: State, i: nat, flag: bool, s': State)
    requires WellFormed(catalog, s) && i < |s.loader| && UniqueIds(s'.profile)
    requires forall e :: e in s'.profile ==> Named(catalog, e.id, e.packageName)
    requires forall p :: p in catalog && InProfile(s.profile, p) ==> InProfile(s'.profile, p)
    requires s'.loader == s.loader[i := s.loader[i].(disabled := flag)]
    ensures WellFormed(catalog, s')
  {
    forall e | e in s'.loader
      ensures exists f :: f in s.loader && f.id == e.id && f.name == e.name
    {
      var k :| 0 <= k < |s'.loader| && s'.loader[k] == e;
      assert s.loader[k] in s.loader;
    }
  }

  lemma RemovedIn(catalog: seq<Plugin>, profile: seq<ProfileEntry>, plugin: Plugin, p: Plugin)
    requires ConsistentEntries(catalog) && p in catalog && plugin in catalog
    requires UniqueIds(profile) && HasId(profile, EntryId(plugin))
    ensures var r := RemoveEntry(profile, EntryId(plugin));
            && (InProfile(r, p) <==> p != plugin && InProfile(profile, p))
            && (EnabledIn(r, p) <==> p != plugin && EnabledIn(profile, p))
  {
    RemoveEntryEntries(profile, EntryId(plugin));
    EntryIdInjective(p, plugin);
    if p.id == plugin.id {
      SameIdSamePlugin(catalog, p, plugin);
    }
  }

  /** Removing an unblocked plugin from both states, or only from the profile when it is not loaded. */
  lemma DropKeepsSafe(catalog: seq<Plugin>, s: State, plugin: Plugin, s': State)
    requires ValidCatalog(catalog) && Safe(catalog, s) && plugin in catalog
    requires MayDrop(catalog, s, plugin) && HasId(s.profile, EntryId(plugin))
    requires s'.profile == RemoveEntry(s.profile, EntryId(plugin))
    requires UniqueLoaderIds(s'.loader) && forall e :: e in s'.loader ==> e in s.loader && e.id != EntryId(plugin)
    ensures Safe(catalog, s')
  {
    RemoveEntryEntries(s.profile, EntryId(plugin));
    forall p | p in catalog
      ensures InProfile(s'.profile, p) <==> p != plugin && InProfile(s.profile, p)
      ensures EnabledIn(s'.profile, p) <==> p != plugin && EnabledIn(s.profile, p)
    {
      RemovedIn(catalog, s.profile, plugin, p);
    }
    forall e, p | e in s'.loader && p in catalog && e.name == p.packageName
      ensures InProfile(s'.profile, p)
    {
      assert Named(catalog, e.id, e.name);
      EntryIdInjective(p, plugin);
    }
    forall p, q | p in catalog && q in catalog && q.id in p.dependencies && Enabled(s', p)
      ensures Enabled(s', q)
    {
      EnabledMeans(catalog, s', p);
      EnabledMeans(catalog, s', q);
      EnabledMeans(catalog, s, p);
      EnabledMeans(catalog, s, q);
      if q == plugin {
        NoBlockers(catalog, s, plugin, p);
      }
    }
  }

  lemma UninstallKeepsSafe(catalog: seq<Plugin>, s: State, id: string, env: Environment)
    requires ValidCatalog(catalog) && Safe(catalog, s)
    ensures Safe(catalog, Uninstall(catalog, s, id, env).0)
  {
    var (s', reply) := Uninstall(catalog, s, id, env);
    var i := LoaderPosition(s.loader, id);
    if s' == s {
    } else if reply.RolledBack? {
      ToggledLoader(catalog, s, i, false, s');
      SameProfileSameClosure(catalog, s, s');
    } else if i == |s.loader| {
      var pending := Find((entry: ProfileEntry) => entry.id == id, ReadProfile(s.profile)).value;
      var plugin := PluginByPackage(catalog, pending.packageName).value;
      assert pending in s.profile && id == EntryId(plugin);
      DropKeepsSafe(catalog, s, plugin, s');
    } else {
      var plugin := PluginByPackage(catalog, s.loader[i].name).value;
      assert s.loader[i] in s.loader && id == EntryId(plugin);
      RemovedLoaderEntries(s.loader, i);
      DropKeepsSafe(catalog, s, plugin, s');
    }
  }

  lemma RemovedLoaderEntries(loader: seq<LoaderEntry>, i: nat)
    requires UniqueLoaderIds(loader) && i < |loader|
    ensures UniqueLoaderIds(loader[..i] + loader[i + 1..])
    ensures forall e :: e in loader[..i] + loader[i + 1..] ==> e in loader && e.id != loader[i].id
  {
    var r := loader[..i] + loader[i + 1..];
    forall e | e in r
      ensures e in loader && e.id != loader[i].id
    {
      var k :| 0 <= k < |r| && r[k] == e;
      assert r[k] == loader[if k < i then k else k + 1];
    }
  }

  /** Closure is a matter of the profile alone, as long as the loader is named well against it. */
  lemma SameProfileSameClosure(catalog: seq<Plugin>, s: State, s': State)
    requires ValidCatalog(catalog) && Safe(catalog, s) && WellFormed(catalog, s') && s'.profile == s.profile
    ensures Safe(catalog, s')
  {
    forall p, q | p in catalog && q in catalog && q.id in p.dependencies && Enabled(s', p)
      ensures Enabled(s', q)
    {
      EnabledMeans(catalog, s', p);
      EnabledMeans(catalog, s', q);
      EnabledMeans(catalog, s, p);
      EnabledMeans(catalog, s, q);
    }
  }

  lemma RestartKeepsSafe(catalog: seq<Plugin>, s: State)
    requires ValidCatalog(catalog) && Safe(catalog, s)
    ensures Safe(catalog, Restart(s))
  {
    var s' := Restart(s);
    forall e, p | e in s'.loader && p in catalog && e.name == p.packageName
      ensures InProfile(s'.profile, p)
    {
      var k :| 0 <= k < |s'.loader| && s'.loader[k] == e;
      assert s.profile[k] in s.profile;
    }
    forall e | e in s'.loader
      ensures Named(catalog, e.id, e.name)
    {
      var k :| 0 <= k < |s'.loader| && s'.loader[k] == e;
      assert s.profile[k] in s.profile;
    }
    SameProfileSameClosure(catalog, s, s');
  }

  // ----- all requests

  lemma HandleKeepsSafe(catalog: seq<Plugin>, s: State, request: Request, env: Environment)
    requires ValidCatalog(catalog) && Safe(catalog, s)
    ensures Safe(catalog, Handle(catalog, s, request, env).0)
  {
    match request {
      case InstallRequest(id) => InstallKeepsSafe(catalog, s, id, env);
      case ToggleRequest(id, enabled) => ToggleKeepsSafe(catalog, s, id, enabled, env);
      case UninstallRequest(id) => UninstallKeepsSafe(catalog, s, id, env);
    }
  }

  /** Closed under direct dependencies means closed under all of them. */
  lemma ClosedTransitively(catalog: seq<Plugin>, s: State, p: Plugin, id: string)
    requires ValidCatalog(catalog) && DependencyClosed(catalog, s)
    requires p in catalog && Enabled(s, p) && Reaches(Graph(p, catalog), p.id, id)
    ensures exists q :: q in catalog && q.id == id && Enabled(s, q)
  {
    LoadedCatalogNeverThrows(catalog, p);
    var plan := PlanOf(p, catalog).value;
    var g := Graph(p, catalog);
    var enabled := set q | q in plan && Enabled(s, q) :: q.id;
    PlanIsClosed(g, plan);
    forall a, b | a in enabled && Edge(g, a, b)
      ensures b in enabled
    {
      var x :| x in plan && Enabled(s, x) && x.id == a;
      var i :| 0 <= i < |plan| && plan[i] == x;
      assert x in Elems(plan) && x in catalog;
      assert b in Ids(plan);
      var y :| y in plan && y.id == b;
      assert y in Elems(plan) && y in catalog;
    }
    assert Last(plan) == p && p in plan;
    var path :| Connects(g, path, p.id, id);
    ClosedSetContainsReachable(g, enabled, path);
    var q :| q in plan && Enabled(s, q) && q.id == id;
    assert q in Elems(plan);
  }

  // ----- what the replies promise

  /** The profile an accepted install leaves: the one the walk writes, or an unchanged one that
      needed nothing. */
  lemma AcceptedInstallProfile(catalog: seq<Plugin>, s: State, plugin: Plugin, env: Environment)
    requires ValidCatalog(catalog) && plugin in catalog
    requires Install(catalog, s, plugin.id, env).1.Applied?
    ensures PlanOf(plugin, catalog).Success? && PlanOf(plugin, catalog).value != []
    ensures var plan := PlanOf(plugin, catalog).value;
            var s' := Install(catalog, s, plugin.id, env).0;
            if MissingFrom(s, plan) == [] && DisabledAmong(s, plan[..|plan| - 1]) == [] then s' == s
            else InstalledProfile(s, plan) == Some(s'.profile)
  {
    var found := PluginById(catalog, plugin.id).value;
    SameIdSamePlugin(catalog, plugin, found);
    LoadedCatalogNeverThrows(catalog, plugin);
  }

  /** After an accepted install, the whole plan has profile entries, every dependency is enabled,
      and the target is too unless it was installed and switched off before. */
  lemma InstallDelivers(catalog: seq<Plugin>, s: State, plugin: Plugin, env: Environment, q: Plugin)
    requires ValidCatalog(catalog) && Safe(catalog, s) && plugin in catalog
    requires Install(catalog, s, plugin.id, env).1.Applied?
    requires PlanOf(plugin, catalog).Success? && q in PlanOf(plugin, catalog).value
    ensures var s' := Install(catalog, s, plugin.id, env).0;
            && q in catalog && InProfile(s'.profile, q)
            && (Enabled(s', q) || (q == plugin && InProfile(s.profile, q) && !Enabled(s, q)))
  {
    AcceptedInstallProfile(catalog, s, plugin, env);
    LoadedCatalogNeverThrows(catalog, plugin);
    var s' := Install(catalog, s, plugin.id, env).0;
    var plan := PlanOf(plugin, catalog).value;
    assert forall p :: p in plan ==> p in catalog by {
      assert forall p :: p in plan ==> p in Elems(plan);
    }
    PlanEntryDelivered(catalog, s, plan, s'.profile, q);
    InstallKeepsSafe(catalog, s, plugin.id, env);
    EnabledMeans(catalog, s, q);
    EnabledMeans(catalog, s', q);
  }

  lemma PlanEntryDelivered(catalog: seq<Plugin>, s: State, plan: seq<Plugin>, profile: seq<ProfileEntry>, q: Plugin)
    requires ValidCatalog(catalog) && WellFormed(catalog, s)
    requires plan != [] && DistinctIds(plan) && forall p :: p in plan ==> p in catalog
    requires if MissingFrom(s, plan) == [] && DisabledAmong(s, plan[..|plan| - 1]) == [] then profile == s.profile
             else InstalledProfile(s, plan) == Some(profile)
    requires q in plan
    ensures InProfile(profile, q)
    ensures EnabledIn(profile, q) || (q == Last(plan) && InProfile(s.profile, q) && !EnabledIn(s.profile, q))
  {
    var dependencies := plan[..|plan| - 1];
    var added := MissingFrom(s, plan);
    if added == [] && DisabledAmong(s, dependencies) == [] {
      assert q !in added;
    } else {
      InstalledProfileEffect(catalog, s, plan);
    }
    if q !in added {
      NotMissingInProfile(catalog, s, plan, q);
      if q in dependencies {
        if q !in DisabledAmong(s, dependencies) {
          SettledIsEnabled(catalog, s, plan, q);
        }
      } else {
        LastOrDependency(plan, q);
      }
    }
  }

  lemma LastOrDependency(plan: seq<Plugin>, q: Plugin)
    requires plan != [] && q in plan && q !in plan[..|plan| - 1]
    ensures q == Last(plan)
  {
    assert plan == plan[..|plan| - 1] + [Last(plan)];
  }

  lemma NotMissingInProfile(catalog: seq<Plugin>, s: State, plan: seq<Plugin>, q: Plugin)
    requires ValidCatalog(catalog) && WellFormed(catalog, s) && q in catalog
    requires q in plan && q !in MissingFrom(s, plan)
    ensures InProfile(s.profile, q)
  {
    EnabledMeans(catalog, s, q);
    var loaded := Loaded(s.loader, q.packageName);
    if loaded.Some? {
      assert loaded.value in s.loader && loaded.value.name == q.packageName;
    }
  }

  lemma FailedInstallKeeps(catalog: seq<Plugin>, s: State, id: string, env: Environment)
    requires !Install(catalog, s, id, env).1.Applied?
    ensures Install(catalog, s, id, env).0 == s
  {
  }

  lemma FailedToggleKeeps(catalog: seq<Plugin>, s: State, id: string, enabled: bool, env: Environment)
    requires !Toggle(catalog, s, id, enabled, env).1.Applied?
    ensures var (s', reply) := Toggle(catalog, s, id, enabled, env);
            var i := LoaderPosition(s.loader, id);
            && (reply.RolledBack? ==> i < |s.loader| && env.update.UpdateFailed?)
            && s' == if reply.RolledBack?
                     then State(s.loader[i := s.loader[i].(disabled := env.update.disabled)], s.profile) else s
  {
  }

  lemma FailedUninstallKeeps(catalog: seq<Plugin>, s: State, id: string, env: Environment)
    requires !Uninstall(catalog, s, id, env).1.Applied?
    ensures var (s', reply) := Uninstall(catalog, s, id, env);
            var i := LoaderPosition(s.loader, id);
            s' == if reply.RolledBack? && i < |s.loader|
                  then State(s.loader[i := s.loader[i].(disabled := false)], s.profile) else s
  {
  }

  /** A failed request left a loader entry with another flag: an uninstall that brought a switched-off
      entry back, or a toggle whose rejected update took effect all the same. */
  predicate LeavesOtherFlag(s: State, request: Request, env: Environment, reply: Reply) {
    && reply.RolledBack? && !request.InstallRequest?
    && LoaderPosition(s.loader, request.id) < |s.loader|
    && var flag := s.loader[LoaderPosition(s.loader, request.id)].disabled;
       if request.UninstallRequest? then flag else env.update.UpdateFailed? && env.update.disabled != flag
  }

  /** A request that fails leaves the profile as it was, and the loader too exactly unless it left an
      entry with another flag. */
  lemma RollbackRestores(catalog: seq<Plugin>, s: State, request: Request, env: Environment)
    requires !Handle(catalog, s, request, env).1.Applied?
    ensures var (s', reply) := Handle(catalog, s, request, env);
            s'.profile == s.profile && (s'.loader == s.loader <==> !LeavesOtherFlag(s, request, env, reply))
  {
    match request {
      case InstallRequest(id) => FailedInstallKeeps(catalog, s, id, env);
      case ToggleRequest(id, enabled) =>
        FailedToggleKeeps(catalog, s, id, enabled, env);
        FlagOnly(s.loader, LoaderPosition(s.loader, id));
      case UninstallRequest(id) =>
        FailedUninstallKeeps(catalog, s, id, env);
        FlagOnly(s.loader, LoaderPosition(s.loader, id));
    }
  }

  lemma FlagOnly(loader: seq<LoaderEntry>, i: nat)
    ensures i < |loader| ==>
      forall flag :: loader[i := loader[i].(disabled := flag)] == loader <==> flag == loader[i].disabled
  {
    if i < |loader| {
      forall flag
        ensures loader[i := loader[i].(disabled := flag)] == loader <==> flag == loader[i].disabled
      {
        assert loader[i := loader[i].(disabled := flag)][i].disabled == flag;
      }
    }
  }

  /** Enabled, without assuming that the loader agrees with the profile. */
  lemma EnabledMeansLoosely(catalog: seq<Plugin>, s: State, p: Plugin)
    requires UniqueIds(s.profile) && (forall e :: e in s.profile ==> Named(catalog, e.id, e.packageName))
    requires p in catalog && p.id != ""
    ensures Enabled(s, p) <==>
            || EnabledIn(s.profile, p)
            || (!InProfile(s.profile, p) && exists e :: e in s.loader && e.name == p.packageName && !e.disabled)
  {
    var entries := ReadProfile(s.profile);
    assert MARKETPLACE_PREFIX < EntryId(p);
    assert forall e :: e in s.profile && e.packageName == p.packageName ==> e.id == EntryId(p);
    if InProfile(s.profile, p) {
      var e :| e in s.profile && e.id == EntryId(p);
      assert e in entries && e.packageName == p.packageName;
    }
    if EnabledIn(s.profile, p) {
      var e :| e in s.profile && e.id == EntryId(p) && !e.disabled;
      assert e in entries && e.packageName == p.packageName;
    }
  }

  lemma NoSelfDependency(catalog: seq<Plugin>, plugin: Plugin, q: Plugin)
    requires ValidCatalog(catalog) && plugin in catalog && q in catalog && q.id in plugin.dependencies
    ensures q != plugin
  {
    LoadedCatalogNeverThrows(catalog, plugin);
    var plan := PlanOf(plugin, catalog).value;
    assert Last(plan) in plan && q in plan;
    DependencyComesEarlier(plan, plugin, q);
    var k :| 0 <= k < |plan| - 1 && plan[k] == q;
    assert plan[k].id != plan[|plan| - 1].id;
  }

  /** The write that should restore the profile after a failed uninstall is best effort. When it
      fails and the loader entry comes back, closure survives exactly if the dependencies of the
      plugin are enabled, which nothing has checked for a plugin that was switched off. */
  lemma LostRestoreWrite(catalog: seq<Plugin>, s: State, plugin: Plugin, i: nat)
    requires ValidCatalog(catalog) && Safe(catalog, s) && plugin in catalog
    requires MayDrop(catalog, s, plugin) && i < |s.loader|
    requires s.loader[i].id == EntryId(plugin) && HasId(s.profile, EntryId(plugin))
    ensures var s' := State(s.loader[i := s.loader[i].(disabled := false)], RemoveEntry(s.profile, EntryId(plugin)));
            DependencyClosed(catalog, s') <==>
            forall q :: q in catalog && q.id in plugin.dependencies ==> Enabled(s, q)
  {
    var s' := State(s.loader[i := s.loader[i].(disabled := false)], RemoveEntry(s.profile, EntryId(plugin)));
    RemoveEntryEntries(s.profile, EntryId(plugin));
    assert s.loader[i] in s.loader;
    assert s'.loader[i].name == plugin.packageName && s'.loader[i] in s'.loader;
    forall p | p in catalog
      ensures Enabled(s', p) <==> p == plugin || Enabled(s, p)
    {
      EnabledMeans(catalog, s, p);
      EnabledMeansLoosely(catalog, s', p);
      RemovedIn(catalog, s.profile, plugin, p);
    }
    forall q | q in catalog && q.id in plugin.dependencies
      ensures q != plugin
    {
      NoSelfDependency(catalog, plugin, q);
    }
    forall p | p in catalog && plugin.id in p.dependencies
      ensures !Enabled(s, p)
    {
      NoBlockers(catalog, s, plugin, p);
    }
  }
}
