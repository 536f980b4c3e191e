/** Where the install walk puts things. The runtime reads the tool registry when it starts, so
    every plan entry has to stand in front of it, dependencies first. */
module MarketplaceOrder {
  import opened Wrappers
  import opened InstallPlan
  import opened Marketplace
  import opened MarketplaceSafety

  ghost predicate Increasing(positions: seq<int>) {
    forall i, j :: 0 <= i < j < |positions| ==> positions[i] < positions[j]
  }

  function Positions(profile: seq<ProfileEntry>, ids: seq<string>): (r: seq<int>)
    ensures |r| == |ids| && forall i :: 0 <= i < |r| ==> r[i] == Position(profile, ids[i])
  {
    seq(|ids|, i requires 0 <= i < |ids| => Position(profile, ids[i]))
  }

  /** The profile holds these ids, in this order. */
  ghost predicate InOrder(profile: seq<ProfileEntry>, ids: seq<string>) {
    HasAll(profile, ids) && Increasing(Positions(profile, ids))
  }

  ghost predicate HasAll(profile: seq<ProfileEntry>, ids: seq<string>) {
    forall id :: id in ids ==> HasId(profile, id)
  }

  lemma HasAllConcat(profile: seq<ProfileEntry>, a: seq<string>, b: seq<string>)
    ensures HasAll(profile, a + b) <==> HasAll(profile, a) && HasAll(profile, b)
  {
    assert forall id :: id in a + b <==> id in a || id in b;
  }

  /** Insertion in front of the first of `tail`. */
  function InsertAt(profile: seq<ProfileEntry>, entry: ProfileEntry, anchor: string): seq<ProfileEntry> {
    var i := Position(profile, anchor);
    profile[..i] + [entry] + profile[i..]
  }

  /** The ids of the plan entries that were configured before the install, in plan order. */
  function PresentIds(entries: seq<ProfileEntry>, plan: seq<Plugin>): seq<string> {
    if plan == [] then []
    else
      var entry := Configured(entries, Last(plan).packageName);
      PresentIds(entries, plan[..|plan| - 1]) + if entry.Some? then [entry.value.id] else []
  }

  /** The ids of the plan entries after the walk, in plan order. */
  function PlanIds(entries: seq<ProfileEntry>, missing: set<string>, plan: seq<Plugin>): seq<string> {
    if plan == [] then []
    else
      var entry := Configured(entries, Last(plan).packageName);
      PlanIds(entries, missing, plan[..|plan| - 1]) +
      if entry.Some? then [entry.value.id]
      else if Last(plan).packageName in missing then [EntryId(Last(plan))]
      else []
  }

  lemma PositionIsUnique(profile: seq<ProfileEntry>, i: nat)
    requires UniqueIds(profile) && i < |profile|
    ensures Position(profile, profile[i].id) == i
  {
  }

  /** Putting an entry in front of an anchor moves the anchor and what follows by one. */
  lemma InsertShifts(profile: seq<ProfileEntry>, entry: ProfileEntry, anchor: string, id: string)
    requires UniqueIds(profile) && !HasId(profile, entry.id)
    requires HasId(profile, anchor) && HasId(profile, id)
    ensures var i := Position(profile, anchor);
            var r := profile[..i] + [entry] + profile[i..];
            && UniqueIds(r) && HasId(r, id) && HasId(r, entry.id)
            && Position(r, entry.id) == i
            && Position(r, id) == Position(profile, id) + if Position(profile, id) >= i then 1 else 0
  {
    var i := Position(profile, anchor);
    var r := profile[..i] + [entry] + profile[i..];
    assert r[i] == entry;
    PositionIsUnique(r, i);
    var k := Position(profile, id);
    var k' := if k >= i then k + 1 else k;
    assert r[k'] == profile[k];
    PositionIsUnique(r, k');
  }

  /** Positions of the old ids after an insertion at position `at`. */
  function Shifted(positions: seq<int>, at: int): seq<int> {
    seq(|positions|, i requires 0 <= i < |positions| =>
      if positions[i] >= at then positions[i] + 1 else positions[i])
  }

  lemma IncreasingConcat(front: seq<int>, tail: seq<int>)
    requires tail != []
    ensures Increasing(front + tail) <==>
            Increasing(front) && Increasing(tail) && (front != [] ==> Last(front) < tail[0])
  {
    var all := front + tail;
    var n := |front|;
    if Increasing(all) {
      assert forall j :: 0 <= j < |tail| ==> tail[j] == all[n + j];
      assert forall i :: 0 <= i < n ==> front[i] == all[i];
    }
    if Increasing(front) && Increasing(tail) && (front != [] ==> Last(front) < tail[0]) {
      forall i, j | 0 <= i < j < |all|
        ensures all[i] < all[j]
      {
        if i < n <= j {
          assert front[i] <= Last(front) < tail[0] <= tail[j - n];
        }
      }
    }
  }

  lemma ShiftedIncreasing(positions: seq<int>, at: int)
    ensures Increasing(Shifted(positions, at)) <==> Increasing(positions)
  {
    var shifted := Shifted(positions, at);
    forall i, j | 0 <= i < j < |positions|
      ensures shifted[i] < shifted[j] <==> positions[i] < positions[j]
    {
    }
  }

  lemma ShiftKeepsIncreasing(front: seq<int>, tail: seq<int>)
    requires tail != []
    ensures Increasing(Shifted(front, tail[0]) + ([tail[0]] + Shifted(tail, tail[0]))) <==> Increasing(front + tail)
  {
    var at := tail[0];
    ShiftedIncreasing(front, at);
    ShiftedIncreasing(tail, at);
    IncreasingConcat(front, tail);
    IncreasingConcat(Shifted(front, at), [at] + Shifted(tail, at));
    IncreasingConcat([at], Shifted(tail, at));
  }

  lemma PositionsAfterInsert(profile: seq<ProfileEntry>, entry: ProfileEntry, anchor: string, ids: seq<string>)
    requires UniqueIds(profile) && !HasId(profile, entry.id) && HasId(profile, anchor) && HasAll(profile, ids)
    ensures var r := InsertAt(profile, entry, anchor);
            HasAll(r, ids) && Positions(r, ids) == Shifted(Positions(profile, ids), Position(profile, anchor))
  {
    var i := Position(profile, anchor);
    var r := InsertAt(profile, entry, anchor);
    forall id | id in ids
      ensures HasId(r, id)
      ensures Position(r, id) == Position(profile, id) + if Position(profile, id) >= i then 1 else 0
    {
      InsertShifts(profile, entry, anchor, id);
    }
  }

  lemma PositionsConcat(profile: seq<ProfileEntry>, a: seq<string>, b: seq<string>)
    ensures Positions(profile, a + b) == Positions(profile, a) + Positions(profile, b)
  {
  }

  /** With the new id put in front of the anchor, the longer chain is in order exactly if the
      shorter one was. */
  lemma InsertKeepsOrder(profile: seq<ProfileEntry>, entry: ProfileEntry, front: seq<string>, tail: seq<string>)
    requires UniqueIds(profile) && !HasId(profile, entry.id) && tail != [] && HasAll(profile, front + tail)
    ensures var r := InsertAt(profile, entry, tail[0]);
            && HasAll(r, front + ([entry.id] + tail))
            && (InOrder(r, front + ([entry.id] + tail)) <==> InOrder(profile, front + tail))
  {
    HasAllConcat(profile, front, tail);
    assert tail[0] in tail;
    var i := Position(profile, tail[0]);
    var r := InsertAt(profile, entry, tail[0]);
    InsertShifts(profile, entry, tail[0], tail[0]);
    PositionsAfterInsert(profile, entry, tail[0], front);
    PositionsAfterInsert(profile, entry, tail[0], tail);
    HasAllConcat(r, [entry.id], tail);
    HasAllConcat(r, front, [entry.id] + tail);
    PositionsConcat(profile, front, tail);
    PositionsConcat(r, [entry.id], tail);
    PositionsConcat(r, front, [entry.id] + tail);
    assert Positions(r, [entry.id]) == [i];
    ShiftKeepsIncreasing(Positions(profile, front), Positions(profile, tail));
  }

  /** The walk leaves the plan in order in front of `tail` exactly if the configured part was. */
  lemma {:induction false} WalkKeepsOrder(catalog: seq<Plugin>, entries: seq<ProfileEntry>, missing: set<string>,
                                          profile: seq<ProfileEntry>, plan: seq<Plugin>, tail: seq<string>)
    requires UniqueIds(profile) && (forall e :: e in profile ==> Named(catalog, e.id, e.packageName))
    requires ConsistentEntries(catalog) && DistinctIds(plan) && forall p :: p in plan ==> p in catalog
    requires forall p :: p in plan && p.packageName in missing ==>
               Configured(entries, p.packageName).None? && !InProfile(profile, p)
    requires tail != [] && HasAll(profile, PresentIds(entries, plan) + tail)
    ensures InOrder(Walk(profile, entries, missing, plan, Some(tail[0])), PlanIds(entries, missing, plan) + tail)
            <==> InOrder(profile, PresentIds(entries, plan) + tail)
    decreases |plan|
  {
    if plan == [] {
    } else {
      var p := Last(plan);
      var rest := plan[..|plan| - 1];
      assert plan == rest + [p];
      assert p in plan;
      var front := PresentIds(entries, rest);
      match Configured(entries, p.packageName) {
        case Some(entry) =>
          assert PresentIds(entries, plan) + tail == front + ([entry.id] + tail);
          assert PlanIds(entries, missing, plan) + tail == PlanIds(entries, missing, rest) + ([entry.id] + tail);
          WalkKeepsOrder(catalog, entries, missing, profile, rest, [entry.id] + tail);
        case None =>
          assert PresentIds(entries, plan) == front;
          if p.packageName in missing {
            StepIntoMissing(catalog, entries, missing, profile, plan, tail);
            var next := AppendEntry(profile, p, Some(tail[0]));
            assert PlanIds(entries, missing, plan) + tail == PlanIds(entries, missing, rest) + ([EntryId(p)] + tail);
            WalkKeepsOrder(catalog, entries, missing, next, rest, [EntryId(p)] + tail);
          } else {
            assert PlanIds(entries, missing, plan) == PlanIds(entries, missing, rest);
            WalkKeepsOrder(catalog, entries, missing, profile, rest, tail);
          }
      }
    }
  }

  /** One missing entry: the premises of the walk carry over to the grown profile. */
  lemma StepIntoMissing(catalog: seq<Plugin>, entries: seq<ProfileEntry>, missing: set<string>,
                        profile: seq<ProfileEntry>, plan: seq<Plugin>, tail: seq<string>)
    requires UniqueIds(profile) && (forall e :: e in profile ==> Named(catalog, e.id, e.packageName))
    requires ConsistentEntries(catalog) && DistinctIds(plan) && forall p :: p in plan ==> p in catalog
    requires forall p :: p in plan && p.packageName in missing ==>
               Configured(entries, p.packageName).None? && !InProfile(profile, p)
    requires plan != [] && Last(plan).packageName in missing
    requires tail != [] && HasAll(profile, PresentIds(entries, plan) + tail)
    ensures var p := Last(plan);
            var rest := plan[..|plan| - 1];
            var next := AppendEntry(profile, p, Some(tail[0]));
            && UniqueIds(next)
            && (forall e :: e in next ==> e in profile || e == NewEntry(p))
            && (forall q :: q in rest && q.packageName in missing ==> !InProfile(next, q))
            && HasAll(next, PresentIds(entries, rest) + ([EntryId(p)] + tail))
            && (InOrder(next, PresentIds(entries, rest) + ([EntryId(p)] + tail)) <==>
                InOrder(profile, PresentIds(entries, rest) + tail))
            && (forall e :: e in next ==> Named(catalog, e.id, e.packageName))
  {
    var p := Last(plan);
    var rest := plan[..|plan| - 1];
    var front := PresentIds(entries, rest);
    assert p in plan && PresentIds(entries, plan) == front;
    assert forall e :: e in profile ==> e.packageName != p.packageName && e.id != EntryId(p);
    AppendEntryEntries(profile, p, Some(tail[0]));
    var next := AppendEntry(profile, p, Some(tail[0]));
    assert tail[0] in front + tail;
    assert !HasId(profile, EntryId(p));
    NewEntryNamed(catalog, p);
    var i := Position(profile, tail[0]);
    assert next == InsertAt(profile, NewEntry(p), tail[0]);
    InsertKeepsOrder(profile, NewEntry(p), front, tail);
    forall q | q in rest && q.packageName in missing
      ensures !InProfile(next, q)
    {
      var k :| 0 <= k < |rest| && rest[k] == q;
      assert plan[k].id != plan[|plan| - 1].id;
      EntryIdInjective(p, q);
    }
  }

  /** The flags do not matter for positions. */
  lemma {:induction false} SameEntriesSamePosition(a: seq<ProfileEntry>, b: seq<ProfileEntry>, id: string)
    requires SameEntries(a, b)
    ensures Position(a, id) == Position(b, id)
  {
    if a != [] && a[0].id != id {
      SameEntriesSamePosition(a[1..], b[1..], id);
    }
  }

  lemma SameEntriesInOrder(a: seq<ProfileEntry>, b: seq<ProfileEntry>, ids: seq<string>)
    requires SameEntries(a, b)
    ensures InOrder(a, ids) <==> InOrder(b, ids)
  {
    forall id | id in ids
      ensures Position(a, id) == Position(b, id)
    {
      SameEntriesSamePosition(a, b, id);
    }
    assert Positions(a, ids) == Positions(b, ids);
  }

  function EntryIds(plan: seq<Plugin>): seq<string> {
    seq(|plan|, i requires 0 <= i < |plan| => EntryId(plan[i]))
  }

  /** On well-formed states every plan entry ends up in the profile under its own id. */
  lemma {:induction false} WholePlanPlaced(catalog: seq<Plugin>, s: State, missing: set<string>, plan: seq<Plugin>)
    requires ValidCatalog(catalog) && WellFormed(catalog, s) && forall p :: p in plan ==> p in catalog
    requires forall p :: p in plan && !InProfile(s.profile, p) ==> p.packageName in missing
    ensures PlanIds(ReadProfile(s.profile), missing, plan) == EntryIds(plan)
  {
    if plan != [] {
      var rest := plan[..|plan| - 1];
      assert plan == rest + [Last(plan)];
      EnabledMeans(catalog, s, Last(plan));
      WholePlanPlaced(catalog, s, missing, rest);
      assert EntryIds(plan) == EntryIds(rest) + [EntryId(Last(plan))];
    }
  }

  lemma {:induction false} PresentIdsInProfile(catalog: seq<Plugin>, s: State, plan: seq<Plugin>, id: string)
    requires ValidCatalog(catalog) && WellFormed(catalog, s) && forall p :: p in plan ==> p in catalog
    requires id in PresentIds(ReadProfile(s.profile), plan)
    ensures HasId(s.profile, id)
  {
    var rest := plan[..|plan| - 1];
    assert plan == rest + [Last(plan)];
    if id in PresentIds(ReadProfile(s.profile), rest) {
      PresentIdsInProfile(catalog, s, rest, id);
    } else {
      var entry := Configured(ReadProfile(s.profile), Last(plan).packageName);
      assert entry.Some? && entry.value.id == id;
      IdOfEntry(s.profile, entry.value);
    }
  }

  lemma IdOfEntry(profile: seq<ProfileEntry>, entry: ProfileEntry)
    requires entry in profile
    ensures HasId(profile, entry.id)
  {
  }

  /** The walk starts from a profile in which every configured plan entry and the runtime are found. */
  lemma WalkPremises(catalog: seq<Plugin>, s: State, plan: seq<Plugin>, reenabled: seq<ProfileEntry>)
    requires ValidCatalog(catalog) && WellFormed(catalog, s)
    requires plan != [] && DistinctIds(plan) && forall p :: p in plan ==> p in catalog
    requires Reenable(s.profile, ReadProfile(s.profile), DisabledAmong(s, plan[..|plan| - 1])) == Some(reenabled)
    ensures UniqueIds(reenabled) && SameEntries(reenabled, s.profile)
    ensures forall e :: e in reenabled ==> Named(catalog, e.id, e.packageName)
    ensures var missing := set p | p in MissingFrom(s, plan) :: p.packageName;
            forall p :: p in plan ==>
              && (p.packageName in missing ==>
                    Configured(ReadProfile(s.profile), p.packageName).None? && !InProfile(reenabled, p))
              && (!InProfile(s.profile, p) ==> p.packageName in missing)
  {
    var dependencies := DisabledAmong(s, plan[..|plan| - 1]);
    var missing := set p | p in MissingFrom(s, plan) :: p.packageName;
    ReenableEffect(catalog, s, s.profile, dependencies);
    ReenabledProfile(catalog, s, dependencies);
    forall p | p in plan
      ensures p.packageName in missing ==>
                Configured(ReadProfile(s.profile), p.packageName).None? && !InProfile(reenabled, p)
      ensures !InProfile(s.profile, p) ==> p.packageName in missing
    {
      EnabledMeans(catalog, s, p);
      MissingPackage(catalog, s, plan, p);
      if p !in MissingFrom(s, plan) {
        NotMissingInProfile(catalog, s, plan, p);
      }
    }
  }

  lemma PlacedBeforeAnchor(catalog: seq<Plugin>, s: State, plan: seq<Plugin>)
    requires ValidCatalog(catalog) && WellFormed(catalog, s)
    requires plan != [] && DistinctIds(plan) && forall p :: p in plan ==> p in catalog
    requires InstalledProfile(s, plan).Some?
    requires RuntimeAnchor(s.loader).Some? && HasId(s.profile, RuntimeAnchor(s.loader).value)
    ensures var runtime := [RuntimeAnchor(s.loader).value];
            InOrder(InstalledProfile(s, plan).value, EntryIds(plan) + runtime) <==>
            InOrder(s.profile, PresentIds(ReadProfile(s.profile), plan) + runtime)
  {
    var runtime := [RuntimeAnchor(s.loader).value];
    var entries := ReadProfile(s.profile);
    var missing := set p | p in MissingFrom(s, plan) :: p.packageName;
    var present := PresentIds(entries, plan);
    var reenabled := Reenable(s.profile, entries, DisabledAmong(s, plan[..|plan| - 1])).value;
    WalkPremises(catalog, s, plan, reenabled);
    forall id | id in present + runtime
      ensures HasId(reenabled, id)
    {
      SameEntriesSamePosition(reenabled, s.profile, id);
      if id in present {
        PresentIdsInProfile(catalog, s, plan, id);
      }
    }
    SameEntriesInOrder(reenabled, s.profile, present + runtime);
    WalkKeepsOrder(catalog, entries, missing, reenabled, plan, runtime);
    WholePlanPlaced(catalog, s, missing, plan);
  }

  /** The entry of the runtime: the first one in the loader. */
  predicate RuntimeAt(loader: seq<LoaderEntry>, k: int) {
    && 0 <= k < |loader| && loader[k].name == RUNTIME_ENTRY_NAME
    && forall j :: 0 <= j < k ==> loader[j].name != RUNTIME_ENTRY_NAME
  }

  lemma {:induction false} AnchorIsRuntime(loader: seq<LoaderEntry>)
    ensures forall k :: RuntimeAt(loader, k) ==> RuntimeAnchor(loader) == Some(loader[k].id)
    ensures (forall e :: e in loader ==> e.name != RUNTIME_ENTRY_NAME) ==> RuntimeAnchor(loader) == None
  {
    if loader != [] {
      AnchorIsRuntime(loader[1..]);
      forall k | RuntimeAt(loader, k) && k > 0
        ensures RuntimeAt(loader[1..], k - 1) && loader[1..][k - 1] == loader[k]
      {
      }
    }
  }

  /** After the writes of an install, the entries of the plan stand in plan order in front of the
      entry of the runtime if and only if those that were configured before already did. */
  lemma InstalledInPlanOrder(catalog: seq<Plugin>, s: State, plan: seq<Plugin>, k: nat)
    requires ValidCatalog(catalog) && WellFormed(catalog, s)
    requires plan != [] && DistinctIds(plan) && forall p :: p in plan ==> p in catalog
    requires InstalledProfile(s, plan).Some?
    requires RuntimeAt(s.loader, k) && HasId(s.profile, s.loader[k].id)
    ensures var runtime := [s.loader[k].id];
            InOrder(InstalledProfile(s, plan).value, EntryIds(plan) + runtime) <==>
            InOrder(s.profile, PresentIds(ReadProfile(s.profile), plan) + runtime)
  {
    AnchorIsRuntime(s.loader);
    PlacedBeforeAnchor(catalog, s, plan);
  }

  // ----- without a runtime

  lemma AppendedLast(profile: seq<ProfileEntry>, entry: ProfileEntry, ids: seq<string>)
    requires UniqueIds(profile) && !HasId(profile, entry.id) && HasAll(profile, ids)
    ensures var r := profile + [entry];
            && UniqueIds(r) && HasAll(r, ids + [entry.id])
            && (InOrder(r, ids + [entry.id]) <==> InOrder(profile, ids))
  {
    var r := profile + [entry];
    forall i | 0 <= i < |profile|
      ensures profile[i].id != entry.id
    {
      PositionIsUnique(profile, i);
    }
    assert r[|profile|] == entry;
    PositionIsUnique(r, |profile|);
    forall id | id in ids
      ensures HasId(r, id) && Position(r, id) == Position(profile, id)
    {
      var k := Position(profile, id);
      assert r[k] == profile[k];
      PositionIsUnique(r, k);
    }
    assert forall id :: id in ids + [entry.id] <==> id in ids || id == entry.id;
    PositionsConcat(r, ids, [entry.id]);
    assert Positions(r, ids) == Positions(profile, ids);
    IncreasingConcat(Positions(r, ids), Positions(r, [entry.id]));
    if ids != [] {
      assert Last(ids) in ids;
      assert Last(Positions(r, ids)) == Position(profile, Last(ids));
    }
  }

  /** Without an anchor the walk starts at the end of the profile, and from there on keeps plan order. */
  lemma WalkFromEnd(catalog: seq<Plugin>, entries: seq<ProfileEntry>, missing: set<string>,
                    profile: seq<ProfileEntry>, plan: seq<Plugin>)
    requires UniqueIds(profile) && (forall e :: e in profile ==> Named(catalog, e.id, e.packageName))
    requires ConsistentEntries(catalog) && DistinctIds(plan) && forall p :: p in plan ==> p in catalog
    requires forall p :: p in plan && p.packageName in missing ==>
               Configured(entries, p.packageName).None? && !InProfile(profile, p)
    requires plan != [] && (Configured(entries, Last(plan).packageName).Some? || Last(plan).packageName in missing)
    requires HasAll(profile, PresentIds(entries, plan))
    ensures InOrder(Walk(profile, entries, missing, plan, None), PlanIds(entries, missing, plan))
            <==> InOrder(profile, PresentIds(entries, plan))
  {
    var p, rest := Last(plan), plan[..|plan| - 1];
    assert plan == rest + [p] && p in plan;
    match Configured(entries, p.packageName) {
      case Some(entry) => WalkKeepsOrder(catalog, entries, missing, profile, rest, [entry.id]);
      case None =>
        var next := profile + [NewEntry(p)];
        FirstAtEnd(catalog, entries, missing, profile, plan);
        AppendedLast(profile, NewEntry(p), PresentIds(entries, rest));
        WalkKeepsOrder(catalog, entries, missing, next, rest, [EntryId(p)]);
    }
  }

  lemma FirstAtEnd(catalog: seq<Plugin>, entries: seq<ProfileEntry>, missing: set<string>,
                   profile: seq<ProfileEntry>, plan: seq<Plugin>)
    requires UniqueIds(profile) && (forall e :: e in profile ==> Named(catalog, e.id, e.packageName))
    requires ConsistentEntries(catalog) && DistinctIds(plan) && forall p :: p in plan ==> p in catalog
    requires forall p :: p in plan && p.packageName in missing ==>
               Configured(entries, p.packageName).None? && !InProfile(profile, p)
    requires plan != [] && Last(plan).packageName in missing
    ensures var p, rest := Last(plan), plan[..|plan| - 1];
            var next := profile + [NewEntry(p)];
            && AppendEntry(profile, p, None) == next && !HasId(profile, EntryId(p)) && UniqueIds(next)
            && (forall e :: e in next ==> Named(catalog, e.id, e.packageName))
            && (forall q :: q in rest && q.packageName in missing ==> !InProfile(next, q))
            && PresentIds(entries, plan) == PresentIds(entries, rest)
            && PlanIds(entries, missing, plan) == PlanIds(entries, missing, rest) + [EntryId(p)]
  {
    var p, rest := Last(plan), plan[..|plan| - 1];
    var next := profile + [NewEntry(p)];
    assert p in plan;
    assert forall e :: e in profile ==> e.packageName != p.packageName && e.id != EntryId(p);
    AppendEntryEntries(profile, p, None);
    assert AppendEntry(profile, p, None) == next;
    NewEntryNamed(catalog, p);
    forall q | q in rest && q.packageName in missing
      ensures !InProfile(next, q)
    {
      var k :| 0 <= k < |rest| && rest[k] == q;
      assert plan[k].id != plan[|plan| - 1].id;
      EntryIdInjective(p, q);
    }
  }

  /** If the loader has no runtime, new entries go to the end, and the entries of the plan stand in plan
      order if and only if those that were configured before did. */
  lemma InstalledInPlanOrderAtEnd(catalog: seq<Plugin>, s: State, plan: seq<Plugin>)
    requires ValidCatalog(catalog) && WellFormed(catalog, s)
    requires plan != [] && DistinctIds(plan) && forall p :: p in plan ==> p in catalog
    requires InstalledProfile(s, plan).Some? && forall e :: e in s.loader ==> e.name != RUNTIME_ENTRY_NAME
    ensures InOrder(InstalledProfile(s, plan).value, EntryIds(plan)) <==>
            InOrder(s.profile, PresentIds(ReadProfile(s.profile), plan))
  {
    AnchorIsRuntime(s.loader);
    var entries := ReadProfile(s.profile);
    var missing := set p | p in MissingFrom(s, plan) :: p.packageName;
    var present := PresentIds(entries, plan);
    var reenabled := Reenable(s.profile, entries, DisabledAmong(s, plan[..|plan| - 1])).value;
    WalkPremises(catalog, s, plan, reenabled);
    forall id | id in present
      ensures HasId(reenabled, id)
    {
      SameEntriesSamePosition(reenabled, s.profile, id);
      PresentIdsInProfile(catalog, s, plan, id);
    }
    SameEntriesInOrder(reenabled, s.profile, present);
    assert Last(plan) in plan;
    EnabledMeans(catalog, s, Last(plan));
    WalkFromEnd(catalog, entries, missing, reenabled, plan);
    WholePlanPlaced(catalog, s, missing, plan);
  }
}
