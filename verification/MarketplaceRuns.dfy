/** Whole runs of the gateway: requests that arrive and finish, and restarts at any moment, in the
    middle of the writes of a request too. */
module MarketplaceRuns {
  import opened Wrappers
  import opened InstallPlan
  import opened Marketplace
  import opened MarketplaceSafety

  // ----- a profile that an install has written in part

  function Min(a: nat, b: nat): nat {
    if a < b then a else b
  }

  lemma {:induction false} ReenableUpToIs(profile: seq<ProfileEntry>, entries: seq<ProfileEntry>,
                                          dependencies: seq<Plugin>, n: nat)
    requires Reenable(profile, entries, dependencies).Some?
    ensures Reenable(profile, entries, dependencies[..Min(n, |dependencies|)])
         == Some(ReenableUpTo(profile, entries, dependencies, n))
    decreases n
  {
    if dependencies != [] && n > 0 {
      var entry := Configured(entries, dependencies[0].packageName).value;
      ReenableUpToIs(SetDisabled(profile, entry.id, false), entries, dependencies[1..], n - 1);
      assert dependencies[..Min(n, |dependencies|)][1..] == dependencies[1..][..Min(n - 1, |dependencies| - 1)];
    }
  }

  /** In a well-formed state every disabled dependency has a profile entry. */
  lemma ReenableSucceeds(catalog: seq<Plugin>, s: State, dependencies: seq<Plugin>)
    requires ValidCatalog(catalog) && WellFormed(catalog, s) && forall d :: d in dependencies ==> d in catalog
    ensures Reenable(s.profile, ReadProfile(s.profile), DisabledAmong(s, dependencies)).Some?
  {
    ReenableEffect(catalog, s, s.profile, DisabledAmong(s, dependencies));
    forall d | d in DisabledAmong(s, dependencies)
      ensures InProfile(s.profile, d)
    {
      EnabledMeans(catalog, s, d);
      var loaded := Loaded(s.loader, d.packageName);
      if loaded.Some? {
        assert loaded.value in s.loader && loaded.value.name == d.packageName;
      }
    }
  }

  /** The plugins that the first n steps of an install re-enable or write. */
  predicate Touched(s: State, plan: seq<Plugin>, n: nat, p: Plugin)
    requires plan != []
  {
    var dependencies := DisabledAmong(s, plan[..|plan| - 1]);
    || p in dependencies[..Min(n, |dependencies|)]
    || (n > |dependencies| && p in Passed(plan, n - |dependencies|) && p in MissingFrom(s, plan))
  }

  ghost predicate NamedProfile(catalog: seq<Plugin>, profile: seq<ProfileEntry>) {
    UniqueIds(profile) && forall e :: e in profile ==> Named(catalog, e.id, e.packageName)
  }

  lemma TouchedByReenabling(s: State, plan: seq<Plugin>, n: nat, p: Plugin)
    requires plan != [] && n <= |DisabledAmong(s, plan[..|plan| - 1])|
    ensures Touched(s, plan, n, p) <==> p in DisabledAmong(s, plan[..|plan| - 1])[..n]
  {
  }

  lemma TouchedByWalk(s: State, plan: seq<Plugin>, k: nat, p: Plugin)
    requires plan != [] && k > 0
    ensures var dependencies := DisabledAmong(s, plan[..|plan| - 1]);
            Touched(s, plan, |dependencies| + k, p) <==>
            p in dependencies || (p in Passed(plan, k) && p in MissingFrom(s, plan))
  {
    var dependencies := DisabledAmong(s, plan[..|plan| - 1]);
    assert dependencies[..|dependencies|] == dependencies;
  }

  /** A profile written in part enables what it enabled before and what the steps so far touched. */
  lemma WrittenEffect(catalog: seq<Plugin>, s: State, plan: seq<Plugin>, n: nat)
    requires ValidCatalog(catalog) && WellFormed(catalog, s)
    requires plan != [] && DistinctIds(plan) && forall p :: p in plan ==> p in catalog
    ensures NamedProfile(catalog, WrittenProfile(s, plan, n))
    ensures forall p :: p in catalog ==>
      (EnabledIn(WrittenProfile(s, plan, n), p) <==> EnabledIn(s.profile, p) || Touched(s, plan, n, p))
  {
    var dependencies := DisabledAmong(s, plan[..|plan| - 1]);
    ReenableSucceeds(catalog, s, plan[..|plan| - 1]);
    if n <= |dependencies| {
      ReenabledInPart(catalog, s, plan, n);
    } else {
      WalkedInPart(catalog, s, plan, n - |dependencies|);
    }
  }

  lemma ReenabledInPart(catalog: seq<Plugin>, s: State, plan: seq<Plugin>, n: nat)
    requires ValidCatalog(catalog) && WellFormed(catalog, s)
    requires plan != [] && forall p :: p in plan ==> p in catalog
    requires Reenable(s.profile, ReadProfile(s.profile), DisabledAmong(s, plan[..|plan| - 1])).Some?
    requires n <= |DisabledAmong(s, plan[..|plan| - 1])|
    ensures NamedProfile(catalog, WrittenProfile(s, plan, n))
    ensures forall p :: p in catalog ==>
      (EnabledIn(WrittenProfile(s, plan, n), p) <==> EnabledIn(s.profile, p) || Touched(s, plan, n, p))
  {
    var dependencies := DisabledAmong(s, plan[..|plan| - 1]);
    ReenableUpToIs(s.profile, ReadProfile(s.profile), dependencies, n);
    assert forall d :: d in dependencies[..n] ==> d in dependencies;
    ReenabledProfile(catalog, s, dependencies[..n]);
    forall p | p in catalog
      ensures Touched(s, plan, n, p) <==> p in dependencies[..n]
    {
      TouchedByReenabling(s, plan, n, p);
    }
  }

  lemma PassedIsDistinct(plan: seq<Plugin>, k: nat)
    requires DistinctIds(plan)
    ensures DistinctIds(Passed(plan, k)) && forall p :: p in Passed(plan, k) ==> p in plan
  {
  }

  /** The walk on a profile with the dependencies switched on. */
  lemma WalkedInPart(catalog: seq<Plugin>, s: State, plan: seq<Plugin>, k: nat)
    requires ValidCatalog(catalog) && WellFormed(catalog, s) && k > 0
    requires plan != [] && DistinctIds(plan) && forall p :: p in plan ==> p in catalog
    requires Reenable(s.profile, ReadProfile(s.profile), DisabledAmong(s, plan[..|plan| - 1])).Some?
    ensures var n := |DisabledAmong(s, plan[..|plan| - 1])| + k;
            && NamedProfile(catalog, WrittenProfile(s, plan, n))
            && forall p :: p in catalog ==>
                 (EnabledIn(WrittenProfile(s, plan, n), p) <==> EnabledIn(s.profile, p) || Touched(s, plan, n, p))
  {
    var dependencies := DisabledAmong(s, plan[..|plan| - 1]);
    AllInCatalog(catalog, s, plan);
    ReenabledProfile(catalog, s, dependencies);
    WalkedFrom(catalog, s, plan, k, Reenable(s.profile, ReadProfile(s.profile), dependencies).value);
  }

  lemma WalkedFrom(catalog: seq<Plugin>, s: State, plan: seq<Plugin>, k: nat, reenabled: seq<ProfileEntry>)
    requires ValidCatalog(catalog) && WellFormed(catalog, s) && k > 0
    requires plan != [] && DistinctIds(plan) && forall p :: p in plan ==> p in catalog
    requires Reenable(s.profile, ReadProfile(s.profile), DisabledAmong(s, plan[..|plan| - 1])) == Some(reenabled)
    requires NamedProfile(catalog, reenabled)
    requires forall p :: p in catalog ==> (InProfile(reenabled, p) <==> InProfile(s.profile, p))
    requires forall p :: p in catalog ==>
      (EnabledIn(reenabled, p) <==> EnabledIn(s.profile, p) || p in DisabledAmong(s, plan[..|plan| - 1]))
    ensures var n := |DisabledAmong(s, plan[..|plan| - 1])| + k;
            && NamedProfile(catalog, WrittenProfile(s, plan, n))
            && forall p :: p in catalog ==>
                 (EnabledIn(WrittenProfile(s, plan, n), p) <==> EnabledIn(s.profile, p) || Touched(s, plan, n, p))
  {
    var r := Walk(reenabled, ReadProfile(s.profile), MissingPackages(s, plan), Passed(plan, k), RuntimeAnchor(s.loader));
    WrittenByWalk(s, plan, k);
    WalkOnReenabled(catalog, s, plan, reenabled, k);
    BothTouch(catalog, s, plan, k, reenabled, r);
  }

  lemma AllInCatalog(catalog: seq<Plugin>, s: State, plan: seq<Plugin>)
    requires plan != [] && forall p :: p in plan ==> p in catalog
    ensures forall d :: d in DisabledAmong(s, plan[..|plan| - 1]) ==> d in catalog
  {
  }

  lemma BothTouch(catalog: seq<Plugin>, s: State, plan: seq<Plugin>, k: nat,
                  reenabled: seq<ProfileEntry>, r: seq<ProfileEntry>)
    requires plan != [] && k > 0
    requires forall p :: p in catalog ==>
      (EnabledIn(reenabled, p) <==> EnabledIn(s.profile, p) || p in DisabledAmong(s, plan[..|plan| - 1]))
    requires forall p :: p in catalog ==>
      (EnabledIn(r, p) <==> EnabledIn(reenabled, p) || (p in Passed(plan, k) && p in MissingFrom(s, plan)))
    ensures forall p :: p in catalog ==>
      (EnabledIn(r, p) <==>
       EnabledIn(s.profile, p) || Touched(s, plan, |DisabledAmong(s, plan[..|plan| - 1])| + k, p))
  {
    forall p | p in catalog
      ensures EnabledIn(r, p) <==>
              EnabledIn(s.profile, p) || Touched(s, plan, |DisabledAmong(s, plan[..|plan| - 1])| + k, p)
    {
      TouchedByWalk(s, plan, k, p);
    }
  }

  lemma WrittenByWalk(s: State, plan: seq<Plugin>, k: nat)
    requires plan != [] && k > 0
    requires Reenable(s.profile, ReadProfile(s.profile), DisabledAmong(s, plan[..|plan| - 1])).Some?
    ensures var dependencies := DisabledAmong(s, plan[..|plan| - 1]);
            var reenabled := Reenable(s.profile, ReadProfile(s.profile), dependencies).value;
            WrittenProfile(s, plan, |dependencies| + k)
            == Walk(reenabled, ReadProfile(s.profile), MissingPackages(s, plan), Passed(plan, k), RuntimeAnchor(s.loader))
  {
  }

  lemma WalkOnReenabled(catalog: seq<Plugin>, s: State, plan: seq<Plugin>, reenabled: seq<ProfileEntry>, k: nat)
    requires ValidCatalog(catalog) && WellFormed(catalog, s) && NamedProfile(catalog, reenabled)
    requires DistinctIds(plan) && forall p :: p in plan ==> p in catalog
    requires forall q :: q in catalog ==> (InProfile(reenabled, q) <==> InProfile(s.profile, q))
    ensures var r := Walk(reenabled, ReadProfile(s.profile), MissingPackages(s, plan), Passed(plan, k), RuntimeAnchor(s.loader));
            && NamedProfile(catalog, r)
            && forall p :: p in catalog ==>
                 (EnabledIn(r, p) <==> EnabledIn(reenabled, p) || (p in Passed(plan, k) && p in MissingFrom(s, plan)))
  {
    var entries, missing := ReadProfile(s.profile), MissingPackages(s, plan);
    PassedIsDistinct(plan, k);
    forall p | p in Passed(plan, k) && p.packageName in missing
      ensures Configured(entries, p.packageName).None? && !InProfile(reenabled, p)
    {
      StillMissing(catalog, s, plan, reenabled, p);
    }
    WalkEffect(catalog, entries, missing, reenabled, Passed(plan, k), RuntimeAnchor(s.loader));
    var r := Walk(reenabled, entries, missing, Passed(plan, k), RuntimeAnchor(s.loader));
    forall p | p in catalog
      ensures EnabledIn(r, p) <==> EnabledIn(reenabled, p) || (p in Passed(plan, k) && p in MissingFrom(s, plan))
    {
      WalkedIn(catalog, reenabled, r, missing, Passed(plan, k), p);
      MissingPackage(catalog, s, plan, p);
    }
  }

  lemma StillMissing(catalog: seq<Plugin>, s: State, plan: seq<Plugin>, reenabled: seq<ProfileEntry>, p: Plugin)
    requires ValidCatalog(catalog) && WellFormed(catalog, s) && p in plan && forall q :: q in plan ==> q in catalog
    requires forall q :: q in catalog ==> (InProfile(reenabled, q) <==> InProfile(s.profile, q))
    requires p.packageName in MissingPackages(s, plan)
    ensures Configured(ReadProfile(s.profile), p.packageName).None? && !InProfile(reenabled, p)
  {
    MissingPackage(catalog, s, plan, p);
    EnabledMeans(catalog, s, p);
  }

  // ----- restarting on it

  lemma EnabledAfterRestart(catalog: seq<Plugin>, s: State, p: Plugin)
    requires NamedProfile(catalog, s.profile) && p in catalog && p.id != ""
    ensures Enabled(Restart(s), p) <==> EnabledIn(s.profile, p)
  {
    EnabledMeansLoosely(catalog, Restart(s), p);
    forall e | e in Restart(s).loader && e.name == p.packageName
      ensures InProfile(s.profile, p)
    {
      var k :| 0 <= k < |s.profile| && Restart(s).loader[k] == e;
      assert s.profile[k] in s.profile && Named(catalog, s.profile[k].id, s.profile[k].packageName);
    }
  }

  lemma RestartIsWellFormed(catalog: seq<Plugin>, s: State)
    requires NamedProfile(catalog, s.profile)
    ensures WellFormed(catalog, Restart(s))
  {
    forall e | e in Restart(s).loader
      ensures Named(catalog, e.id, e.name) && exists f :: f in s.profile && f.id == e.id && f.packageName == e.name
    {
      var k :| 0 <= k < |s.profile| && Restart(s).loader[k] == e;
      assert s.profile[k] in s.profile;
    }
  }

  /** Each dependency of each plugin touched so far was enabled before or is among those touched. */
  ghost predicate WritesComplete(catalog: seq<Plugin>, s: State, plan: seq<Plugin>, n: nat)
    requires plan != []
  {
    forall p, q :: p in catalog && q in catalog && q.id in p.dependencies && Touched(s, plan, n, p) ==>
      Enabled(s, q) || Touched(s, plan, n, q)
  }

  /** A process that dies after any number of the steps of an install and starts again is in a safe
      state exactly if the steps so far were complete. */
  lemma InterruptedInstall(catalog: seq<Plugin>, s: State, plan: seq<Plugin>, n: nat)
    requires ValidCatalog(catalog) && Safe(catalog, s)
    requires plan != [] && DistinctIds(plan) && forall p :: p in plan ==> p in catalog
    ensures Safe(catalog, Restart(State(s.loader, WrittenProfile(s, plan, n)))) <==> WritesComplete(catalog, s, plan, n)
  {
    var written := State(s.loader, WrittenProfile(s, plan, n));
    WrittenEffect(catalog, s, plan, n);
    RestartIsWellFormed(catalog, written);
    forall p | p in catalog
      ensures Enabled(Restart(written), p) <==> Enabled(s, p) || Touched(s, plan, n, p)
    {
      EnabledMeans(catalog, s, p);
      EnabledAfterRestart(catalog, written, p);
    }
    ClosedExactly(catalog, s, Restart(written), plan, n);
  }

  lemma ClosedExactly(catalog: seq<Plugin>, s: State, s': State, plan: seq<Plugin>, n: nat)
    requires plan != [] && DependencyClosed(catalog, s)
    requires forall p :: p in catalog ==> (Enabled(s', p) <==> Enabled(s, p) || Touched(s, plan, n, p))
    ensures DependencyClosed(catalog, s') <==> WritesComplete(catalog, s, plan, n)
  {
  }

  /** In particular, the target is written first: if a dependency of it is missing too, the profile is
      incomplete after the first write of the walk. */
  lemma TargetComesFirst(catalog: seq<Plugin>, s: State, plan: seq<Plugin>, q: Plugin)
    requires ValidCatalog(catalog) && WellFormed(catalog, s) && q in catalog
    requires plan != [] && Last(plan) in catalog && DistinctIds(plan)
    requires Last(plan) in MissingFrom(s, plan) && q in MissingFrom(s, plan) && q.id in Last(plan).dependencies
    ensures !WritesComplete(catalog, s, plan, |DisabledAmong(s, plan[..|plan| - 1])| + 1)
  {
    var dependencies := DisabledAmong(s, plan[..|plan| - 1]);
    NoSelfDependency(catalog, Last(plan), q);
    assert Passed(plan, 1) == [Last(plan)];
    TouchedByWalk(s, plan, 1, Last(plan));
    TouchedByWalk(s, plan, 1, q);
    EnabledMeans(catalog, s, q);
  }

  // ----- restarts in the middle of any request

  const SMOOTHLY := Environment(true, None, AllCreated, Updated)

  /** The plan of a request that may write more than once. */
  function PlanFor(catalog: seq<Plugin>, request: Request): Option<seq<Plugin>> {
    if !request.InstallRequest? || PluginById(catalog, request.id).None? then None
    else
      match PlanOf(PluginById(catalog, request.id).value, catalog)
      case Failure(_) => None
      case Success(plan) => if plan == [] then None else Some(plan)
  }

  /** The profile that a process which dies during a request leaves behind, n steps of writing into
      it. A toggle and an uninstall have one step. What a rollback restores is the profile of step 0. */
  function CrashProfile(catalog: seq<Plugin>, s: State, request: Request, n: nat): seq<ProfileEntry> {
    if PlanFor(catalog, request).Some? then WrittenProfile(s, PlanFor(catalog, request).value, n)
    else if n == 0 || request.InstallRequest? then s.profile
    else Handle(catalog, s, request, SMOOTHLY).0.profile
  }

  ghost predicate CrashComplete(catalog: seq<Plugin>, s: State, request: Request, n: nat) {
    PlanFor(catalog, request).Some? ==> WritesComplete(catalog, s, PlanFor(catalog, request).value, n)
  }

  lemma CrashIsSafeExactly(catalog: seq<Plugin>, s: State, request: Request, n: nat)
    requires ValidCatalog(catalog) && Safe(catalog, s)
    ensures Safe(catalog, Restart(State(s.loader, CrashProfile(catalog, s, request, n)))) <==>
            CrashComplete(catalog, s, request, n)
  {
    if PlanFor(catalog, request).Some? {
      var plugin := PluginById(catalog, request.id).value;
      LoadedCatalogNeverThrows(catalog, plugin);
      var plan := PlanOf(plugin, catalog).value;
      assert forall p :: p in plan ==> p in catalog by {
        assert forall p :: p in plan ==> p in Elems(plan);
      }
      InterruptedInstall(catalog, s, plan, n);
    } else {
      OneWriteIsSafe(catalog, s, request, n);
    }
  }

  lemma OneWriteIsSafe(catalog: seq<Plugin>, s: State, request: Request, n: nat)
    requires ValidCatalog(catalog) && Safe(catalog, s) && PlanFor(catalog, request).None?
    ensures Safe(catalog, Restart(State(s.loader, CrashProfile(catalog, s, request, n))))
  {
    var after := if n == 0 || request.InstallRequest? then s else Handle(catalog, s, request, SMOOTHLY).0;
    HandleKeepsSafe(catalog, s, request, SMOOTHLY);
    RestartKeepsSafe(catalog, after);
    assert Restart(State(s.loader, CrashProfile(catalog, s, request, n))) == Restart(after);
  }

  // ----- runs

  /** The gateway between awaits: at most one mutation is in flight, and a request that arrives
      meanwhile is refused. The process may be restarted at any time, also n steps into the writing of
      the request in flight. */
  datatype Machine = Machine(state: State, inFlight: Option<Request>)

  datatype Step =
    | Arrive(request: Request)
    | Finish(env: Environment)
    | RestartStep(n: nat)

  function Next(catalog: seq<Plugin>, m: Machine, step: Step): Machine {
    match step
    case Arrive(request) => if m.inFlight.Some? then m else m.(inFlight := Some(request))
    case Finish(env) =>
      if m.inFlight.None? then m
      else Machine(Handle(catalog, m.state, m.inFlight.value, env).0, None)
    case RestartStep(n) =>
      var profile := if m.inFlight.None? then m.state.profile
                     else CrashProfile(catalog, m.state, m.inFlight.value, n);
      Machine(Restart(State(m.state.loader, profile)), None)
  }

  function Run(catalog: seq<Plugin>, m: Machine, steps: seq<Step>): Machine
    decreases |steps|
  {
    if steps == [] then m else Run(catalog, Next(catalog, m, steps[0]), steps[1..])
  }

  ghost predicate StepComplete(catalog: seq<Plugin>, m: Machine, step: Step) {
    step.RestartStep? && m.inFlight.Some? ==> CrashComplete(catalog, m.state, m.inFlight.value, step.n)
  }

  /** Every restart of the run that interrupts an install finds a complete part of its writes. */
  ghost predicate Complete(catalog: seq<Plugin>, m: Machine, steps: seq<Step>)
    decreases |steps|
  {
    steps == [] || (StepComplete(catalog, m, steps[0]) && Complete(catalog, Next(catalog, m, steps[0]), steps[1..]))
  }

  ghost predicate AlwaysSafe(catalog: seq<Plugin>, m: Machine, steps: seq<Step>)
    decreases |steps|
  {
    Safe(catalog, m.state) && (steps == [] || AlwaysSafe(catalog, Next(catalog, m, steps[0]), steps[1..]))
  }

  lemma StepIsSafeExactly(catalog: seq<Plugin>, m: Machine, step: Step)
    requires ValidCatalog(catalog) && Safe(catalog, m.state)
    ensures Safe(catalog, Next(catalog, m, step).state) <==> StepComplete(catalog, m, step)
  {
    match step {
      case Arrive(_) =>
      case Finish(env) =>
        if m.inFlight.Some? {
          HandleKeepsSafe(catalog, m.state, m.inFlight.value, env);
        }
      case RestartStep(n) =>
        if m.inFlight.Some? {
          CrashIsSafeExactly(catalog, m.state, m.inFlight.value, n);
        } else {
          RestartKeepsSafe(catalog, m.state);
          assert State(m.state.loader, m.state.profile) == m.state;
        }
    }
  }

  /** A run is safe throughout exactly if no restart in it finds an incomplete part of the writes of
      an install: nothing else that requests, answers and restarts do can break the invariant. */
  lemma {:induction false} RunIsSafeExactly(catalog: seq<Plugin>, m: Machine, steps: seq<Step>)
    requires ValidCatalog(catalog) && Safe(catalog, m.state)
    ensures AlwaysSafe(catalog, m, steps) <==> Complete(catalog, m, steps)
    decreases |steps|
  {
    if steps != [] {
      StepIsSafeExactly(catalog, m, steps[0]);
      if StepComplete(catalog, m, steps[0]) {
        RunIsSafeExactly(catalog, Next(catalog, m, steps[0]), steps[1..]);
      } else {
        UnsafeIsNotAlways(catalog, Next(catalog, m, steps[0]), steps[1..]);
      }
    }
  }

  lemma UnsafeIsNotAlways(catalog: seq<Plugin>, m: Machine, steps: seq<Step>)
    requires !Safe(catalog, m.state)
    ensures !AlwaysSafe(catalog, m, steps)
  {
  }

  lemma {:induction false} EndIsSafe(catalog: seq<Plugin>, m: Machine, steps: seq<Step>)
    requires AlwaysSafe(catalog, m, steps)
    ensures Safe(catalog, Run(catalog, m, steps).state)
    decreases |steps|
  {
    if steps != [] {
      EndIsSafe(catalog, Next(catalog, m, steps[0]), steps[1..]);
    }
  }

  /** The safety of whole runs. From a safe state, after any interleaving of requests, answers and
      restarts in which no restart finds an incomplete part of the writes of an install: whatever is
      active is enabled, and everything an enabled plugin reaches through dependencies is a catalogue
      plugin that is enabled too. */
  lemma EnabledPluginsStayComplete(catalog: seq<Plugin>, m: Machine, steps: seq<Step>, p: Plugin)
    requires ValidCatalog(catalog) && Safe(catalog, m.state) && p in catalog
    requires Complete(catalog, m, steps)
    ensures var s := Run(catalog, m, steps).state;
            && (Active(s, p) ==> Enabled(s, p))
            && (Enabled(s, p) ==>
                  forall id :: Reaches(Graph(p, catalog), p.id, id) ==>
                    exists q :: q in catalog && q.id == id && Enabled(s, q))
  {
    RunIsSafeExactly(catalog, m, steps);
    EndIsSafe(catalog, m, steps);
    SafeIsComplete(catalog, Run(catalog, m, steps).state, p);
  }

  lemma SafeIsComplete(catalog: seq<Plugin>, s: State, p: Plugin)
    requires ValidCatalog(catalog) && Safe(catalog, s) && p in catalog
    ensures Active(s, p) ==> Enabled(s, p)
    ensures Enabled(s, p) ==>
      forall id :: Reaches(Graph(p, catalog), p.id, id) ==> exists q :: q in catalog && q.id == id && Enabled(s, q)
  {
    EnabledMeans(catalog, s, p);
    if Enabled(s, p) {
      forall id | Reaches(Graph(p, catalog), p.id, id)
        ensures exists q :: q in catalog && q.id == id && Enabled(s, q)
      {
        ClosedTransitively(catalog, s, p, id);
      }
    }
  }
}
