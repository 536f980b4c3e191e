/** The npm statistics loader: lookups share a few slots, a package is looked up at most once at a
    time, and failed lookups back off. The code between two awaits is one step. */
module StatisticsLoader {
  import opened Wrappers

  /** What a finished registry lookup reports. The statistics themselves are a token here. */
  datatype Outcome = Rejected | Looked(failed: bool, statistics: Option<nat>)

  datatype CacheEntry = CacheEntry(expiresAt: int, failures: nat, result: Outcome)

  /** A suspended lookup: queued for a slot, holding one while it fetches, or about to resume. */
  datatype Phase = Waiting | Holding | Settled(outcome: Outcome)

  /** `cachedFailures` is read from the cache when the lookup starts. */
  datatype Lookup = Lookup(packageName: string, cachedFailures: nat, phase: Phase)

  datatype Event =
    | Started(packageName: string, time: int)
    | Finished(packageName: string, time: int, outcome: Outcome)

  datatype Options = Options(concurrency: nat, failureTtlMs: nat, failureMaxTtlMs: nat, ttlMs: nat)

  /** The closure state of the loader, the suspended lookups, and the history of what happened. */
  datatype Loader = Loader(
    cache: map<string, CacheEntry>,
    inFlight: map<string, nat>,
    waiting: seq<nat>,
    active: int,
    lookups: map<nat, Lookup>,
    nextId: nat,
    log: seq<Event>
  )

  const EMPTY := Loader(map[], map[], [], 0, map[], 0, [])

  datatype Step =
    | Load(packageName: string, now: int)
    | Fetched(id: nat, outcome: Outcome)
    | Resume(id: nat, now: int)

  function Pow2(n: nat): nat {
    if n == 0 then 1 else 2 * Pow2(n - 1)
  }

  function Min(a: int, b: int): (r: int)
    ensures r <= a && r <= b && (r == a || r == b)
  {
    if a <= b then a else b
  }

  function FailureTtl(o: Options, failures: nat): int
    requires failures >= 1
  {
    Min(o.failureTtlMs * Pow2(Min(failures - 1, 20)), o.failureMaxTtlMs)
  }

  function CachedFailures(cache: map<string, CacheEntry>, packageName: string): nat {
    if packageName in cache then cache[packageName].failures else 0
  }

  function LoadStep(o: Options, s: Loader, packageName: string, now: int): Loader {
    if packageName in s.cache && s.cache[packageName].expiresAt > now then s
    else if packageName in s.inFlight then s
    else
      var id := s.nextId;
      var free := s.active < o.concurrency;
      Loader(s.cache,
             s.inFlight[packageName := id],
             if free then s.waiting else s.waiting + [id],
             if free then s.active + 1 else s.active,
             s.lookups[id := Lookup(packageName, CachedFailures(s.cache, packageName), if free then Holding else Waiting)],
             id + 1,
             s.log + [Started(packageName, now)])
  }

  predicate InPhase(s: Loader, id: nat, phase: Phase) {
    id in s.lookups && s.lookups[id].phase == phase
  }

  function WithPhase(lookups: map<nat, Lookup>, id: nat, phase: Phase): map<nat, Lookup> {
    if id in lookups then lookups[id := lookups[id].(phase := phase)] else lookups
  }

  /** The fetch ends and its slot is released: handed to the first waiter, if there is one. */
  function FetchedStep(s: Loader, id: nat, outcome: Outcome): Loader {
    if !InPhase(s, id, Holding) then s
    else
      var settled := WithPhase(s.lookups, id, Settled(outcome));
      if s.waiting == [] then s.(lookups := settled, active := s.active - 1)
      else s.(lookups := WithPhase(settled, s.waiting[0], Holding), waiting := s.waiting[1..])
  }

  function FailuresAfter(lookup: Lookup, outcome: Outcome): nat {
    if outcome.Looked? && outcome.failed then lookup.cachedFailures + 1 else 0
  }

  function NewCacheEntry(o: Options, lookup: Lookup, outcome: Outcome, now: int): CacheEntry
    requires outcome.Looked?
  {
    var failures := FailuresAfter(lookup, outcome);
    CacheEntry(now + if outcome.failed then FailureTtl(o, failures) else o.ttlMs, failures, outcome)
  }

  /** The owner of the lookup goes on: it fills the cache and clears the in-flight entry. */
  function ResumeStep(o: Options, s: Loader, id: nat, now: int): Loader {
    if id !in s.lookups || !s.lookups[id].phase.Settled? then s
    else
      var lookup := s.lookups[id];
      var outcome := lookup.phase.outcome;
      var packageName := lookup.packageName;
      s.(cache := if outcome.Looked? then s.cache[packageName := NewCacheEntry(o, lookup, outcome, now)] else s.cache,
         inFlight := if packageName in s.inFlight && s.inFlight[packageName] == id
                     then s.inFlight - {packageName} else s.inFlight,
         lookups := s.lookups - {id},
         log := s.log + [Finished(packageName, now, outcome)])
  }

  function Next(o: Options, s: Loader, step: Step): Loader {
    match step
    case Load(packageName, now) => LoadStep(o, s, packageName, now)
    case Fetched(id, outcome) => FetchedStep(s, id, outcome)
    case Resume(id, now) => ResumeStep(o, s, id, now)
  }

  function Run(o: Options, s: Loader, steps: seq<Step>): Loader
    decreases |steps|
  {
    if steps == [] then s else Run(o, Next(o, s, steps[0]), steps[1..])
  }

  // ----- the slots

  function HoldingIds(s: Loader): set<nat> {
    set id | id in s.lookups && s.lookups[id].phase == Holding
  }

  /** Slots are counted and handed on in the order of arrival. The lookups numbered below
      `nextId - |waiting|` were given a slot; those from there on are queued, in order. */
  ghost predicate SlotsInOrder(o: Options, s: Loader) {
    && s.active == |HoldingIds(s)| <= o.concurrency
    && (s.waiting != [] ==> s.active == o.concurrency)
    && |s.waiting| <= s.nextId
    && (forall i :: 0 <= i < |s.waiting| ==> s.waiting[i] == s.nextId - |s.waiting| + i)
    && (forall id: nat :: InPhase(s, id, Waiting) <==> s.nextId - |s.waiting| <= id < s.nextId)
    && (forall id :: id in s.lookups ==> id < s.nextId)
  }

  lemma ResizeHolding(before: set<nat>, after: set<nat>, id: nat)
    ensures id !in before && after == before + {id} ==> |after| == |before| + 1
    ensures id in before && after == before - {id} ==> |after| == |before| - 1
  {
  }

  lemma LoadKeepsSlots(o: Options, s: Loader, packageName: string, now: int)
    requires SlotsInOrder(o, s)
    ensures SlotsInOrder(o, LoadStep(o, s, packageName, now))
  {
    var s' := LoadStep(o, s, packageName, now);
    forall n: nat
      ensures InPhase(s', n, Waiting) <==> s'.nextId - |s'.waiting| <= n < s'.nextId
    {
      assert InPhase(s, n, Waiting) <==> s.nextId - |s.waiting| <= n < s.nextId;
    }
    if s' != s {
      ResizeHolding(HoldingIds(s), HoldingIds(s'), s.nextId);
      if s.active < o.concurrency {
        assert HoldingIds(s') == HoldingIds(s) + {s.nextId};
      } else {
        assert HoldingIds(s') == HoldingIds(s);
      }
    }
  }

  lemma FetchedCount(o: Options, s: Loader, id: nat, outcome: Outcome)
    requires SlotsInOrder(o, s) && InPhase(s, id, Holding)
    ensures var s' := FetchedStep(s, id, outcome);
            s'.active == |HoldingIds(s')| && s'.active == s.active - if s.waiting == [] then 1 else 0
  {
    var s' := FetchedStep(s, id, outcome);
    var between := HoldingIds(s) - {id};
    ResizeHolding(HoldingIds(s), between, id);
    if s.waiting == [] {
      assert HoldingIds(s') == between;
    } else {
      var first := s.waiting[0];
      assert InPhase(s, first, Waiting);
      assert HoldingIds(s') == between + {first};
      ResizeHolding(between, HoldingIds(s'), first);
    }
  }

  lemma FetchedOrder(o: Options, s: Loader, id: nat, outcome: Outcome, n: nat)
    requires SlotsInOrder(o, s)
    ensures var s' := FetchedStep(s, id, outcome);
            InPhase(s', n, Waiting) <==> s'.nextId - |s'.waiting| <= n < s'.nextId
  {
    assert s.waiting != [] ==> InPhase(s, s.waiting[0], Waiting);
    assert InPhase(s, n, Waiting) <==> s.nextId - |s.waiting| <= n < s.nextId;
  }

  lemma FetchedKeepsSlots(o: Options, s: Loader, id: nat, outcome: Outcome)
    requires SlotsInOrder(o, s)
    ensures SlotsInOrder(o, FetchedStep(s, id, outcome))
  {
    if InPhase(s, id, Holding) {
      FetchedCount(o, s, id, outcome);
      forall n: nat
        ensures var s' := FetchedStep(s, id, outcome);
                InPhase(s', n, Waiting) <==> s'.nextId - |s'.waiting| <= n < s'.nextId
      {
        FetchedOrder(o, s, id, outcome, n);
      }
    }
  }

  /** When a slot is released with waiters queued, it goes to the one that has waited longest. */
  lemma HandOff(o: Options, s: Loader, id: nat, outcome: Outcome)
    requires SlotsInOrder(o, s) && InPhase(s, id, Holding) && s.waiting != []
    ensures var s' := FetchedStep(s, id, outcome);
            && s'.active == s.active
            && InPhase(s, s.waiting[0], Waiting) && InPhase(s', s.waiting[0], Holding)
            && forall other: nat :: InPhase(s', other, Waiting) ==> s.waiting[0] < other
  {
    FetchedCount(o, s, id, outcome);
    var s' := FetchedStep(s, id, outcome);
    assert InPhase(s, s.waiting[0], Waiting);
    forall other: nat | InPhase(s', other, Waiting)
      ensures s.waiting[0] < other
    {
      FetchedOrder(o, s, id, outcome, other);
    }
  }

  lemma ResumeKeepsSlots(o: Options, s: Loader, id: nat, now: int)
    requires SlotsInOrder(o, s)
    ensures SlotsInOrder(o, ResumeStep(o, s, id, now))
  {
    var s' := ResumeStep(o, s, id, now);
    forall n: nat
      ensures InPhase(s', n, Waiting) <==> s'.nextId - |s'.waiting| <= n < s'.nextId
    {
      assert InPhase(s, n, Waiting) <==> s.nextId - |s.waiting| <= n < s.nextId;
    }
    assert HoldingIds(s') == HoldingIds(s);
  }

  // ----- one lookup at a time

  /** The in-flight table and the suspended lookups are inverse to each other. */
  ghost predicate SingleFlight(s: Loader) {
    && (forall id :: id in s.lookups ==>
          s.lookups[id].packageName in s.inFlight && s.inFlight[s.lookups[id].packageName] == id)
    && (forall p :: p in s.inFlight ==> s.inFlight[p] in s.lookups && s.lookups[s.inFlight[p]].packageName == p)
    && (forall id :: id in s.lookups ==> id < s.nextId)
  }

  lemma NextKeepsSingleFlight(o: Options, s: Loader, step: Step)
    requires SingleFlight(s)
    ensures SingleFlight(Next(o, s, step))
  {
  }

  /** Lookups of a package that were started and not finished, by the history alone. */
  function Outstanding(log: seq<Event>, packageName: string): int {
    if log == [] then 0
    else
      var rest := Outstanding(log[..|log| - 1], packageName);
      if Last(log).packageName != packageName then rest
      else if Last(log).Started? then rest + 1
      else rest - 1
  }

  // ----- the cache against the history

  /** Failed lookups since the last successful one. A rejected lookup reports nothing. */
  function ConsecutiveFailures(log: seq<Event>, packageName: string): nat {
    if log == [] then 0
    else
      var rest := ConsecutiveFailures(log[..|log| - 1], packageName);
      var last := Last(log);
      if last.Finished? && last.packageName == packageName && last.outcome.Looked? then
        if last.outcome.failed then rest + 1 else 0
      else rest
  }

  /** The retry window after so many failures in a row: it begins with the first one, doubles up to
      the 21st, and stays under its ceiling. */
  function Window(o: Options, failures: nat): int
    requires failures >= 1
  {
    if failures == 1 then Min(o.failureTtlMs, o.failureMaxTtlMs)
    else if failures <= 21 then Min(2 * Window(o, failures - 1), o.failureMaxTtlMs)
    else Window(o, failures - 1)
  }

  /** What the last reported lookup of a package brought. */
  function LastAnswer(log: seq<Event>, packageName: string): Option<Outcome> {
    if log == [] then None
    else
      var last := Last(log);
      if last.Finished? && last.packageName == packageName && last.outcome.Looked? then Some(last.outcome)
      else LastAnswer(log[..|log| - 1], packageName)
  }

  /** When the last reported lookup of a package allows the next one. */
  function OpenAt(o: Options, log: seq<Event>, packageName: string): Option<int> {
    if log == [] then None
    else
      var last := Last(log);
      if last.Finished? && last.packageName == packageName && last.outcome.Looked? then
        Some(last.time + if last.outcome.failed then Window(o, ConsecutiveFailures(log, packageName)) else o.ttlMs)
      else OpenAt(o, log[..|log| - 1], packageName)
  }

  ghost predicate CacheMatches(o: Options, s: Loader, p: string) {
    && CachedFailures(s.cache, p) == ConsecutiveFailures(s.log, p)
    && (p in s.cache <==> OpenAt(o, s.log, p).Some?)
    && (p in s.cache ==> s.cache[p].expiresAt == OpenAt(o, s.log, p).value)
    && (if p in s.cache then LastAnswer(s.log, p) == Some(s.cache[p].result) else LastAnswer(s.log, p) == None)
    && Outstanding(s.log, p) == (if p in s.inFlight then 1 else 0)
    && (p in s.inFlight && s.inFlight[p] in s.lookups ==>
          s.lookups[s.inFlight[p]].cachedFailures == ConsecutiveFailures(s.log, p))
  }

  /** Every start in the history respects the window the history before it had opened. */
  ghost predicate StartsInWindow(o: Options, log: seq<Event>) {
    forall k :: 0 <= k < |log| && log[k].Started? ==>
      match OpenAt(o, log[..k], log[k].packageName)
      case None => true
      case Some(open) => open <= log[k].time
  }

  ghost predicate Consistent(o: Options, s: Loader) {
    && SlotsInOrder(o, s) && SingleFlight(s)
    && (forall p :: CacheMatches(o, s, p))
    && StartsInWindow(o, s.log)
  }

  lemma AppendEvent(o: Options, log: seq<Event>, e: Event, p: string)
    ensures var r := log + [e];
            && Outstanding(r, p) == Outstanding(log, p) + (if e.packageName != p then 0 else if e.Started? then 1 else -1)
            && ConsecutiveFailures(r, p) ==
               (if e.Finished? && e.packageName == p && e.outcome.Looked?
                then (if e.outcome.failed then ConsecutiveFailures(log, p) + 1 else 0)
                else ConsecutiveFailures(log, p))
            && OpenAt(o, r, p) ==
               (if e.Finished? && e.packageName == p && e.outcome.Looked?
                then Some(e.time + if e.outcome.failed then Window(o, ConsecutiveFailures(log, p) + 1) else o.ttlMs)
                else OpenAt(o, log, p))
            && LastAnswer(r, p) ==
               (if e.Finished? && e.packageName == p && e.outcome.Looked? then Some(e.outcome) else LastAnswer(log, p))
  {
    var r := log + [e];
    assert r[..|r| - 1] == log && Last(r) == e;
  }

  lemma StartsAfterAppend(o: Options, log: seq<Event>, e: Event)
    requires StartsInWindow(o, log)
    requires e.Started? ==> (OpenAt(o, log, e.packageName).Some? ==> OpenAt(o, log, e.packageName).value <= e.time)
    ensures StartsInWindow(o, log + [e])
  {
    var r := log + [e];
    forall k | 0 <= k < |r| && r[k].Started?
      ensures OpenAt(o, r[..k], r[k].packageName).Some? ==> OpenAt(o, r[..k], r[k].packageName).value <= r[k].time
    {
      if k < |log| {
        assert r[..k] == log[..k] && r[k] == log[k];
      } else {
        assert r[..k] == log;
      }
    }
  }

  lemma LoadKeepsCache(o: Options, s: Loader, packageName: string, now: int)
    requires Consistent(o, s)
    ensures var s' := LoadStep(o, s, packageName, now);
            (forall p :: CacheMatches(o, s', p)) && StartsInWindow(o, s'.log)
  {
    var s' := LoadStep(o, s, packageName, now);
    if s' != s {
      var e := Started(packageName, now);
      assert CacheMatches(o, s, packageName);
      StartsAfterAppend(o, s.log, e);
      forall p
        ensures CacheMatches(o, s', p)
      {
        AppendEvent(o, s.log, e, p);
        assert CacheMatches(o, s, p);
      }
    }
  }

  lemma FetchedKeepsCache(o: Options, s: Loader, id: nat, outcome: Outcome)
    requires Consistent(o, s)
    ensures var s' := FetchedStep(s, id, outcome);
            (forall p :: CacheMatches(o, s', p)) && StartsInWindow(o, s'.log)
  {
    var s' := FetchedStep(s, id, outcome);
    forall p
      ensures CacheMatches(o, s', p)
    {
      assert CacheMatches(o, s, p);
    }
  }

  lemma ResumeKeepsCache(o: Options, s: Loader, id: nat, now: int)
    requires Consistent(o, s)
    ensures var s' := ResumeStep(o, s, id, now);
            (forall p :: CacheMatches(o, s', p)) && StartsInWindow(o, s'.log)
  {
    var s' := ResumeStep(o, s, id, now);
    if s' != s {
      var lookup := s.lookups[id];
      var e := Finished(lookup.packageName, now, lookup.phase.outcome);
      StartsAfterAppend(o, s.log, e);
      FailureTtlIsWindow(o, lookup.cachedFailures + 1);
      forall p
        ensures CacheMatches(o, s', p)
      {
        AppendEvent(o, s.log, e, p);
        assert CacheMatches(o, s, p);
      }
    }
  }

  lemma {:induction false} RunKeepsConsistent(o: Options, s: Loader, steps: seq<Step>)
    requires Consistent(o, s)
    ensures Consistent(o, Run(o, s, steps))
    decreases |steps|
  {
    if steps != [] {
      NextKeepsSingleFlight(o, s, steps[0]);
      match steps[0] {
        case Load(packageName, now) =>
          LoadKeepsSlots(o, s, packageName, now);
          LoadKeepsCache(o, s, packageName, now);
        case Fetched(id, outcome) =>
          FetchedKeepsSlots(o, s, id, outcome);
          FetchedKeepsCache(o, s, id, outcome);
        case Resume(id, now) =>
          ResumeKeepsSlots(o, s, id, now);
          ResumeKeepsCache(o, s, id, now);
      }
      RunKeepsConsistent(o, Next(o, s, steps[0]), steps[1..]);
    }
  }

  // ----- the main results

  /** Over every interleaving: as many slots are counted as lookups hold, never more than allowed;
      someone waits only when all slots are held, and nobody who came later has overtaken; a package
      has at most one lookup outstanding; and once every lookup has finished, no slot is held and
      nobody waits. */
  lemma SlotsAndFlights(o: Options, steps: seq<Step>)
    ensures var s := Run(o, EMPTY, steps);
            && s.active == |HoldingIds(s)| <= o.concurrency
            && ((exists id: nat :: InPhase(s, id, Waiting)) ==> s.active == o.concurrency)
            && (forall a: nat, b: nat :: InPhase(s, a, Waiting) && a <= b < s.nextId ==> InPhase(s, b, Waiting))
            && (forall p :: 0 <= Outstanding(s.log, p) <= 1)
            && (s.lookups == map[] ==> s.active == 0 && s.waiting == [])
  {
    EmptyIsConsistent(o);
    RunKeepsConsistent(o, EMPTY, steps);
    var s := Run(o, EMPTY, steps);
    forall p
      ensures 0 <= Outstanding(s.log, p) <= 1
    {
      assert CacheMatches(o, s, p);
    }
    if s.lookups == map[] {
      assert HoldingIds(s) == {};
      assert s.waiting != [] ==> InPhase(s, s.nextId - |s.waiting|, Waiting);
    }
  }

  lemma EmptyIsConsistent(o: Options)
    ensures Consistent(o, EMPTY)
  {
    assert HoldingIds(EMPTY) == {};
    forall p
      ensures CacheMatches(o, EMPTY, p)
    {
    }
  }

  /** Over every interleaving: the cached failure count is the number of consecutive failures in the
      history, the cached answer is the last one that was reported, and no lookup starts before the
      window of the lookups before it has passed: for an answer ttlMs, for a failure the doubling
      window. */
  lemma BackOffHolds(o: Options, steps: seq<Step>, p: string)
    ensures var s := Run(o, EMPTY, steps);
            && CachedFailures(s.cache, p) == ConsecutiveFailures(s.log, p)
            && LastAnswer(s.log, p) == (if p in s.cache then Some(s.cache[p].result) else None)
            && StartsInWindow(o, s.log)
  {
    EmptyIsConsistent(o);
    RunKeepsConsistent(o, EMPTY, steps);
    assert CacheMatches(o, Run(o, EMPTY, steps), p);
  }

  /** Over every interleaving, by the history alone: a call starts a lookup exactly if none is
      outstanding for the package and the window of the last one, if any, has passed. */
  lemma StartsExactly(o: Options, steps: seq<Step>, p: string, now: int)
    ensures var s := Run(o, EMPTY, steps);
            var open := OpenAt(o, s.log, p);
            Next(o, s, Load(p, now)).log ==
              if Outstanding(s.log, p) == 0 && (open.Some? ==> open.value <= now) then s.log + [Started(p, now)] else s.log
  {
    EmptyIsConsistent(o);
    RunKeepsConsistent(o, EMPTY, steps);
    assert CacheMatches(o, Run(o, EMPTY, steps), p);
  }

  predicate Resumes(step: Step, id: nat) {
    step.Resume? && step.id == id
  }

  /** What a lookup has brought stays with it until its owner goes on. */
  lemma StaysSettled(o: Options, s: Loader, step: Step, id: nat, outcome: Outcome)
    requires SlotsInOrder(o, s) && InPhase(s, id, Settled(outcome)) && !Resumes(step, id)
    ensures InPhase(Next(o, s, step), id, Settled(outcome))
    ensures Next(o, s, step).lookups[id].packageName == s.lookups[id].packageName
  {
    assert s.waiting != [] ==> InPhase(s, s.waiting[0], Waiting);
  }

  /** The owner reports, and caches, the answer that its own fetch brought, whatever happens between. */
  lemma {:induction false} OutcomeIsReported(o: Options, s: Loader, between: seq<Step>, id: nat, outcome: Outcome, now: int)
    requires Consistent(o, s) && InPhase(s, id, Settled(outcome))
    requires forall step :: step in between ==> !Resumes(step, id)
    ensures var s' := Run(o, s, between);
            var packageName := s.lookups[id].packageName;
            && InPhase(s', id, Settled(outcome))
            && Next(o, s', Resume(id, now)).log == s'.log + [Finished(packageName, now, outcome)]
            && (outcome.Looked? ==> packageName in Next(o, s', Resume(id, now)).cache
                                    && Next(o, s', Resume(id, now)).cache[packageName].result == outcome)
    decreases |between|
  {
    if between != [] {
      StaysSettled(o, s, between[0], id, outcome);
      assert Run(o, s, [between[0]]) == Next(o, s, between[0]) by {
        assert [between[0]][1..] == [];
      }
      RunKeepsConsistent(o, s, [between[0]]);
      OutcomeIsReported(o, Next(o, s, between[0]), between[1..], id, outcome, now);
    }
  }

  /** A fetch settles the lookup that holds its slot with what it brought. */
  lemma FetchSettles(o: Options, s: Loader, id: nat, outcome: Outcome)
    requires SlotsInOrder(o, s) && InPhase(s, id, Holding)
    ensures InPhase(Next(o, s, Fetched(id, outcome)), id, Settled(outcome))
    ensures Next(o, s, Fetched(id, outcome)).lookups[id].packageName == s.lookups[id].packageName
  {
    assert s.waiting != [] ==> InPhase(s, s.waiting[0], Waiting);
  }

  /** The law of the window, for the formula of the source: the first failure waits failureTtlMs, each
      further one up to the 21st twice as long as the one before, none longer than failureMaxTtlMs, and
      from the 21st on it stays the same. */
  lemma WindowLaw(o: Options, failures: nat)
    requires failures >= 1
    ensures FailureTtl(o, 1) == Min(o.failureTtlMs, o.failureMaxTtlMs)
    ensures FailureTtl(o, failures + 1) ==
            if failures < 21 then Min(2 * FailureTtl(o, failures), o.failureMaxTtlMs) else FailureTtl(o, failures)
  {
    assert Pow2(0) == 1;
    if failures < 21 {
      assert Pow2(failures) == 2 * Pow2(failures - 1);
      DoubleScale(o.failureTtlMs, Pow2(failures - 1));
    }
  }

  lemma DoubleScale(k: nat, a: nat)
    ensures k * (2 * a) == 2 * (k * a) && 0 <= k * a
  {
  }

  lemma {:induction false} FailureTtlIsWindow(o: Options, failures: nat)
    requires failures >= 1
    ensures FailureTtl(o, failures) == Window(o, failures)
  {
    if failures == 1 {
      WindowLaw(o, 1);
    } else {
      FailureTtlIsWindow(o, failures - 1);
      WindowLaw(o, failures - 1);
    }
  }

  lemma {:induction false} Pow2Monotone(a: nat, b: nat)
    requires a <= b
    ensures 1 <= Pow2(a) <= Pow2(b)
    decreases b
  {
    if b > 0 {
      Pow2Monotone(if a < b then a else b - 1, b - 1);
    }
  }

  /** The window grows with the number of failures up to its ceiling. */
  lemma WindowMonotone(o: Options, a: nat, b: nat)
    requires 1 <= a <= b
    ensures Min(o.failureTtlMs, o.failureMaxTtlMs) <= FailureTtl(o, a) <= FailureTtl(o, b) <= o.failureMaxTtlMs
  {
    var x, y := Pow2(Min(a - 1, 20)), Pow2(Min(b - 1, 20));
    Pow2Monotone(Min(a - 1, 20), Min(b - 1, 20));
    ScaleMonotone(o.failureTtlMs, 1, x);
    ScaleMonotone(o.failureTtlMs, x, y);
  }

  lemma ScaleMonotone(k: nat, a: nat, b: nat)
    requires a <= b
    ensures k * a <= k * b
  {
  }

  /** A catalogue is ready when each of its packages has been looked up once. */
  predicate Ready(s: Loader, packages: seq<string>) {
    forall p :: p in packages ==> p in s.cache
  }

  /** Readiness is never lost. */
  lemma {:induction false} ReadyStays(o: Options, s: Loader, steps: seq<Step>, packages: seq<string>)
    requires Ready(s, packages)
    ensures Ready(Run(o, s, steps), packages)
    decreases |steps|
  {
    if steps != [] {
      ReadyStays(o, Next(o, s, steps[0]), steps[1..], packages);
    }
  }

  // ----- the loader as it runs

  /** `createMarketplaceStatisticsLoader`: the first four fields are its closure state; the rest
      stands for the suspended calls and the history. */
  class StatisticsLoaderState {
    const o: Options
    var cache: map<string, CacheEntry>
    var inFlight: map<string, nat>
    var waiting: seq<nat>
    var active: int
    var lookups: map<nat, Lookup>
    var nextId: nat
    var log: seq<Event>

    constructor (o: Options)
      ensures this.o == o && Current() == EMPTY
    {
      this.o := o;
      cache, inFlight, waiting, active := map[], map[], [], 0;
      lookups, nextId, log := map[], 0, [];
    }

    function Current(): Loader
      reads this
    {
      Loader(cache, inFlight, waiting, active, lookups, nextId, log)
    }

    /** A slot is taken at once, or the lookup queues for one. */
    method AcquireSlot(id: nat)
      requires id in lookups
      modifies this`active, this`waiting, this`lookups
      ensures if old(active) < o.concurrency
              then active == old(active) + 1 && waiting == old(waiting) && lookups == WithPhase(old(lookups), id, Holding)
              else active == old(active) && waiting == old(waiting) + [id] && lookups == old(lookups)
    {
      if active < o.concurrency {
        active := active + 1;
        lookups := WithPhase(lookups, id, Holding);
        return;
      }
      waiting := waiting + [id];
    }

    /** The slot goes to the first waiter; without one it is given back. */
    method ReleaseSlot()
      modifies this`active, this`waiting, this`lookups
      ensures if old(waiting) == []
              then active == old(active) - 1 && waiting == [] && lookups == old(lookups)
              else (active == old(active) && waiting == old(waiting)[1..]
                    && lookups == WithPhase(old(lookups), old(waiting)[0], Holding))
    {
      if waiting == [] {
        active := active - 1;
      } else {
        var next := waiting[0];
        waiting := waiting[1..];
        lookups := WithPhase(lookups, next, Holding);
      }
    }

    /** The synchronous part of loadPackage: a fresh entry, a shared lookup, or a new one. */
    method LoadPackage(packageName: string, now: int) returns (cached: Option<Outcome>, lookup: Option<nat>)
      modifies this
      ensures Current() == LoadStep(o, old(Current()), packageName, now)
      ensures cached.Some? <==> packageName in old(cache) && old(cache)[packageName].expiresAt > now
      ensures cached.Some? ==> cached.value == old(cache)[packageName].result
      ensures cached.None? ==> packageName in inFlight && lookup == Some(inFlight[packageName])
    {
      if packageName in cache && cache[packageName].expiresAt > now {
        return Some(cache[packageName].result), None;
      }
      if packageName in inFlight {
        return None, Some(inFlight[packageName]);
      }
      var id := nextId;
      nextId := nextId + 1;
      lookups := lookups[id := Lookup(packageName, CachedFailures(cache, packageName), Waiting)];
      AcquireSlot(id);
      inFlight := inFlight[packageName := id];
      log := log + [Started(packageName, now)];
      return None, Some(id);
    }

    /** The registry has answered; the finally clause releases the slot. */
    method FetchSettled(id: nat, outcome: Outcome)
      requires InPhase(Current(), id, Holding)
      modifies this
      ensures Current() == FetchedStep(old(Current()), id, outcome)
    {
      lookups := WithPhase(lookups, id, Settled(outcome));
      ReleaseSlot();
    }

    /** The call that started the lookup goes on after its await. */
    method ResumeOwner(id: nat, now: int) returns (outcome: Outcome)
      requires id in lookups && lookups[id].phase.Settled?
      modifies this
      ensures Current() == ResumeStep(o, old(Current()), id, now)
      ensures outcome == old(lookups)[id].phase.outcome
    {
      var lookup := lookups[id];
      outcome := lookup.phase.outcome;
      if outcome.Looked? {
        var failures := if outcome.failed then lookup.cachedFailures + 1 else 0;
        var window := if outcome.failed then FailureTtl(o, failures) else o.ttlMs;
        cache := cache[lookup.packageName := CacheEntry(now + window, failures, outcome)];
      }
      if lookup.packageName in inFlight && inFlight[lookup.packageName] == id {
        inFlight := inFlight - {lookup.packageName};
      }
      lookups := lookups - {id};
      log := log + [Finished(lookup.packageName, now, outcome)];
    }

    /** What is cached right now, and whether every package has been looked up once. */
    method ReadCached(packages: seq<string>, now: int) returns (ready: bool, statistics: map<string, nat>)
      modifies this
      ensures ready == Ready(old(Current()), packages)
      ensures forall p :: p in statistics <==>
                && p in packages && p in old(cache) && old(cache)[p].expiresAt > now
                && old(cache)[p].result.Looked? && old(cache)[p].result.statistics.Some?
      ensures forall p :: p in statistics ==> Some(statistics[p]) == old(cache)[p].result.statistics
      ensures Current() == Run(o, old(Current()), seq(|packages|, i requires 0 <= i < |packages| => Load(packages[i], now)))
    {
      ready, statistics := true, map[];
      ghost var steps := seq(|packages|, i requires 0 <= i < |packages| => Load(packages[i], now));
      var k := 0;
      while k < |packages|
        invariant 0 <= k <= |packages|
        invariant cache == old(cache)
        invariant ready <==> forall i :: 0 <= i < k ==> packages[i] in cache
        invariant forall p :: p in statistics <==>
          && p in packages[..k] && p in cache && cache[p].expiresAt > now
          && cache[p].result.Looked? && cache[p].result.statistics.Some?
        invariant forall p :: p in statistics ==> Some(statistics[p]) == cache[p].result.statistics
        invariant Run(o, Current(), steps[k..]) == Run(o, old(Current()), steps)
      {
        var packageName := packages[k];
        assert packages[..k + 1] == packages[..k] + [packageName];
        assert steps[k..][1..] == steps[k + 1..];
        if packageName !in cache {
          ready := false;
        }
        if packageName in cache && cache[packageName].expiresAt > now {
          var result := cache[packageName].result;
          if result.Looked? && result.statistics.Some? {
            statistics := statistics[packageName := result.statistics.value];
          }
        } else {
          var _, _ := LoadPackage(packageName, now);
        }
        k := k + 1;
      }
      assert packages[..k] == packages;
    }
  }
}
