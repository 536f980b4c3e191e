/** The tool timeline of the console: durable history rebuilt from session entries, bounded with a
    marker for what was left out, and joined with the live feed. */
module TrajectoryHistory {
  import opened Wrappers

  const MAX_TRAJECTORY_EVENTS := 2000

  /** What the two instants of a reconstructed call prove: nothing, the duration of the call, or the
      wall time of the batch it ran in. */
  datatype Timing = Unknown | Duration(ms: int) | BatchDuration(batchMs: int, calls: nat)

  datatype Event =
    | OmittedMarker(omitted: Option<int>, receivedAt: Option<int>)
    | ToolStart(callId: string, at: int)
    | ToolEnd(callId: string, at: int, timing: Timing, isError: bool)
    | ThinkingDelta(delta: string, clock: Option<int>)
    | OtherEvent(toolCallId: Option<string>, clock: Option<int>)

  function Clock(event: Event): Option<int> {
    match event
    case OmittedMarker(_, receivedAt) => receivedAt
    case ToolStart(_, at) => Some(at)
    case ToolEnd(_, at, _, _) => Some(at)
    case ThinkingDelta(_, clock) => clock
    case OtherEvent(_, clock) => clock
  }

  function CallId(event: Event): Option<string> {
    match event
    case OmittedMarker(_, _) => None
    case ToolStart(id, _) => Some(id)
    case ToolEnd(id, _, _, _) => Some(id)
    case ThinkingDelta(_, _) => None
    case OtherEvent(id, _) => id
  }

  // ----- bounding

  function Max(a: int, b: int): (r: int)
    ensures r >= a && r >= b && (r == a || r == b)
  {
    if a >= b then a else b
  }

  /** Position i is the first from `from` on that holds no tool end. */
  predicate FirstKept(source: seq<Event>, from: nat, i: nat) {
    && from <= i <= |source|
    && (forall k :: from <= k < i ==> source[k].ToolEnd?)
    && (i < |source| ==> !source[i].ToolEnd?)
  }

  lemma {:induction false} FirstKeptExists(source: seq<Event>, from: nat)
    requires from <= |source|
    ensures exists i: nat :: i <= |source| && FirstKept(source, from, i)
    decreases |source| - from
  {
    if from < |source| && source[from].ToolEnd? {
      FirstKeptExists(source, from + 1);
      var i: nat :| i <= |source| && FirstKept(source, from + 1, i);
      assert FirstKept(source, from, i);
    } else {
      assert FirstKept(source, from, from);
    }
  }

  function SkipEnds(source: seq<Event>, from: nat): (i: nat)
    requires from <= |source|
    ensures FirstKept(source, from, i)
  {
    FirstKeptExists(source, from);
    var i: nat :| i <= |source| && FirstKept(source, from, i);
    i
  }

  function HeadClock(events: seq<Event>): Option<int> {
    if events == [] then None else Clock(events[0])
  }

  function Source(events: seq<Event>): seq<Event> {
    if events != [] && events[0].OmittedMarker? then events[1..] else events
  }

  function AlreadyOmitted(events: seq<Event>): int {
    if events != [] && events[0].OmittedMarker? && events[0].omitted.Some? then events[0].omitted.value else 0
  }

  /** The marker with what is kept behind it. */
  function WithMarker(omitted: int, kept: seq<Event>): seq<Event> {
    [OmittedMarker(Some(omitted), HeadClock(kept))] + kept
  }

  /** Keep at most `limit - 1` events, none of them a leading tool end, behind a marker. */
  function Trim(omitted: int, source: seq<Event>, limit: nat): seq<Event>
    requires 1 <= limit <= |source| + 1
  {
    var first := SkipEnds(source, |source| - (limit - 1));
    WithMarker(omitted + first, source[first..])
  }

  function Bounded(events: seq<Event>, limit: int): seq<Event> {
    if |events| <= limit then events
    else if limit <= 0 then []
    else Trim(AlreadyOmitted(events), Source(events), limit)
  }

  /** `boundedHistoricalEvents`, with its loop and its separate case for a limit of one. */
  method BoundedHistoricalEvents(events: seq<Event>, limit: int) returns (r: seq<Event>)
    ensures r == Bounded(events, limit)
  {
    if |events| <= limit {
      return events;
    }
    if limit <= 0 {
      return [];
    }
    var source := Source(events);
    var existingOmitted := AlreadyOmitted(events);
    if limit == 1 {
      assert source[|source|..] == [];
      return [OmittedMarker(Some(existingOmitted + |source|), None)];
    }
    var firstRetained := Max(0, |source| - (limit - 1));
    ghost var start: nat := firstRetained;
    while firstRetained < |source| && source[firstRetained].ToolEnd?
      invariant start <= firstRetained <= |source|
      invariant forall k :: start <= k < firstRetained ==> source[k].ToolEnd?
    {
      firstRetained := firstRetained + 1;
    }
    TrimIs(existingOmitted, source, limit, firstRetained);
    var retained := source[firstRetained..];
    return [OmittedMarker(Some(existingOmitted + firstRetained), HeadClock(retained))] + retained;
  }

  lemma WithMarkerSource(omitted: int, kept: seq<Event>)
    ensures Source(WithMarker(omitted, kept)) == kept && AlreadyOmitted(WithMarker(omitted, kept)) == omitted
    ensures |WithMarker(omitted, kept)| == |kept| + 1
  {
  }

  /** Skipping again, from a later start inside or behind the skipped part. */
  lemma SkipAgain(source: seq<Event>, first: nat, from: nat)
    requires first <= from <= |source|
    ensures SkipEnds(source, from) == first + SkipEnds(source[first..], from - first)
  {
    var i := first + SkipEnds(source[first..], from - first);
    assert forall k :: from <= k < i ==> source[k] == source[first..][k - first];
    assert FirstKept(source, from, i);
  }

  /** Bounding what a marker already heads. */
  lemma BoundedMarked(omitted: int, kept: seq<Event>, m: nat)
    requires 1 <= m
    ensures Bounded(WithMarker(omitted, kept), m)
         == if |kept| + 1 <= m then WithMarker(omitted, kept) else Trim(omitted, kept, m)
  {
    WithMarkerSource(omitted, kept);
  }

  lemma TrimIs(omitted: int, source: seq<Event>, limit: nat, first: nat)
    requires 1 <= limit <= |source| + 1 && FirstKept(source, |source| - (limit - 1), first)
    ensures Trim(omitted, source, limit) == WithMarker(omitted + first, source[first..])
  {
  }

  lemma TrimAgain(omitted: int, source: seq<Event>, first: nat, m: nat)
    requires 1 <= m && first + m <= |source| + 1
    ensures Trim(omitted + first, source[first..], m) == Trim(omitted, source, m)
  {
    var kept := source[first..];
    var second := SkipEnds(kept, |kept| - (m - 1));
    SkipAgain(source, first, |source| - (m - 1));
    DropTwice(source, first, second);
    TrimIs(omitted + first, kept, m, second);
    TrimIs(omitted, source, m, first + second);
  }

  lemma TrimInStages(omitted: int, source: seq<Event>, n: nat, m: nat)
    requires 1 <= m <= n <= |source| + 1
    ensures Bounded(Trim(omitted, source, n), m) == Trim(omitted, source, m)
  {
    var first := SkipEnds(source, |source| - (n - 1));
    TrimIs(omitted, source, n, first);
    BoundedMarked(omitted + first, source[first..], m);
    if |source| - first + 1 <= m {
      assert FirstKept(source, |source| - (m - 1), first);
      TrimIs(omitted, source, m, first);
    } else {
      TrimAgain(omitted, source, first, m);
    }
  }

  /** Bounding in stages is bounding once. */
  lemma BoundedInStages(events: seq<Event>, n: int, m: int)
    requires 1 <= m <= n
    ensures Bounded(Bounded(events, n), m) == Bounded(events, m)
  {
    if |events| > n {
      TrimInStages(AlreadyOmitted(events), Source(events), n, m);
    }
  }

  /** A last part of the events behind a marker that counts the others and carries the clock of the first
      one kept: of the last `limit - 1` events all but the tool ends that they would start with. */
  ghost predicate Shortened(events: seq<Event>, r: seq<Event>, limit: int) {
    var source, kept := Source(events), Source(r);
    && r != [] && |r| <= limit && |kept| <= |source| && kept == source[|source| - |kept|..]
    && r[0].OmittedMarker? && r[0].omitted == Some(AlreadyOmitted(events) + |source| - |kept|)
    && (if kept == [] then r[0].receivedAt.None? else r[0].receivedAt == Clock(kept[0]))
    && (kept != [] ==> !kept[0].ToolEnd?)
    && forall k :: Max(0, |source| - (limit - 1)) <= k < |source| - |kept| ==> source[k].ToolEnd?
  }

  lemma MarkedIsShortened(events: seq<Event>, limit: nat, first: nat)
    requires 1 <= limit && first <= |Source(events)|
    requires FirstKept(Source(events), Max(0, |Source(events)| - (limit - 1)), first)
    ensures var r := WithMarker(AlreadyOmitted(events) + first, Source(events)[first..]);
            Shortened(events, r, limit) && AlreadyOmitted(r) + |Source(r)| == AlreadyOmitted(events) + |Source(events)|
  {
    WithMarkerSource(AlreadyOmitted(events) + first, Source(events)[first..]);
  }

  /** What was left out and what is kept make up the whole, and nothing is left out that fits. */
  lemma BoundedConserves(events: seq<Event>, limit: int)
    requires limit >= 1
    ensures var r := Bounded(events, limit);
            && |r| <= limit
            && AlreadyOmitted(r) + |Source(r)| == AlreadyOmitted(events) + |Source(events)|
            && if |events| <= limit then r == events else Shortened(events, r, limit)
  {
    if |events| > limit {
      MarkedIsShortened(events, limit, SkipEnds(Source(events), |Source(events)| - (limit - 1)));
    }
  }

  // ----- history from session entries

  datatype Entry =
    | AssistantCalls(clock: int, calls: seq<string>)
    | ToolResult(clock: int, callId: string, isError: bool)
    | Irrelevant

  datatype Start = Start(clock: int, batchSize: nat)

  function TimingOf(starts: map<string, Start>, callId: string, clock: int): Timing {
    if callId !in starts then Unknown
    else
      var elapsed := Max(0, clock - starts[callId].clock);
      if starts[callId].batchSize > 1 then BatchDuration(elapsed, starts[callId].batchSize) else Duration(elapsed)
  }

  function StartEvents(clock: int, calls: seq<string>): (r: seq<Event>)
    ensures |r| == |calls| && forall i :: 0 <= i < |r| ==> r[i] == ToolStart(calls[i], clock)
  {
    seq(|calls|, i requires 0 <= i < |calls| => ToolStart(calls[i], clock))
  }

  function StartsAfter(starts: map<string, Start>, clock: int, calls: seq<string>): map<string, Start> {
    map id | id in starts.Keys + Elems(calls) :: if id in calls then Start(clock, |calls|) else starts[id]
  }

  /** The starts known after a list of entries. */
  function Starts(entries: seq<Entry>): map<string, Start> {
    if entries == [] then map[]
    else
      var before := Starts(entries[..|entries| - 1]);
      var last := Last(entries);
      if last.AssistantCalls? then StartsAfter(before, last.clock, last.calls) else before
  }

  /** The timeline of a list of entries, before bounding. */
  function Timeline(entries: seq<Entry>): seq<Event> {
    if entries == [] then []
    else
      var front := entries[..|entries| - 1];
      match Last(entries)
      case AssistantCalls(clock, calls) => Timeline(front) + StartEvents(clock, calls)
      case ToolResult(clock, callId, isError) =>
        Timeline(front) + [ToolEnd(callId, clock, TimingOf(Starts(front), callId, clock), isError)]
      case Irrelevant => Timeline(front)
  }

  /** `historicalTrajectoryEvents`: two collections filled in one pass over the entries. */
  method HistoricalTrajectoryEvents(entries: seq<Entry>) returns (r: seq<Event>)
    ensures r == Bounded(Timeline(entries), MAX_TRAJECTORY_EVENTS)
  {
    var events: seq<Event> := [];
    var startedAt: map<string, Start> := map[];
    var n := 0;
    while n < |entries|
      invariant 0 <= n <= |entries|
      invariant events == Timeline(entries[..n]) && startedAt == Starts(entries[..n])
    {
      assert entries[..n + 1][..n] == entries[..n];
      match entries[n] {
        case AssistantCalls(clock, calls) =>
          events, startedAt := PushCalls(events, startedAt, clock, calls);
        case ToolResult(clock, callId, isError) =>
          events := events + [ToolEnd(callId, clock, TimingOf(startedAt, callId, clock), isError)];
        case Irrelevant =>
      }
      n := n + 1;
    }
    assert entries[..n] == entries;
    r := BoundedHistoricalEvents(events, MAX_TRAJECTORY_EVENTS);
  }

  method PushCalls(events: seq<Event>, startedAt: map<string, Start>, clock: int, calls: seq<string>)
    returns (pushed: seq<Event>, started: map<string, Start>)
    ensures pushed == events + StartEvents(clock, calls)
    ensures started == StartsAfter(startedAt, clock, calls)
  {
    pushed, started := events, startedAt;
    var k := 0;
    while k < |calls|
      invariant 0 <= k <= |calls|
      invariant pushed == events + StartEvents(clock, calls)[..k]
      invariant started.Keys == startedAt.Keys + Elems(calls[..k])
      invariant forall id :: id in started ==>
        started[id] == if id in calls[..k] then Start(clock, |calls|) else startedAt[id]
    {
      assert calls[..k + 1] == calls[..k] + [calls[k]];
      started := started[calls[k] := Start(clock, |calls|)];
      pushed := pushed + [ToolStart(calls[k], clock)];
      k := k + 1;
    }
    assert calls[..k] == calls;
  }

  /** The last assistant entry before position n that asked for the call. */
  ghost predicate AskedAt(entries: seq<Entry>, n: nat, callId: string, k: nat) {
    && k < n <= |entries| && entries[k].AssistantCalls? && callId in entries[k].calls
    && forall j :: k < j < n ==> entries[j].AssistantCalls? ==> callId !in entries[j].calls
  }

  lemma {:induction false} StartsSound(entries: seq<Entry>, callId: string) returns (k: nat)
    requires callId in Starts(entries)
    ensures AskedAt(entries, |entries|, callId, k)
    ensures Starts(entries)[callId] == Start(entries[k].clock, |entries[k].calls|)
  {
    var front := entries[..|entries| - 1];
    var last := Last(entries);
    if last.AssistantCalls? && callId in last.calls {
      k := |entries| - 1;
    } else {
      k := StartsSound(front, callId);
      assert forall j :: 0 <= j < |front| ==> front[j] == entries[j];
    }
  }

  /** A duration is shown only for a call that was alone in its assistant entry: it is the time, not
      below zero, from the last entry that asked for the call to its result. */
  lemma {:induction false} DurationsAreProven(entries: seq<Entry>, i: nat) returns (n: nat, k: nat)
    requires i < |Timeline(entries)|
    requires Timeline(entries)[i].ToolEnd? && Timeline(entries)[i].timing.Duration?
    ensures var e := Timeline(entries)[i];
            && n < |entries| && entries[n] == ToolResult(e.at, e.callId, e.isError)
            && AskedAt(entries, n, e.callId, k) && |entries[k].calls| == 1
            && e.timing == Duration(Max(0, e.at - entries[k].clock))
  {
    var front := entries[..|entries| - 1];
    if i < |Timeline(front)| {
      n, k := DurationsAreProven(front, i);
      assert forall j :: 0 <= j < |front| ==> front[j] == entries[j];
    } else {
      n := |front|;
      k := StartsSound(front, Last(entries).callId);
      assert forall j :: 0 <= j < |front| ==> front[j] == entries[j];
    }
  }

  // ----- history and live feed

  function MinClock(events: seq<Event>): Option<int> {
    if events == [] then None
    else
      var rest := MinClock(events[1..]);
      match Clock(events[0])
      case None => rest
      case Some(t) => if rest.None? then Some(t) else Some(if t <= rest.value then t else rest.value)
  }

  function LiveIds(live: seq<Event>): set<string> {
    set event | event in live && CallId(event).Some? :: CallId(event).value
  }

  predicate KeepsHistory(live: seq<Event>, event: Event) {
    && !(CallId(event).Some? && CallId(event).value in LiveIds(live))
    && (MinClock(live).None? || (Clock(event).Some? && Clock(event).value < MinClock(live).value))
  }

  function LastLive(live: seq<Event>): seq<Event> {
    if |live| > MAX_TRAJECTORY_EVENTS then live[|live| - MAX_TRAJECTORY_EVENTS..] else live
  }

  function Merge(entries: seq<Entry>, live: seq<Event>): seq<Event> {
    var historical := Bounded(Timeline(entries), MAX_TRAJECTORY_EVENTS);
    if live == [] then historical
    else
      var retained := Filter((event: Event) => KeepsHistory(live, event), historical);
      Bounded(retained, MAX_TRAJECTORY_EVENTS - |LastLive(live)|) + LastLive(live)
  }

  lemma {:induction false} MinClockIsLeast(events: seq<Event>, event: Event)
    requires event in events && Clock(event).Some?
    ensures MinClock(events).Some? && MinClock(events).value <= Clock(event).value
  {
    if event != events[0] {
      MinClockIsLeast(events[1..], event);
    }
  }

  /** The history part of a merged timeline. */
  function MergeHead(entries: seq<Entry>, live: seq<Event>): seq<Event> {
    Bounded(Filter((event: Event) => KeepsHistory(live, event), Bounded(Timeline(entries), MAX_TRAJECTORY_EVENTS)),
            MAX_TRAJECTORY_EVENTS - |LastLive(live)|)
  }

  /** The merged timeline is bounded and ends in the live feed. */
  lemma MergeBounded(entries: seq<Entry>, live: seq<Event>)
    requires live != []
    ensures Merge(entries, live) == MergeHead(entries, live) + LastLive(live)
    ensures |Merge(entries, live)| <= MAX_TRAJECTORY_EVENTS
  {
    var retained := Filter((event: Event) => KeepsHistory(live, event), Bounded(Timeline(entries), MAX_TRAJECTORY_EVENTS));
    var room := MAX_TRAJECTORY_EVENTS - |LastLive(live)|;
    if room >= 1 {
      BoundedConserves(retained, room);
    }
  }

  /** In front of the feed stand only events of the rebuilt history, or a marker; none belongs to a
      call the feed knows, and none is as late as anything in the feed. */
  lemma MergeSeparates(entries: seq<Entry>, live: seq<Event>, event: Event)
    requires event in MergeHead(entries, live) && !event.OmittedMarker?
    ensures event in Timeline(entries)
    ensures CallId(event).Some? ==> CallId(event).value !in LiveIds(live)
    ensures forall other :: other in live && Clock(other).Some? && Clock(event).Some? ==>
              Clock(event).value < Clock(other).value
  {
    var historical := Bounded(Timeline(entries), MAX_TRAJECTORY_EVENTS);
    var retained := Filter((e: Event) => KeepsHistory(live, e), historical);
    BoundedFrom(retained, MAX_TRAJECTORY_EVENTS - |LastLive(live)|, event);
    assert KeepsHistory(live, event) && event in historical;
    BoundedFrom(Timeline(entries), MAX_TRAJECTORY_EVENTS, event);
    forall other | other in live && Clock(other).Some? && Clock(event).Some?
      ensures Clock(event).value < Clock(other).value
    {
      MinClockIsLeast(live, other);
    }
  }

  lemma BoundedFrom(events: seq<Event>, limit: int, event: Event)
    requires event in Bounded(events, limit) && !event.OmittedMarker?
    ensures event in events
  {
  }

  // ----- thinking deltas

  /** Append one event, joining a thinking delta onto one in front of it. */
  function PushCompact(compacted: seq<Event>, event: Event): seq<Event> {
    if event.ThinkingDelta? && compacted != [] && Last(compacted).ThinkingDelta? then
      compacted[|compacted| - 1 := Last(compacted).(delta := Last(compacted).delta + event.delta)]
    else compacted + [event]
  }

  function CompactOnto(compacted: seq<Event>, events: seq<Event>): seq<Event>
    decreases |events|
  {
    if events == [] then compacted else CompactOnto(PushCompact(compacted, events[0]), events[1..])
  }

  /** `compactThinkingEvents`, which overwrites the last slot of its result. */
  method CompactThinkingEvents(events: seq<Event>) returns (compacted: seq<Event>)
    ensures compacted == CompactOnto([], events)
  {
    compacted := [];
    var k := 0;
    while k < |events|
      invariant 0 <= k <= |events|
      invariant CompactOnto(compacted, events[k..]) == CompactOnto([], events)
    {
      var event := events[k];
      assert events[k..][1..] == events[k + 1..];
      if event.ThinkingDelta? && compacted != [] && Last(compacted).ThinkingDelta? {
        var previous := Last(compacted);
        compacted := compacted[|compacted| - 1 := ThinkingDelta(previous.delta + event.delta, previous.clock)];
      } else {
        compacted := compacted + [event];
      }
      k := k + 1;
    }
  }

  /** No two thinking deltas stand side by side. */
  ghost predicate Compacted(events: seq<Event>) {
    forall k :: 0 <= k < |events| - 1 ==> !(events[k].ThinkingDelta? && events[k + 1].ThinkingDelta?)
  }

  function ThinkingText(events: seq<Event>): string {
    if events == [] then "" else ThinkingText(events[..|events| - 1]) + (if Last(events).ThinkingDelta? then Last(events).delta else "")
  }

  function NonThinking(events: seq<Event>): seq<Event> {
    if events == [] then []
    else NonThinking(events[..|events| - 1]) + (if Last(events).ThinkingDelta? then [] else [Last(events)])
  }

  lemma PushCompactKeeps(compacted: seq<Event>, event: Event)
    requires Compacted(compacted)
    ensures Compacted(PushCompact(compacted, event))
    ensures ThinkingText(PushCompact(compacted, event)) == ThinkingText(compacted) + (if event.ThinkingDelta? then event.delta else "")
    ensures NonThinking(PushCompact(compacted, event)) == NonThinking(compacted) + (if event.ThinkingDelta? then [] else [event])
  {
    var r := PushCompact(compacted, event);
    if event.ThinkingDelta? && compacted != [] && Last(compacted).ThinkingDelta? {
      assert r[..|r| - 1] == compacted[..|compacted| - 1];
    } else {
      assert r[..|r| - 1] == compacted;
    }
  }

  /** Compaction conserves the text of the reasoning and every other event, in order, and leaves no
      two thinking deltas side by side. */
  lemma {:induction false} CompactConserves(compacted: seq<Event>, events: seq<Event>)
    requires Compacted(compacted)
    ensures var r := CompactOnto(compacted, events);
            && Compacted(r)
            && ThinkingText(r) == ThinkingText(compacted + events)
            && NonThinking(r) == NonThinking(compacted + events)
    decreases |events|
  {
    TextOfConcat(compacted, events);
    if events != [] {
      PushCompactKeeps(compacted, events[0]);
      CompactConserves(PushCompact(compacted, events[0]), events[1..]);
      TextOfConcat(PushCompact(compacted, events[0]), events[1..]);
      TextOfHead(events);
      var e := events[0];
      Associative(ThinkingText(compacted), if e.ThinkingDelta? then e.delta else "", ThinkingText(events[1..]));
      Associative(NonThinking(compacted), if e.ThinkingDelta? then [] else [e], NonThinking(events[1..]));
    }
  }

  lemma Associative<T>(a: seq<T>, b: seq<T>, c: seq<T>)
    ensures (a + b) + c == a + (b + c)
  {
  }

  lemma TextOfHead(events: seq<Event>)
    requires events != []
    ensures ThinkingText(events) == (if events[0].ThinkingDelta? then events[0].delta else "") + ThinkingText(events[1..])
    ensures NonThinking(events) == (if events[0].ThinkingDelta? then [] else [events[0]]) + NonThinking(events[1..])
  {
    var head := [events[0]];
    assert events == head + events[1..];
    assert head[..|head| - 1] == [];
    TextOfConcat(head, events[1..]);
  }

  lemma {:induction false} TextOfConcat(a: seq<Event>, b: seq<Event>)
    ensures ThinkingText(a + b) == ThinkingText(a) + ThinkingText(b)
    ensures NonThinking(a + b) == NonThinking(a) + NonThinking(b)
  {
    if b == [] {
      assert a + b == a;
    } else {
      var front := b[..|b| - 1];
      assert (a + b)[..|a + b| - 1] == a + front;
      TextOfConcat(a, front);
    }
  }

  /** Compacting what is compact changes nothing. */
  lemma {:induction false} CompactIdempotent(done: seq<Event>, events: seq<Event>)
    requires Compacted(done + events)
    ensures CompactOnto(done, events) == done + events
    decreases |events|
  {
    if events == [] {
      assert done + events == done;
    } else {
      assert (done + events)[|done|] == events[0];
      if done != [] {
        assert (done + events)[|done| - 1] == Last(done);
      }
      assert done + [events[0]] + events[1..] == done + events;
      CompactIdempotent(done + [events[0]], events[1..]);
    }
  }

  /** Compacting piece by piece is compacting the whole. */
  lemma {:induction false} CompactInPieces(compacted: seq<Event>, a: seq<Event>, b: seq<Event>)
    ensures CompactOnto(CompactOnto(compacted, a), b) == CompactOnto(compacted, a + b)
    decreases |a|
  {
    if a == [] {
      assert a + b == b;
    } else {
      assert (a + b)[1..] == a[1..] + b;
      CompactInPieces(PushCompact(compacted, a[0]), a[1..], b);
    }
  }
}
