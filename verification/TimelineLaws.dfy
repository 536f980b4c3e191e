/** What the rebuilt timeline holds, entry by entry, and which of it a merge with the live feed keeps. */
module TimelineLaws {
  import opened Wrappers
  import opened TrajectoryHistory

  // ----- every entry has its place

  /** How many events an entry stands for. */
  function Width(entry: Entry): nat {
    match entry
    case AssistantCalls(_, calls) => |calls|
    case ToolResult(_, _, _) => 1
    case Irrelevant => 0
  }

  function Widths(entries: seq<Entry>): nat {
    if entries == [] then 0 else Widths(entries[..|entries| - 1]) + Width(Last(entries))
  }

  /** What two instants prove about the call that entry n reports the result of: nothing if no entry in
      front of it asked for the call, else the time, not below zero, since the last one that did, as the
      duration of the call if it asked for that call alone and of the batch if it asked for several. */
  ghost predicate TimedBy(entries: seq<Entry>, n: nat, callId: string, clock: int, timing: Timing) {
    match timing
    case Unknown => forall k: nat :: !AskedAt(entries, n, callId, k)
    case Duration(ms) =>
      exists k: nat :: AskedAt(entries, n, callId, k) && |entries[k].calls| == 1 && ms == Max(0, clock - entries[k].clock)
    case BatchDuration(ms, calls) =>
      exists k: nat ::
        AskedAt(entries, n, callId, k) && |entries[k].calls| == calls > 1 && ms == Max(0, clock - entries[k].clock)
  }

  /** The events from position `at` on are those of entry n. */
  ghost predicate StandsAt(entries: seq<Entry>, n: nat, events: seq<Event>, at: nat)
    requires n < |entries|
  {
    match entries[n]
    case AssistantCalls(clock, calls) =>
      at + |calls| <= |events| && forall j :: 0 <= j < |calls| ==> events[at + j] == ToolStart(calls[j], clock)
    case ToolResult(clock, callId, isError) =>
      && at < |events| && events[at].ToolEnd?
      && events[at] == ToolEnd(callId, clock, events[at].timing, isError)
      && TimedBy(entries, n, callId, clock, events[at].timing)
    case Irrelevant => true
  }

  lemma AskedInFront(entries: seq<Entry>, front: seq<Entry>, n: nat, callId: string, k: nat)
    requires |front| + 1 == |entries| && front == entries[..|front|] && n <= |front|
    ensures AskedAt(front, n, callId, k) <==> AskedAt(entries, n, callId, k)
  {
    assert forall j :: 0 <= j < |front| ==> front[j] == entries[j];
  }

  lemma {:induction false} StartsComplete(entries: seq<Entry>, callId: string, k: nat)
    requires AskedAt(entries, |entries|, callId, k)
    ensures callId in Starts(entries)
    ensures Starts(entries)[callId] == Start(entries[k].clock, |entries[k].calls|)
  {
    var front := entries[..|entries| - 1];
    var last := Last(entries);
    if k < |front| {
      AskedInFront(entries, front, |front|, callId, k);
      assert AskedAt(entries, |front|, callId, k);
      StartsComplete(front, callId, k);
      assert last.AssistantCalls? ==> callId !in last.calls;
    }
  }

  /** The timing that the pass computes from its map is the one that the entries prove. */
  lemma TimingIsProven(front: seq<Entry>, last: Entry, callId: string, clock: int)
    ensures TimedBy(front + [last], |front|, callId, clock, TimingOf(Starts(front), callId, clock))
  {
    var entries := front + [last];
    forall k: nat
      ensures AskedAt(front, |front|, callId, k) <==> AskedAt(entries, |front|, callId, k)
    {
      AskedInFront(entries, front, |front|, callId, k);
    }
    if callId in Starts(front) {
      var k := StartsSound(front, callId);
      assert AskedAt(entries, |front|, callId, k) && entries[k] == front[k];
    } else {
      forall k: nat
        ensures !AskedAt(front, |front|, callId, k)
      {
        if AskedAt(front, |front|, callId, k) {
          StartsComplete(front, callId, k);
        }
      }
    }
  }

  /** What stands in the timeline of the entries in front, stands there still. */
  lemma StillStands(entries: seq<Entry>, front: seq<Entry>, n: nat, events: seq<Event>, more: seq<Event>, at: nat)
    requires |front| + 1 == |entries| && front == entries[..|front|] && n < |front|
    requires StandsAt(front, n, events, at)
    ensures StandsAt(entries, n, events + more, at)
  {
    assert front[n] == entries[n];
    if entries[n].ToolResult? {
      var e := entries[n];
      assert (events + more)[at] == events[at];
      forall k: nat
        ensures AskedAt(front, n, e.callId, k) <==> AskedAt(entries, n, e.callId, k)
        ensures k < n ==> front[k] == entries[k]
      {
        AskedInFront(entries, front, n, e.callId, k);
      }
      SameTiming(front, entries, n, e.callId, e.clock, events[at].timing);
    }
  }

  lemma SameTiming(a: seq<Entry>, b: seq<Entry>, n: nat, callId: string, clock: int, timing: Timing)
    requires forall k: nat :: AskedAt(a, n, callId, k) <==> AskedAt(b, n, callId, k)
    requires n <= |a| && n <= |b| && forall k: nat :: k < n ==> a[k] == b[k]
    requires TimedBy(a, n, callId, clock, timing)
    ensures TimedBy(b, n, callId, clock, timing)
  {
    match timing {
      case Unknown =>
      case Duration(ms) =>
        var k: nat :| AskedAt(a, n, callId, k) && |a[k].calls| == 1 && ms == Max(0, clock - a[k].clock);
        assert AskedAt(b, n, callId, k);
      case BatchDuration(ms, calls) =>
        var k: nat :| AskedAt(a, n, callId, k) && |a[k].calls| == calls > 1 && ms == Max(0, clock - a[k].clock);
        assert AskedAt(b, n, callId, k);
    }
  }

  /** The timeline is exactly the entries, one behind the other: of an assistant entry the start of each
      of its calls, in order and at its clock; of a tool result its end, with id, clock, error flag and
      the timing that the entries in front of it prove; and nothing else. */
  lemma {:induction false} TimelineExactly(entries: seq<Entry>)
    ensures |Timeline(entries)| == Widths(entries)
    ensures forall n: nat :: n < |entries| ==> StandsAt(entries, n, Timeline(entries), Widths(entries[..n]))
  {
    if entries != [] {
      var front, last := entries[..|entries| - 1], Last(entries);
      TimelineExactly(front);
      assert entries == front + [last];
      var more := Timeline(entries)[|Timeline(front)|..];
      assert Timeline(entries) == Timeline(front) + more;
      LastStands(front, last);
      forall n: nat | n < |entries|
        ensures StandsAt(entries, n, Timeline(entries), Widths(entries[..n]))
      {
        if n < |front| {
          assert entries[..n] == front[..n];
          StillStands(entries, front, n, Timeline(front), more, Widths(front[..n]));
        } else {
          assert entries[..n] == front;
        }
      }
    }
  }

  lemma LastStands(front: seq<Entry>, last: Entry)
    requires |Timeline(front)| == Widths(front)
    ensures StandsAt(front + [last], |front|, Timeline(front + [last]), Widths(front))
    ensures |Timeline(front + [last])| == Widths(front) + Width(last)
    ensures Timeline(front) <= Timeline(front + [last])
  {
    var entries := front + [last];
    assert entries[..|entries| - 1] == front && Last(entries) == last;
    if last.ToolResult? {
      TimingIsProven(front, last, last.callId, last.clock);
    }
  }

  // ----- what a merge keeps

  /** The event belongs to no call of the feed and is earlier than all of the feed. */
  ghost predicate Earlier(live: seq<Event>, event: Event) {
    && (forall other :: other in live && CallId(other).Some? ==> CallId(event) != CallId(other))
    && (forall other :: other in live && Clock(other).Some? ==>
          Clock(event).Some? && Clock(event).value < Clock(other).value)
  }

  lemma {:induction false} MinClockIsReached(events: seq<Event>) returns (event: Event)
    requires MinClock(events).Some?
    ensures event in events && Clock(event) == MinClock(events)
  {
    if Clock(events[0]) == MinClock(events) {
      event := events[0];
    } else {
      event := MinClockIsReached(events[1..]);
    }
  }

  lemma KeepsExactly(live: seq<Event>, event: Event)
    ensures KeepsHistory(live, event) <==> Earlier(live, event)
  {
    if MinClock(live).Some? {
      var least := MinClockIsReached(live);
    }
    forall other | other in live && Clock(other).Some?
      ensures MinClock(live).Some? && MinClock(live).value <= Clock(other).value
    {
      MinClockIsLeast(live, other);
    }
    if CallId(event).Some? {
      assert CallId(event).value in LiveIds(live) <==> exists other :: other in live && CallId(other) == CallId(event) by {
        if other :| other in live && CallId(other) == CallId(event) {
          assert CallId(other).value in LiveIds(live);
        }
      }
    }
  }

  ghost function EarlierOf(events: seq<Event>, live: seq<Event>): seq<Event> {
    if events == [] then []
    else EarlierOf(events[..|events| - 1], live) + if Earlier(live, Last(events)) then [Last(events)] else []
  }

  lemma {:induction false} FilterAppended(live: seq<Event>, events: seq<Event>, e: Event)
    ensures Filter((event: Event) => KeepsHistory(live, event), events + [e])
         == Filter((event: Event) => KeepsHistory(live, event), events) + if KeepsHistory(live, e) then [e] else []
  {
    if events == [] {
      assert [e][1..] == [];
    } else {
      FilterAppended(live, events[1..], e);
      assert (events + [e])[1..] == events[1..] + [e];
    }
  }

  lemma {:induction false} FilterIsEarlier(live: seq<Event>, events: seq<Event>)
    ensures Filter((event: Event) => KeepsHistory(live, event), events) == EarlierOf(events, live)
  {
    if events != [] {
      var front, last := events[..|events| - 1], Last(events);
      FilterIsEarlier(live, front);
      FilterAppended(live, front, last);
      KeepsExactly(live, last);
      assert events == front + [last];
    }
  }

  /** A merge is the history that is earlier than the feed and of no call of it, all of it and in order
      if the bound leaves room and shortened if not, followed by the latest events of the feed. */
  lemma MergeExactly(entries: seq<Entry>, live: seq<Event>)
    requires live != []
    ensures var history := EarlierOf(Bounded(Timeline(entries), MAX_TRAJECTORY_EVENTS), live);
            var latest := live[Max(0, |live| - MAX_TRAJECTORY_EVENTS)..];
            var room := MAX_TRAJECTORY_EVENTS - |latest|;
            var head := MergeHead(entries, live);
            && Merge(entries, live) == head + latest
            && (if |history| <= room then head == history
                else if room < 1 then head == []
                else Shortened(history, head, room))
  {
    var historical := Bounded(Timeline(entries), MAX_TRAJECTORY_EVENTS);
    FilterIsEarlier(live, historical);
    MergeBounded(entries, live);
    var room := MAX_TRAJECTORY_EVENTS - |LastLive(live)|;
    if 1 <= room < |EarlierOf(historical, live)| {
      BoundedConserves(EarlierOf(historical, live), room);
    }
  }

  /** In particular, a historical event that is earlier than the feed and of no call of it is kept
      whenever the bound leaves room. */
  lemma EarlierIsKept(entries: seq<Entry>, live: seq<Event>, event: Event)
    requires live != [] && event in Bounded(Timeline(entries), MAX_TRAJECTORY_EVENTS) && Earlier(live, event)
    requires |EarlierOf(Bounded(Timeline(entries), MAX_TRAJECTORY_EVENTS), live)| <= MAX_TRAJECTORY_EVENTS - |LastLive(live)|
    ensures event in Merge(entries, live)
  {
    MergeExactly(entries, live);
    var historical := Bounded(Timeline(entries), MAX_TRAJECTORY_EVENTS);
    FilterIsEarlier(live, historical);
    KeepsExactly(live, event);
  }
}
