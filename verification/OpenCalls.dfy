/** The open tool calls of the event stream in any history, also in one that opens more calls than the
    map may hold: which of them are pushed out, and what their ends then carry. */
module OpenCalls {
  import opened Wrappers
  import opened EventStream

  /** Where a call stands: when it was last started, and which open calls came behind it. */
  datatype Place = Place(startedAt: int, behind: set<string>)

  /** As many calls came behind it as there may be: the next start pushes it out. */
  predicate IsNextOut(place: Option<Place>) {
    place.Some? && |place.value.behind| == MAX_PENDING_TOOL_CALLS - 1
  }

  /** What an event does to the place of one call, given also the place of the call it is about. A
      call that starts again keeps its place, unless that start pushes it out. */
  function PlaceAfter(mine: Option<Place>, its: Option<Place>, event: Event, now: int, id: string): Option<Place> {
    if Clears(event) then None
    else if event.toolCallId.None? then mine
    else
      var other := event.toolCallId.value;
      if event.kind.ToolStart? then
        if other == id then Some(Place(now, if mine.Some? && !IsNextOut(mine) then mine.value.behind else {}))
        else if mine.None? || IsNextOut(mine) then None
        else if its.Some? && !IsNextOut(its) then mine
        else Some(mine.value.(behind := mine.value.behind + {other}))
      else if event.kind.ToolEnd? then
        if other == id || mine.None? then None
        else Some(mine.value.(behind := mine.value.behind - {other}))
      else mine
  }

  /** The place of a call after a history, found by counting calls, without the map. */
  function Track(history: seq<Input>, id: string): Option<Place>
    decreases |history|
  {
    if history == [] then None
    else
      var front := history[..|history| - 1];
      var last := Last(history);
      if last.Reset? then Track(front, id)
      else
        var its := if last.event.toolCallId.Some? then Track(front, last.event.toolCallId.value) else None;
        PlaceAfter(Track(front, id), its, last.event, last.now, id)
  }

  function CallIds(open: seq<Call>): set<string> {
    set call | call in open :: call.id
  }

  function PlaceIn(open: seq<Call>, id: string): Option<Place> {
    var i := IndexOfCall(open, id);
    if i < |open| then Some(Place(open[i].startedAt, CallIds(open[i + 1..]))) else None
  }

  lemma TailIsDistinct(open: seq<Call>, from: nat)
    requires DistinctCalls(open) && from <= |open|
    ensures DistinctCalls(open[from..])
  {
  }

  lemma NextOutIsFirst(open: seq<Call>, id: string)
    requires DistinctCalls(open) && |open| <= MAX_PENDING_TOOL_CALLS
    ensures IsNextOut(PlaceIn(open, id)) <==> |open| == MAX_PENDING_TOOL_CALLS && open[0].id == id
  {
    var i := IndexOfCall(open, id);
    if i < |open| {
      TailIsDistinct(open, i + 1);
      CallCount(open[i + 1..]);
    }
  }

  lemma PlaceAt(open: seq<Call>, id: string, i: nat)
    requires DistinctCalls(open) && i < |open| && open[i].id == id
    ensures PlaceIn(open, id) == Some(Place(open[i].startedAt, CallIds(open[i + 1..])))
  {
    IsCallAt(open, id, i);
  }

  lemma NoPlace(open: seq<Call>, id: string)
    ensures PlaceIn(open, id).None? <==> forall k :: 0 <= k < |open| ==> open[k].id != id
  {
  }

  lemma PlaceWithoutFirst(open: seq<Call>, id: string)
    requires DistinctCalls(open) && open != []
    ensures DistinctCalls(open[1..]) && PlaceIn(open[1..], id) == if open[0].id == id then None else PlaceIn(open, id)
  {
    var i := IndexOfCall(open, id);
    assert forall k :: 0 <= k < |open[1..]| ==> open[1..][k] == open[k + 1];
    if 0 < i < |open| {
      PlaceAt(open[1..], id, i - 1);
      assert open[1..][i..] == open[i + 1..];
    } else {
      NoPlace(open[1..], id);
    }
  }

  lemma IdsAppended(open: seq<Call>, call: Call)
    ensures CallIds(open + [call]) == CallIds(open) + {call.id}
  {
    assert forall c :: c in open + [call] <==> c in open || c == call;
  }

  /** Setting a key: a new one goes behind all others. */
  lemma PlaceAfterPut(open: seq<Call>, other: string, now: int, id: string)
    requires DistinctCalls(open)
    ensures PlaceIn(PutCall(open, other, now), id) ==
      var mine := PlaceIn(open, id);
      if other == id then Some(Place(now, if mine.Some? then mine.value.behind else {}))
      else if mine.None? then None
      else if PlaceIn(open, other).Some? then mine
      else Some(mine.value.(behind := mine.value.behind + {other}))
  {
    var r := PutCall(open, other, now);
    var m, i := IndexOfCall(open, other), IndexOfCall(open, id);
    PutCallKeeps(open, other, now);
    if m < |open| {
      if i < |open| {
        SameIds(open, m, now, i + 1);
        PlaceAt(r, id, i);
      } else {
        NoPlace(r, id);
      }
    } else if other == id {
      PlaceAt(r, id, |open|);
      assert r[|open| + 1..] == [] && CallIds([]) == {};
    } else if i < |open| {
      PlaceAt(r, id, i);
      assert r[i + 1..] == open[i + 1..] + [Call(other, now)];
      IdsAppended(open[i + 1..], Call(other, now));
    } else {
      NoPlace(r, id);
    }
  }

  /** A new time for a call changes no ids. */
  lemma SameIds(open: seq<Call>, m: nat, now: int, from: nat)
    requires m < |open| && from <= |open|
    ensures CallIds(open[m := Call(open[m].id, now)][from..]) == CallIds(open[from..])
  {
    var a, b := open[m := Call(open[m].id, now)][from..], open[from..];
    assert |a| == |b| && forall k :: 0 <= k < |a| ==> a[k].id == b[k].id;
    forall x
      ensures x in CallIds(a) <==> x in CallIds(b)
    {
      if x in CallIds(a) {
        var c :| c in a && c.id == x;
        var k :| 0 <= k < |a| && a[k] == c;
        assert b[k] in b;
      }
      if x in CallIds(b) {
        var c :| c in b && c.id == x;
        var k :| 0 <= k < |b| && b[k] == c;
        assert a[k] in a;
      }
    }
  }

  lemma PlaceAfterDelete(open: seq<Call>, other: string, id: string)
    requires DistinctCalls(open)
    ensures PlaceIn(DeleteCall(open, other), id) ==
      var mine := PlaceIn(open, id);
      if other == id || mine.None? then None else Some(mine.value.(behind := mine.value.behind - {other}))
  {
    var m, i := IndexOfCall(open, other), IndexOfCall(open, id);
    if m == |open| {
      if i < |open| {
        NotBehind(open, other, i + 1);
        assert CallIds(open[i + 1..]) - {other} == CallIds(open[i + 1..]);
      }
    } else if other == id || i == |open| {
      DeletedItself(open, m, id);
    } else if m < i {
      DeletedInFront(open, m, i);
    } else {
      DeletedBehind(open, m, i);
    }
  }

  lemma DeletedItself(open: seq<Call>, m: nat, id: string)
    requires DistinctCalls(open) && m < |open| && (open[m].id == id || IndexOfCall(open, id) == |open|)
    ensures PlaceIn(open[..m] + open[m + 1..], id) == None
  {
    var r := open[..m] + open[m + 1..];
    forall k | 0 <= k < |r|
      ensures r[k].id != id
    {
      assert r[k] == open[if k < m then k else k + 1];
    }
    NoPlace(r, id);
  }

  lemma DeletedInFront(open: seq<Call>, m: nat, i: nat)
    requires DistinctCalls(open) && m < i < |open|
    ensures PlaceIn(open[..m] + open[m + 1..], open[i].id)
         == Some(Place(open[i].startedAt, CallIds(open[i + 1..]) - {open[m].id}))
  {
    var r := open[..m] + open[m + 1..];
    assert forall k :: 0 <= k < |r| ==> r[k] == open[if k < m then k else k + 1];
    PlaceAt(r, open[i].id, i - 1);
    assert r[i..] == open[i + 1..];
    IsCallAt(open, open[m].id, m);
    NotBehind(open, open[m].id, i + 1);
    assert CallIds(open[i + 1..]) - {open[m].id} == CallIds(open[i + 1..]);
  }

  lemma DeletedBehind(open: seq<Call>, m: nat, i: nat)
    requires DistinctCalls(open) && i < m < |open|
    ensures PlaceIn(open[..m] + open[m + 1..], open[i].id)
         == Some(Place(open[i].startedAt, CallIds(open[i + 1..]) - {open[m].id}))
  {
    var r := open[..m] + open[m + 1..];
    assert forall k :: 0 <= k < |r| ==> r[k] == open[if k < m then k else k + 1];
    PlaceAt(r, open[i].id, i);
    assert r[i + 1..] == open[i + 1..m] + open[m + 1..];
    assert open[i + 1..] == open[i + 1..m] + [open[m]] + open[m + 1..];
    NotIn(open, m, i + 1);
  }

  /** A call that is not open from some place on is not among the ids there. */
  lemma NotBehind(open: seq<Call>, other: string, from: nat)
    requires from <= |open| && (IndexOfCall(open, other) == |open| || IndexOfCall(open, other) < from) && DistinctCalls(open)
    ensures other !in CallIds(open[from..])
  {
    forall c | c in open[from..]
      ensures c.id != other
    {
      var k :| 0 <= k < |open[from..]| && open[from..][k] == c;
      assert open[from + k] == c;
    }
  }

  lemma NotIn(open: seq<Call>, m: nat, from: nat)
    requires DistinctCalls(open) && from <= m < |open|
    ensures CallIds(open[from..m] + open[m + 1..]) == CallIds(open[from..m] + [open[m]] + open[m + 1..]) - {open[m].id}
  {
    var without, with := open[from..m] + open[m + 1..], open[from..m] + [open[m]] + open[m + 1..];
    forall c | c in without
      ensures c.id != open[m].id && c in with
    {
      var k :| 0 <= k < |without| && without[k] == c;
      assert c == open[if k < m - from then from + k else m + 1 + (k - (m - from))];
    }
    assert forall c :: c in with <==> c in without || c == open[m];
  }

  /** A start, which pushes the first call out when the map is full. */
  lemma PlaceAfterStart(open: seq<Call>, other: string, now: int, id: string)
    requires DistinctCalls(open) && |open| <= MAX_PENDING_TOOL_CALLS
    ensures PlaceIn(PutCall(if |open| >= MAX_PENDING_TOOL_CALLS then open[1..] else open, other, now), id)
         == PlaceAfter(PlaceIn(open, id), PlaceIn(open, other), Event(ToolStart, Some(other)), now, id)
  {
    NextOutIsFirst(open, id);
    NextOutIsFirst(open, other);
    if |open| >= MAX_PENDING_TOOL_CALLS {
      PlaceWithoutFirst(open, id);
      PlaceWithoutFirst(open, other);
      PlaceAfterPut(open[1..], other, now, id);
    } else {
      PlaceAfterPut(open, other, now, id);
    }
  }

  /** What an event does to the map, it does to the place of each call. */
  lemma PlaceAfterEvent(open: seq<Call>, event: Event, now: int, id: string)
    requires DistinctCalls(open) && |open| <= MAX_PENDING_TOOL_CALLS && !Clears(event)
    ensures PlaceIn(OpenAfter(open, event, now), id) ==
      var its := if event.toolCallId.Some? then PlaceIn(open, event.toolCallId.value) else None;
      PlaceAfter(PlaceIn(open, id), its, event, now, id)
  {
    if event.toolCallId.Some? {
      var other := event.toolCallId.value;
      if event.kind.ToolStart? {
        PlaceAfterStart(open, other, now, id);
      } else if event.kind.ToolEnd? {
        PlaceAfterDelete(open, other, id);
      }
    }
  }

  /** After any history, the map holds exactly the calls that counting finds in place. */
  lemma {:induction false} PlacesExact(history: seq<Input>, id: string)
    ensures PlaceIn(After(history).open, id) == Track(history, id)
    decreases |history|
  {
    if history != [] {
      var front, last := history[..|history| - 1], Last(history);
      PlacesExact(front, id);
      OpenCallsBounded(front);
      if last.Arrives? && !Clears(last.event) {
        if last.event.toolCallId.Some? {
          PlacesExact(front, last.event.toolCallId.value);
        }
        PlaceAfterEvent(After(front).open, last.event, last.now, id);
      }
    }
  }

  /** A call in place was started, at that time, and has not ended since. */
  lemma {:induction false} InPlaceIsOpen(history: seq<Input>, id: string)
    requires Track(history, id).Some?
    ensures OpenSince(history, id) == Some(Track(history, id).value.startedAt)
    decreases |history|
  {
    var front := history[..|history| - 1];
    if Track(front, id).Some? {
      InPlaceIsOpen(front, id);
    }
  }

  lemma ToolEndOf(s: Stream, last: Input, id: string)
    requires last.Arrives? && last.event == Event(ToolEnd, Some(id))
    ensures StampOf(s, last).durationMs
         == match PlaceIn(s.open, id) case None => None case Some(place) => Some(last.now - place.startedAt)
    ensures IsCurrent(s.run, last.sessionId) || last.isStreaming ==>
      && StampOf(s, last).runPhase == Some(if DeleteCall(s.open, id) != [] then ToolPhase else Starting)
      && Handle(s, last).run.Some? && Handle(s, last).run.value.phase == StampOf(s, last).runPhase.value
  {
  }

  /** In every history, a tool end carries the time since its start exactly if its call was started, has
      not ended, and has not been pushed out by a start that found 255 open calls behind it; and when it
      updates the run it sets the tool phase exactly if another call is still in place. */
  lemma ToolEndExactly(front: seq<Input>, last: Input, id: string)
    requires last.Arrives? && last.event == Event(ToolEnd, Some(id))
    ensures StampOf(After(front), last).durationMs
         == match Track(front, id) case None => None case Some(place) => Some(last.now - place.startedAt)
    ensures Track(front, id).Some? ==> OpenSince(front, id) == Some(Track(front, id).value.startedAt)
    ensures IsCurrent(After(front).run, last.sessionId) || last.isStreaming ==>
      && Handle(After(front), last).run.Some?
      && StampOf(After(front), last).runPhase == Some(Handle(After(front), last).run.value.phase)
      && Handle(After(front), last).run.value.phase
         == if exists other :: other != id && Track(front, other).Some? then ToolPhase else Starting
  {
    PlacesExact(front, id);
    ToolEndOf(After(front), last, id);
    OthersInPlace(front, id);
    if Track(front, id).Some? {
      InPlaceIsOpen(front, id);
    }
  }

  lemma OthersInPlace(front: seq<Input>, id: string)
    ensures DeleteCall(After(front).open, id) != [] <==> exists other :: other != id && Track(front, other).Some?
  {
    var open := After(front).open;
    var rest := DeleteCall(open, id);
    OpenCallsBounded(front);
    DeleteCallKeeps(open, id);
    if rest != [] {
      IsCallAt(rest, rest[0].id, 0);
      assert StartedAt(rest, rest[0].id).Some?;
      PlacesExact(front, rest[0].id);
    }
    if other :| other != id && Track(front, other).Some? {
      PlacesExact(front, other);
      assert StartedAt(rest, other).Some?;
    }
  }

  // ----- a history that pushes a call out

  function Name(k: nat): string {
    seq(k, _ => 'a')
  }

  /** n calls, started one after another. */
  function Burst(n: nat): seq<Input> {
    if n == 0 then [] else Burst(n - 1) + [Arrives(Event(ToolStart, Some(Name(n - 1))), n - 1, "", false)]
  }

  function BurstCalls(n: nat): seq<Call> {
    seq(n, k requires 0 <= k < n => Call(Name(k), k))
  }

  lemma BurstFront(n: nat)
    requires n > 0
    ensures Burst(n) != [] && Burst(n)[..|Burst(n)| - 1] == Burst(n - 1)
    ensures Last(Burst(n)) == Arrives(Event(ToolStart, Some(Name(n - 1))), n - 1, "", false)
  {
  }

  lemma NamesDiffer(n: nat, k: nat)
    requires k != n
    ensures Name(k) != Name(n)
  {
    assert |Name(k)| == k && |Name(n)| == n;
  }

  /** A name that is not in the list goes to its end. */
  lemma NewCall(open: seq<Call>, id: string, now: int)
    requires forall k :: 0 <= k < |open| ==> open[k].id != id
    ensures PutCall(open, id, now) == open + [Call(id, now)] && StartedAt(open, id) == None
  {
  }

  lemma StartOpens(s: Stream, id: string, now: int)
    ensures Handle(s, Arrives(Event(ToolStart, Some(id)), now, "", false)).open
         == PutCall(if |s.open| >= MAX_PENDING_TOOL_CALLS then s.open[1..] else s.open, id, now)
  {
  }

  lemma AfterAppended(front: seq<Input>, last: Input)
    ensures After(front + [last]) == Handle(After(front), last)
  {
    assert (front + [last])[..|front|] == front;
  }

  lemma AfterBurst(n: nat, open: seq<Call>)
    requires open == After(Burst(n)).open
    ensures After(Burst(n + 1)).open == PutCall(if |open| >= MAX_PENDING_TOOL_CALLS then open[1..] else open, Name(n), n)
  {
    AfterAppended(Burst(n), Arrives(Event(ToolStart, Some(Name(n))), n, "", false));
    StartOpens(After(Burst(n)), Name(n), n);
  }

  lemma BurstCallsGrow(n: nat)
    requires n > 0
    ensures BurstCalls(n) == BurstCalls(n - 1) + [Call(Name(n - 1), n - 1)]
  {
  }

  lemma {:induction false} BurstOpens(n: nat)
    requires n <= MAX_PENDING_TOOL_CALLS
    ensures After(Burst(n)).open == BurstCalls(n)
  {
    if n > 0 {
      BurstOpens(n - 1);
      var calls := BurstCalls(n - 1);
      AfterBurst(n - 1, calls);
      forall k | 0 <= k < |calls|
        ensures calls[k].id != Name(n - 1)
      {
        NamesDiffer(n - 1, k);
      }
      NewCall(calls, Name(n - 1), n - 1);
      BurstCallsGrow(n);
    }
  }

  lemma {:induction false} BurstStarts(n: nat, k: nat)
    requires k < n
    ensures OpenSince(Burst(n), Name(k)) == Some(k)
  {
    BurstFront(n);
    if k < n - 1 {
      BurstStarts(n - 1, k);
      NamesDiffer(n - 1, k);
    }
  }

  lemma BurstOverflows()
    ensures After(Burst(MAX_PENDING_TOOL_CALLS + 1)).open
         == BurstCalls(MAX_PENDING_TOOL_CALLS)[1..] + [Call(Name(MAX_PENDING_TOOL_CALLS), MAX_PENDING_TOOL_CALLS)]
  {
    var n := MAX_PENDING_TOOL_CALLS;
    var later := BurstCalls(n)[1..];
    BurstOpens(n);
    AfterBurst(n, BurstCalls(n));
    forall k | 0 <= k < |later|
      ensures later[k].id != Name(n)
    {
      NamesDiffer(n, k + 1);
    }
    NewCall(later, Name(n), n);
  }

  lemma FirstOfBurst(n: nat)
    requires n > 0
    ensures StartedAt(BurstCalls(n), Name(0)) == Some(0)
  {
    assert BurstCalls(n)[0] == Call(Name(0), 0);
  }

  lemma EndOf(open: seq<Call>, id: string, now: int)
    ensures DurationOf(open, Event(ToolEnd, Some(id)), now)
         == match StartedAt(open, id) case None => None case Some(t) => Some(now - t)
  {
  }

  lemma FirstIsGone()
    ensures StartedAt(After(Burst(MAX_PENDING_TOOL_CALLS + 1)).open, Name(0)) == None
  {
    var n := MAX_PENDING_TOOL_CALLS;
    BurstOverflows();
    var after := BurstCalls(n)[1..] + [Call(Name(n), n)];
    forall k | 0 <= k < |after|
      ensures after[k].id != Name(0)
    {
      NamesDiffer(0, k + 1);
    }
    NewCall(after, Name(0), 0);
  }

  /** With 256 calls open the end of the first still has a duration. The 257th start pushes the first
      out, and its end has none, although it was started and has not ended. */
  lemma EvictedCallLosesDuration(now: int)
    ensures var end := Event(ToolEnd, Some(Name(0)));
            && DurationOf(After(Burst(MAX_PENDING_TOOL_CALLS)).open, end, now) == Some(now)
            && DurationOf(After(Burst(MAX_PENDING_TOOL_CALLS + 1)).open, end, now) == None
            && OpenSince(Burst(MAX_PENDING_TOOL_CALLS + 1), Name(0)) == Some(0)
  {
    BurstOpens(MAX_PENDING_TOOL_CALLS);
    FirstOfBurst(MAX_PENDING_TOOL_CALLS);
    EndOf(After(Burst(MAX_PENDING_TOOL_CALLS)).open, Name(0), now);
    FirstIsGone();
    EndOf(After(Burst(MAX_PENDING_TOOL_CALLS + 1)).open, Name(0), now);
    BurstStarts(MAX_PENDING_TOOL_CALLS + 1, 0);
  }
}
