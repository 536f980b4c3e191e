/** The gateway's view of the session events: each is stamped on arrival, the two events of a tool
    call are paired, the phase of the run is tracked, and durable events are retained, boundedly. */
module EventStream {
  import opened Wrappers

  const MAX_RETAINED_EVENTS := 2000
  const MAX_PENDING_TOOL_CALLS := 256

  datatype Delta = ThinkingDelta | TextDelta | OtherDelta

  datatype Kind =
    | ToolStart | ToolUpdate | ToolEnd
    | MessageUpdate(delta: Delta)
    | CompactionStart | CompactionEnd
    | AgentStart | AgentSettled
    | OtherKind

  datatype RunPhase = Starting | Thinking | Responding | ToolPhase | Compacting

  datatype Event = Event(kind: Kind, toolCallId: Option<string>)

  datatype Stamped = Stamped(event: Event, receivedAt: int, durationMs: Option<int>, runPhase: Option<RunPhase>)

  datatype RunActivity = RunActivity(sessionId: string, startedAt: int, lastActivityAt: int, phase: RunPhase)

  /** A call that is open, in the order in which the map keeps its keys. */
  datatype Call = Call(id: string, startedAt: int)

  datatype Stream = Stream(events: seq<Stamped>, open: seq<Call>, run: Option<RunActivity>)

  /** What arrives: an event, at a time, while a session is active and streaming or not; or the
      reset that a change of session makes. */
  datatype Input =
    | Arrives(event: Event, now: int, sessionId: string, isStreaming: bool)
    | Reset

  // ----- the map of open calls, which remembers insertion order

  function IndexOfCall(open: seq<Call>, id: string): (i: nat)
    ensures i <= |open|
    ensures i < |open| ==> open[i].id == id
    ensures forall k :: 0 <= k < i ==> open[k].id != id
  {
    if open == [] || open[0].id == id then 0 else 1 + IndexOfCall(open[1..], id)
  }

  function StartedAt(open: seq<Call>, id: string): Option<int> {
    var i := IndexOfCall(open, id);
    if i < |open| then Some(open[i].startedAt) else None
  }

  /** Setting a key that is present keeps its place. */
  function PutCall(open: seq<Call>, id: string, now: int): seq<Call> {
    var i := IndexOfCall(open, id);
    if i < |open| then open[i := Call(id, now)] else open + [Call(id, now)]
  }

  function DeleteCall(open: seq<Call>, id: string): seq<Call> {
    var i := IndexOfCall(open, id);
    if i < |open| then open[..i] + open[i + 1..] else open
  }

  // ----- stamping and handling one event

  function OpenAfter(open: seq<Call>, event: Event, now: int): seq<Call> {
    if event.toolCallId.None? then open
    else if event.kind.ToolStart? then
      PutCall(if |open| >= MAX_PENDING_TOOL_CALLS then open[1..] else open, event.toolCallId.value, now)
    else if event.kind.ToolEnd? then DeleteCall(open, event.toolCallId.value)
    else open
  }

  function DurationOf(open: seq<Call>, event: Event, now: int): Option<int> {
    if event.kind.ToolEnd? && event.toolCallId.Some? && StartedAt(open, event.toolCallId.value).Some?
    then Some(now - StartedAt(open, event.toolCallId.value).value)
    else None
  }

  predicate IsCurrent(run: Option<RunActivity>, sessionId: string) {
    run.Some? && run.value.sessionId == sessionId
  }

  function PhaseAfter(event: Event, phase: RunPhase, anyOpen: bool): RunPhase {
    match event.kind
    case MessageUpdate(delta) => if delta.ThinkingDelta? then Thinking else if delta.TextDelta? then Responding else phase
    case ToolStart => ToolPhase
    case ToolUpdate => ToolPhase
    case ToolEnd => if anyOpen then ToolPhase else Starting
    case _ => phase
  }

  /** The run after an event, and the phase written onto the event. `open` is the map after stamping. */
  function RunAfter(run: Option<RunActivity>, open: seq<Call>, event: Event, now: int, sessionId: string, isStreaming: bool):
    (Option<RunActivity>, Option<RunPhase>)
  {
    match event.kind
    case CompactionStart => (Some(RunActivity(sessionId, now, now, Compacting)), Some(Compacting))
    case CompactionEnd =>
      if isStreaming then (Some(RunActivity(sessionId, now, now, Starting)), Some(Starting)) else (None, None)
    case AgentSettled => (None, None)
    case AgentStart => (Some(RunActivity(sessionId, now, now, Starting)), None)
    case _ =>
      if !IsCurrent(run, sessionId) && !isStreaming then (run, None)
      else
        var startedAt := if IsCurrent(run, sessionId) then run.value.startedAt else now;
        var phase := PhaseAfter(event, if IsCurrent(run, sessionId) then run.value.phase else Starting, open != []);
        (Some(RunActivity(sessionId, startedAt, now, phase)), if event.kind.ToolEnd? then Some(phase) else None)
  }

  predicate Durable(event: Event) {
    !event.kind.MessageUpdate?
  }

  predicate Clears(event: Event) {
    event.kind.AgentStart? || event.kind.AgentSettled?
  }

  function LastEvents(events: seq<Stamped>): seq<Stamped> {
    if |events| > MAX_RETAINED_EVENTS then events[|events| - MAX_RETAINED_EVENTS..] else events
  }

  /** The event as it is retained and sent. */
  function StampOf(s: Stream, input: Input): Stamped
    requires input.Arrives?
  {
    var open := OpenAfter(s.open, input.event, input.now);
    var run := RunAfter(s.run, open, input.event, input.now, input.sessionId, input.isStreaming);
    Stamped(input.event, input.now, DurationOf(s.open, input.event, input.now), run.1)
  }

  function Handle(s: Stream, input: Input): Stream {
    match input
    case Reset => s.(events := [])
    case Arrives(event, now, sessionId, isStreaming) =>
      var open := OpenAfter(s.open, event, now);
      Stream(if Durable(event) then LastEvents(s.events + [StampOf(s, input)]) else s.events,
             if Clears(event) then [] else open,
             RunAfter(s.run, open, event, now, sessionId, isStreaming).0)
  }

  /** The stream after a history, from the empty stream. */
  function After(history: seq<Input>): Stream
    decreases |history|
  {
    if history == [] then Stream([], [], None) else Handle(After(history[..|history| - 1]), Last(history))
  }

  // ----- retention

  /** Every durable event since the last reset, without any bound. */
  function AllDurable(history: seq<Input>): seq<Stamped>
    decreases |history|
  {
    if history == [] then []
    else
      var front := history[..|history| - 1];
      var last := Last(history);
      if last.Reset? then []
      else if Durable(last.event) then AllDurable(front) + [StampOf(After(front), last)]
      else AllDurable(front)
  }

  /** The retained events are exactly the last ones, at most 2,000, of all the durable events. */
  lemma {:induction false} RetainsTheLatest(history: seq<Input>)
    ensures After(history).events == LastEvents(AllDurable(history))
    ensures |After(history).events| <= MAX_RETAINED_EVENTS
    decreases |history|
  {
    if history != [] {
      var front := history[..|history| - 1];
      RetainsTheLatest(front);
      var last := Last(history);
      if last.Arrives? && Durable(last.event) {
        LastOfLast(AllDurable(front), StampOf(After(front), last));
      }
    }
  }

  lemma LastOfLast(all: seq<Stamped>, next: Stamped)
    ensures LastEvents(LastEvents(all) + [next]) == LastEvents(all + [next])
  {
    if |all| > MAX_RETAINED_EVENTS {
      var kept := all[|all| - MAX_RETAINED_EVENTS..];
      assert (kept + [next])[1..] == (all + [next])[|all| + 1 - MAX_RETAINED_EVENTS..];
    }
  }

  // ----- open calls

  /** When the call was started, if it is open: searched backwards from the end of the history. */
  function OpenSince(history: seq<Input>, id: string): Option<int>
    decreases |history|
  {
    if history == [] then None
    else
      var last := Last(history);
      if last.Arrives? && Clears(last.event) then None
      else if last.Arrives? && last.event.toolCallId == Some(id) && last.event.kind.ToolStart? then Some(last.now)
      else if last.Arrives? && last.event.toolCallId == Some(id) && last.event.kind.ToolEnd? then None
      else OpenSince(history[..|history| - 1], id)
  }

  function StartedIds(history: seq<Input>): set<string> {
    set input | input in history && input.Arrives? && input.event.toolCallId.Some? :: input.event.toolCallId.value
  }

  function OpenIds(history: seq<Input>): set<string> {
    set id | id in StartedIds(history) && OpenSince(history, id).Some?
  }

  /** No call starts while 256 are open. */
  ghost predicate NeverFull(history: seq<Input>) {
    forall k :: 0 <= k < |history| && history[k].Arrives? && history[k].event.kind.ToolStart? && history[k].event.toolCallId.Some? ==>
      |OpenIds(history[..k])| < MAX_PENDING_TOOL_CALLS
  }

  ghost predicate DistinctCalls(open: seq<Call>) {
    forall i, j :: 0 <= i < j < |open| ==> open[i].id != open[j].id
  }

  lemma PutCallKeeps(open: seq<Call>, id: string, now: int)
    requires DistinctCalls(open)
    ensures DistinctCalls(PutCall(open, id, now))
    ensures forall other :: StartedAt(PutCall(open, id, now), other) == if other == id then Some(now) else StartedAt(open, other)
  {
    var r := PutCall(open, id, now);
    forall other
      ensures StartedAt(r, other) == if other == id then Some(now) else StartedAt(open, other)
    {
      var i := IndexOfCall(open, other);
      if other == id {
        IsCallAt(r, id, i);
      } else if i < |open| {
        assert r[i] == open[i];
        IsCallAt(r, other, i);
      } else {
        assert forall k :: 0 <= k < |r| ==> r[k].id != other;
      }
    }
  }

  lemma IsCallAt(open: seq<Call>, id: string, i: nat)
    requires DistinctCalls(open) && i < |open| && open[i].id == id
    ensures IndexOfCall(open, id) == i
  {
  }

  lemma DeleteCallKeeps(open: seq<Call>, id: string)
    requires DistinctCalls(open)
    ensures DistinctCalls(DeleteCall(open, id))
    ensures forall other :: StartedAt(DeleteCall(open, id), other) == if other == id then None else StartedAt(open, other)
  {
    var r := DeleteCall(open, id);
    var i := IndexOfCall(open, id);
    if i < |open| {
      forall other
        ensures StartedAt(r, other) == if other == id then None else StartedAt(open, other)
      {
        var k := IndexOfCall(open, other);
        if other == id || k == |open| {
          assert forall n :: 0 <= n < |r| ==> r[n] == open[if n < i then n else n + 1];
        } else {
          var k' := if k < i then k else k - 1;
          assert r[k'] == open[k];
          IsCallAt(r, other, k');
        }
      }
    }
  }

  /** A distinct list of open calls is as long as the set of its ids. */
  lemma {:induction false} CallCount(open: seq<Call>)
    requires DistinctCalls(open)
    ensures |open| == |set call | call in open :: call.id|
  {
    if open != [] {
      var front := open[..|open| - 1];
      CallCount(front);
      var ids := set call | call in front :: call.id;
      assert open == front + [Last(open)];
      assert (set call | call in open :: call.id) == ids + {Last(open).id};
      assert Last(open).id !in ids;
    }
  }

  lemma StartedAtIffListed(open: seq<Call>, id: string)
    ensures StartedAt(open, id).Some? <==> id in (set call | call in open :: call.id)
  {
    var i := IndexOfCall(open, id);
    if i < |open| {
      assert open[i] in open;
    }
    if call :| call in open && call.id == id {
      var k :| 0 <= k < |open| && open[k] == call;
    }
  }

  lemma {:induction false} OpenIsStarted(history: seq<Input>, id: string)
    requires OpenSince(history, id).Some?
    ensures id in StartedIds(history)
    decreases |history|
  {
    var front := history[..|history| - 1];
    assert history == front + [Last(history)];
    if !(Last(history).Arrives? && Last(history).event.toolCallId == Some(id)) {
      OpenIsStarted(front, id);
    }
  }

  /** The map never holds more than 256 calls, nor the same call twice. */
  lemma {:induction false} OpenCallsBounded(history: seq<Input>)
    ensures |After(history).open| <= MAX_PENDING_TOOL_CALLS
    ensures DistinctCalls(After(history).open)
    decreases |history|
  {
    if history != [] {
      OpenCallsBounded(history[..|history| - 1]);
      var before := After(history[..|history| - 1]).open;
      var last := Last(history);
      if last.Arrives? && last.event.toolCallId.Some? {
        var id := last.event.toolCallId.value;
        PutCallKeeps(if |before| >= MAX_PENDING_TOOL_CALLS then before[1..] else before, id, last.now);
        DeleteCallKeeps(before, id);
      }
    }
  }

  lemma NeverFullFront(history: seq<Input>)
    requires history != [] && NeverFull(history)
    ensures NeverFull(history[..|history| - 1])
  {
    var front := history[..|history| - 1];
    assert forall k :: 0 <= k < |front| ==> front[k] == history[k] && front[..k] == history[..k];
  }

  /** As long as no call starts while 256 are open, the map holds exactly the calls that were started
      and not ended since the last agent start or settle, each with the time of its start. */
  lemma {:induction false} OpenCallsExact(history: seq<Input>)
    requires NeverFull(history)
    ensures forall id :: StartedAt(After(history).open, id) == OpenSince(history, id)
    ensures |After(history).open| == |OpenIds(history)|
    decreases |history|
  {
    OpenCallsBounded(history);
    if history != [] {
      var front := history[..|history| - 1];
      var last := Last(history);
      NeverFullFront(history);
      OpenCallsExact(front);
      OpenCallsBounded(front);
      assert front + [last] == history;
      forall id
        ensures StartedAt(After(history).open, id) == OpenSince(history, id)
      {
        StepExact(front, last, id);
      }
    }
    CountExact(history);
  }

  lemma CountExact(history: seq<Input>)
    requires DistinctCalls(After(history).open)
    requires forall id :: StartedAt(After(history).open, id) == OpenSince(history, id)
    ensures |After(history).open| == |OpenIds(history)|
  {
    var open := After(history).open;
    CallCount(open);
    var ids := set call | call in open :: call.id;
    forall id
      ensures id in ids <==> id in OpenIds(history)
    {
      StartedAtIffListed(open, id);
      if OpenSince(history, id).Some? {
        OpenIsStarted(history, id);
      }
    }
    assert ids == OpenIds(history);
  }

  lemma StepExact(front: seq<Input>, last: Input, id: string)
    requires NeverFull(front + [last])
    requires |After(front).open| == |OpenIds(front)| && DistinctCalls(After(front).open)
    requires StartedAt(After(front).open, id) == OpenSince(front, id)
    ensures StartedAt(After(front + [last]).open, id) == OpenSince(front + [last], id)
  {
    var history := front + [last];
    assert history[..|history| - 1] == front && Last(history) == last;
    var before := After(front).open;
    assert After(history) == Handle(After(front), last);
    if last.Arrives? && last.event.toolCallId.Some? {
      PutCallKeeps(before, last.event.toolCallId.value, last.now);
      DeleteCallKeeps(before, last.event.toolCallId.value);
      if last.event.kind.ToolStart? {
        assert history[|front|] == last && history[..|front|] == front;
        assert OpenAfter(before, last.event, last.now) == PutCall(before, last.event.toolCallId.value, last.now);
      }
    }
  }

  /** In such a history, a tool end carries the time since its start exactly when its call was open,
      and when it updates the run it sets the tool phase exactly when another call is still open. */
  lemma ToolEndIsAuthoritative(front: seq<Input>, last: Input, id: string)
    requires NeverFull(front) && last.Arrives? && last.event == Event(ToolEnd, Some(id))
    ensures var stamp := StampOf(After(front), last);
            && stamp.durationMs == (match OpenSince(front, id) case None => None case Some(t) => Some(last.now - t))
            && (IsCurrent(After(front).run, last.sessionId) || last.isStreaming ==>
                  stamp.runPhase == Some(if exists other :: other != id && OpenSince(front, other).Some? then ToolPhase else Starting)
                  && Handle(After(front), last).run.value.phase == stamp.runPhase.value)
  {
    OpenCallsExact(front);
    OpenCallsBounded(front);
    var open := After(front).open;
    DeleteCallKeeps(open, id);
    var rest := DeleteCall(open, id);
    if rest != [] {
      IsCallAt(rest, rest[0].id, 0);
      assert StartedAt(rest, rest[0].id).Some?;
      assert OpenSince(front, rest[0].id).Some? && rest[0].id != id;
    }
    if other :| other != id && OpenSince(front, other).Some? {
      assert StartedAt(rest, other).Some?;
    }
  }

  // ----- the stream as it runs

  class Gateway {
    var events: seq<Stamped>
    var toolCallStartedAt: seq<Call>
    var runActivity: Option<RunActivity>

    constructor ()
      ensures Current() == After([])
    {
      events, toolCallStartedAt, runActivity := [], [], None;
    }

    function Current(): Stream
      reads this
    {
      Stream(events, toolCallStartedAt, runActivity)
    }

    /** Stamp the arrival, and pair the two events of a tool call. */
    method StampEvent(event: Event, now: int) returns (durationMs: Option<int>)
      modifies this`toolCallStartedAt
      ensures toolCallStartedAt == OpenAfter(old(toolCallStartedAt), event, now)
      ensures durationMs == DurationOf(old(toolCallStartedAt), event, now)
    {
      durationMs := None;
      if event.toolCallId.Some? && event.kind.ToolStart? {
        if |toolCallStartedAt| >= MAX_PENDING_TOOL_CALLS {
          toolCallStartedAt := toolCallStartedAt[1..];
        }
        toolCallStartedAt := PutCall(toolCallStartedAt, event.toolCallId.value, now);
      }
      if event.toolCallId.Some? && event.kind.ToolEnd? {
        var startedAt := StartedAt(toolCallStartedAt, event.toolCallId.value);
        toolCallStartedAt := DeleteCall(toolCallStartedAt, event.toolCallId.value);
        if startedAt.Some? {
          durationMs := Some(now - startedAt.value);
        }
      }
    }

    method HandleEvent(event: Event, now: int, sessionId: string, isStreaming: bool) returns (stamped: Stamped)
      modifies this
      ensures stamped == StampOf(old(Current()), Arrives(event, now, sessionId, isStreaming))
      ensures Current() == Handle(old(Current()), Arrives(event, now, sessionId, isStreaming))
    {
      var durationMs := StampEvent(event, now);
      var runPhase: Option<RunPhase> := None;
      if event.kind.CompactionStart? {
        runActivity := Some(RunActivity(sessionId, now, now, Compacting));
        runPhase := Some(Compacting);
      } else if event.kind.CompactionEnd? {
        runActivity := if isStreaming then Some(RunActivity(sessionId, now, now, Starting)) else None;
        if runActivity.Some? {
          runPhase := Some(runActivity.value.phase);
        }
      } else if event.kind.AgentSettled? {
        toolCallStartedAt := [];
        runActivity := None;
      } else if event.kind.AgentStart? {
        toolCallStartedAt := [];
        runActivity := Some(RunActivity(sessionId, now, now, Starting));
      } else if IsCurrent(runActivity, sessionId) || isStreaming {
        var startedAt := if IsCurrent(runActivity, sessionId) then runActivity.value.startedAt else now;
        var phase := if IsCurrent(runActivity, sessionId) then runActivity.value.phase else Starting;
        if event.kind.MessageUpdate? {
          if event.kind.delta.ThinkingDelta? {
            phase := Thinking;
          }
          if event.kind.delta.TextDelta? {
            phase := Responding;
          }
        }
        if event.kind.ToolStart? || event.kind.ToolUpdate? {
          phase := ToolPhase;
        }
        if event.kind.ToolEnd? {
          phase := if |toolCallStartedAt| > 0 then ToolPhase else Starting;
          runPhase := Some(phase);
        }
        runActivity := Some(RunActivity(sessionId, startedAt, now, phase));
      }
      stamped := Stamped(event, now, durationMs, runPhase);
      if !event.kind.MessageUpdate? {
        events := events + [stamped];
        if |events| > MAX_RETAINED_EVENTS {
          events := events[|events| - MAX_RETAINED_EVENTS..];
        }
      }
    }

    /** A change of session forgets the retained events and nothing else. */
    method ResetEvents()
      modifies this`events
      ensures Current() == Handle(old(Current()), Reset)
    {
      events := [];
    }
  }
}
