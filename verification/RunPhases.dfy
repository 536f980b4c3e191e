/** What the run activity of the gateway shows after any history: which event began the run, which was
    its last activity, and which set its phase. */
module RunPhases {
  import opened Wrappers
  import opened EventStream

  predicate SameSession(history: seq<Input>, b: int, j: int) {
    && 0 <= b < |history| && 0 <= j < |history| && history[b].Arrives? && history[j].Arrives?
    && history[j].sessionId == history[b].sessionId
  }

  /** Which event began the run that is active. An agent or a compaction that starts begins one, and so
      does a compaction that ends while its session streams; if it does not stream there is no run any
      more, as when an agent has settled. Any other event begins one only for a session that streams and
      has none. */
  function BeganAt(history: seq<Input>): (r: Option<nat>)
    ensures r.Some? ==> r.value < |history| && history[r.value].Arrives?
    decreases |history|
  {
    if history == [] then None
    else
      var front, last := history[..|history| - 1], Last(history);
      if last.Reset? then BeganAt(front)
      else
        match last.event.kind
        case CompactionStart => Some(|front|)
        case AgentStart => Some(|front|)
        case CompactionEnd => if last.isStreaming then Some(|front|) else None
        case AgentSettled => None
        case _ =>
          var before := BeganAt(front);
          if before.Some? && front[before.value].sessionId == last.sessionId then before
          else if last.isStreaming then Some(|front|)
          else before
  }

  /** The last event of the session of the run, from its begin on. */
  ghost predicate LastActivity(history: seq<Input>, b: int, u: int) {
    b <= u && SameSession(history, b, u) && forall j :: u < j < |history| ==> !SameSession(history, b, j)
  }

  predicate SetsPhase(event: Event) {
    match event.kind
    case MessageUpdate(delta) => !delta.OtherDelta?
    case ToolStart => true
    case ToolUpdate => true
    case ToolEnd => true
    case _ => false
  }

  predicate Sets(history: seq<Input>, b: int, j: int) {
    SameSession(history, b, j) && SetsPhase(history[j].event)
  }

  /** The last event of the run that sets a phase, or else its begin. */
  ghost predicate LastSetter(history: seq<Input>, b: int, k: int) {
    && 0 <= b <= k < |history| && history[b].Arrives? && (k == b || Sets(history, b, k))
    && forall j :: k < j < |history| ==> !Sets(history, b, j)
  }

  /** The phase that event k stands for: reasoning, answering, a tool while one is at work, compacting, and
      starting for all else. */
  function PhaseSetBy(history: seq<Input>, k: nat): RunPhase
    requires k < |history| && history[k].Arrives?
  {
    match history[k].event.kind
    case MessageUpdate(delta) =>
      (match delta case ThinkingDelta => Thinking case TextDelta => Responding case OtherDelta => Starting)
    case ToolStart => ToolPhase
    case ToolUpdate => ToolPhase
    case ToolEnd => if After(history[..k + 1]).open == [] then Starting else ToolPhase
    case CompactionStart => Compacting
    case _ => Starting
  }

  ghost predicate RunOf(history: seq<Input>, b: nat, run: RunActivity)
    requires b < |history| && history[b].Arrives?
  {
    && run.sessionId == history[b].sessionId && run.startedAt == history[b].now
    && (exists u :: LastActivity(history, b, u) && run.lastActivityAt == history[u].now)
    && (exists k :: LastSetter(history, b, k) && history[k].Arrives? && run.phase == PhaseSetBy(history, k))
  }

  ghost predicate ShowsRun(history: seq<Input>, run: Option<RunActivity>) {
    match BeganAt(history)
    case None => run.None?
    case Some(b) => run.Some? && RunOf(history, b, run.value)
  }

  // ----- one more input

  lemma FrontEvents(front: seq<Input>, last: Input, b: int)
    ensures forall j: int :: j < |front| && b < |front| ==> (SameSession(front + [last], b, j) <==> SameSession(front, b, j))
    ensures forall j: int :: j < |front| && b < |front| ==> (Sets(front + [last], b, j) <==> Sets(front, b, j))
  {
  }

  lemma SamePhase(front: seq<Input>, last: Input, k: nat)
    requires k < |front| && front[k].Arrives?
    ensures PhaseSetBy(front + [last], k) == PhaseSetBy(front, k)
  {
    assert (front + [last])[..k + 1] == front[..k + 1];
  }

  /** The last input is no activity of the run. */
  lemma Passes(front: seq<Input>, last: Input, b: nat, run: RunActivity)
    requires b < |front| && front[b].Arrives? && RunOf(front, b, run)
    requires last.Reset? || last.sessionId != front[b].sessionId
    ensures RunOf(front + [last], b, run)
  {
    var history := front + [last];
    FrontEvents(front, last, b);
    var u :| LastActivity(front, b, u) && run.lastActivityAt == front[u].now;
    assert LastActivity(history, b, u) && history[u] == front[u];
    var k :| LastSetter(front, b, k) && front[k].Arrives? && run.phase == PhaseSetBy(front, k);
    SamePhase(front, last, k);
    assert LastSetter(history, b, k) && history[k] == front[k];
  }

  /** The last input is an activity of the run. */
  lemma Continues(front: seq<Input>, last: Input, b: nat, run: RunActivity, next: RunActivity)
    requires b < |front| && front[b].Arrives? && RunOf(front, b, run)
    requires last.Arrives? && last.sessionId == front[b].sessionId
    requires next.sessionId == run.sessionId && next.startedAt == run.startedAt && next.lastActivityAt == last.now
    requires next.phase == if SetsPhase(last.event) then PhaseSetBy(front + [last], |front|) else run.phase
    ensures RunOf(front + [last], b, next)
  {
    var history := front + [last];
    FrontEvents(front, last, b);
    assert LastActivity(history, b, |front|) && history[|front|] == last;
    var k :| LastSetter(front, b, k) && front[k].Arrives? && run.phase == PhaseSetBy(front, k);
    SamePhase(front, last, k);
    if SetsPhase(last.event) {
      assert LastSetter(history, b, |front|);
    } else {
      assert LastSetter(history, b, k) && history[k] == front[k];
    }
  }

  /** The last input begins a run. */
  lemma Begins(front: seq<Input>, last: Input, run: RunActivity)
    requires last.Arrives?
    requires run == RunActivity(last.sessionId, last.now, last.now, PhaseSetBy(front + [last], |front|))
    ensures RunOf(front + [last], |front|, run)
  {
    var history := front + [last];
    assert history[|front|] == last;
    assert LastActivity(history, |front|, |front|) && LastSetter(history, |front|, |front|);
  }

  lemma OpenNow(front: seq<Input>, last: Input)
    requires last.Arrives? && !Clears(last.event)
    ensures After(front + [last]).open == OpenAfter(After(front).open, last.event, last.now)
    ensures (front + [last])[..|front| + 1] == front + [last]
  {
    assert (front + [last])[..|front|] == front;
  }

  lemma AfterRun(front: seq<Input>, last: Input)
    requires last.Arrives?
    ensures After(front + [last]).run
         == RunAfter(After(front).run, OpenAfter(After(front).open, last.event, last.now), last.event, last.now,
                     last.sessionId, last.isStreaming).0
  {
    assert (front + [last])[..|front|] == front;
  }

  /** An event of no kind of its own. */
  lemma OrdinaryEvent(front: seq<Input>, last: Input)
    requires last.Arrives? && !Clears(last.event) && !last.event.kind.CompactionStart? && !last.event.kind.CompactionEnd?
    requires ShowsRun(front, After(front).run)
    ensures ShowsRun(front + [last], After(front + [last]).run)
  {
    var history := front + [last];
    assert history[..|history| - 1] == front && Last(history) == last;
    AfterRun(front, last);
    OpenNow(front, last);
    var run, before := After(front).run, BeganAt(front);
    if IsCurrent(run, last.sessionId) {
      Continues(front, last, before.value, run.value, After(history).run.value);
    } else if last.isStreaming {
      Begins(front, last, After(history).run.value);
    } else if before.Some? {
      Passes(front, last, before.value, run.value);
    }
  }

  predicate Ordinary(event: Event) {
    !Clears(event) && !event.kind.CompactionStart? && !event.kind.CompactionEnd?
  }

  lemma ResetInput(front: seq<Input>)
    requires ShowsRun(front, After(front).run)
    ensures ShowsRun(front + [Reset], After(front + [Reset]).run)
  {
    assert (front + [Reset])[..|front|] == front;
    if BeganAt(front).Some? {
      Passes(front, Reset, BeganAt(front).value, After(front).run.value);
    }
  }

  /** An event that begins a run or leaves none. */
  lemma ExplicitEvent(front: seq<Input>, last: Input)
    requires last.Arrives? && !Ordinary(last.event)
    ensures ShowsRun(front + [last], After(front + [last]).run)
  {
    var history := front + [last];
    assert history[..|history| - 1] == front && Last(history) == last;
    AfterRun(front, last);
    if BeganAt(history).Some? {
      Begins(front, last, After(history).run.value);
    }
  }

  lemma InputShows(front: seq<Input>, last: Input)
    requires ShowsRun(front, After(front).run)
    ensures ShowsRun(front + [last], After(front + [last]).run)
  {
    if last.Reset? {
      ResetInput(front);
    } else if Ordinary(last.event) {
      OrdinaryEvent(front, last);
    } else {
      ExplicitEvent(front, last);
    }
  }

  /** In every history, the run that the gateway shows is the one that the last begin began: it started
      then, its last activity is the last event of its session since, and its phase is that of the last
      event since that sets one. */
  lemma {:induction false} RunExactly(history: seq<Input>)
    ensures ShowsRun(history, After(history).run)
    decreases |history|
  {
    if history == [] {
      assert BeganAt(history).None? && After(history).run.None?;
    } else {
      var front, last := history[..|history| - 1], Last(history);
      assert history == front + [last];
      RunExactly(front);
      InputShows(front, last);
    }
  }

  /** The phase that is written onto an event is the phase of the run, and only events of compactions and
      the ends of tools carry one. */
  lemma PhaseOnEvent(front: seq<Input>, last: Input)
    requires last.Arrives?
    ensures var stamp, run := StampOf(After(front), last), After(front + [last]).run;
            && (stamp.runPhase.Some? ==> run.Some? && run.value.phase == stamp.runPhase.value)
            && (stamp.runPhase.Some? <==>
                || last.event.kind.CompactionStart? || (last.event.kind.CompactionEnd? && last.isStreaming)
                || (last.event.kind.ToolEnd? && (last.isStreaming || IsCurrent(After(front).run, last.sessionId))))
            && stamp.event == last.event && stamp.receivedAt == last.now
  {
    AfterRun(front, last);
    PhaseWritten(After(front), last);
  }

  lemma PhaseWritten(s: Stream, last: Input)
    requires last.Arrives?
    ensures var open := OpenAfter(s.open, last.event, last.now);
            var (run, phase) := RunAfter(s.run, open, last.event, last.now, last.sessionId, last.isStreaming);
            && StampOf(s, last).runPhase == phase && (phase.Some? ==> run.Some? && run.value.phase == phase.value)
            && (phase.Some? <==>
                || last.event.kind.CompactionStart? || (last.event.kind.CompactionEnd? && last.isStreaming)
                || (last.event.kind.ToolEnd? && (last.isStreaming || IsCurrent(s.run, last.sessionId))))
  {
  }
}
