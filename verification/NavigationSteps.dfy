/** What each part of a navigation job does, in every reachable state, by the number of the newest
    request: when it goes on, when it is accepted or rejected, and when it ends without a word. */
module NavigationSteps {
  import opened Wrappers
  import opened SessionNavigation

  predicate At(s: Navigation, stage: Stage) {
    s.running.Some? && s.running.value.stage == stage
  }

  /** The job is over and the log has these effects more. */
  predicate Over(s: Navigation, t: Navigation, effects: seq<Effect>)
    requires s.running.Some?
  {
    && t.running.None? && t.log == s.log + effects + [Ended(s.running.value.job.intent)]
    && t.queue == s.queue && t.intent == s.intent && t.paths == s.paths
  }

  /** Rejected: told so, with the session that the job was told about, and forgotten; a handler that throws
      breaks the chain. */
  predicate Refused(s: Navigation, t: Navigation, throws: bool)
    requires s.running.Some?
  {
    && Over(s, t, [Rejected(s.running.value.job.intent, s.running.value.current)])
    && t.pending.None? && t.broken == throws
  }

  /** Ended without a word: a newer request is pending, or none any more. */
  predicate Silent(s: Navigation, t: Navigation)
    requires s.running.Some?
  {
    Over(s, t, []) && t.pending == s.pending && t.broken == s.broken
  }

  predicate AcceptedWith(s: Navigation, t: Navigation, session: Session)
    requires s.running.Some?
  {
    var job := s.running.value.job;
    && t.log == s.log + [Accepted(job.intent, session)] && t.pending == Some(Pending(job.intent, job.path, true))
    && At(t, Accepting) && t.running.value.job == job && t.broken == s.broken
    && t.queue == s.queue && t.intent == s.intent && t.paths == s.paths
  }

  /** The answer about the active session: an older job ends; the newest one is rejected if the question
      failed, accepted if its path is active, and opens it if not. */
  lemma ReadOutcome(s: Navigation, ok: bool, throws: bool)
    requires Inv(s) && At(s, Asking)
    ensures var t, job := Next(s, SessionRead(ok, throws)), s.running.value.job;
            && t.active == s.active
            && (if job.intent < s.intent then Silent(s, t)
                else if !ok then Refused(s, t, throws)
                else if s.active == Some(job.path) then AcceptedWith(s, t, s.active)
                else At(t, Opening) && t == s.(running := Some(Running(job, Opening, Some(s.active)))))
  {
    assert s.log + [] == s.log;
    NewestByNumber(s);
    var intent, current := s.running.value.job.intent, s.running.value.current;
    assert s.log + [Rejected(intent, current)] + [Ended(intent)] == s.log + [Rejected(intent, current)] + [Ended(intent)];
  }

  /** The opening is over: an older job ends, whatever has become active; the newest one is rejected if
      the opening failed and accepted with its path if not. */
  lemma OpenOutcome(s: Navigation, ok: bool, after: Session, throws: bool)
    requires Inv(s) && At(s, Opening)
    ensures var t, job := Next(s, SessionOpened(ok, after, throws)), s.running.value.job;
            && t.active == (if ok then Some(job.path) else after)
            && (if job.intent < s.intent then Silent(s, t)
                else if !ok then Refused(s, t, throws)
                else AcceptedWith(s, t, Some(job.path)))
  {
    assert s.log + [] == s.log;
    NewestByNumber(s);
  }

  /** The acceptance handler is over: the job ends, and it is rejected after all if the handler failed and
      neither a newer request nor a refresh has taken its place. */
  lemma HandledOutcome(s: Navigation, ok: bool, throws: bool)
    requires Inv(s) && At(s, Accepting)
    ensures var t, job := Next(s, Handled(ok, throws)), s.running.value.job;
            && t.active == s.active
            && (if ok || job.intent < s.intent || s.pending.None? then Silent(s, t) else Refused(s, t, throws))
  {
    assert s.log + [] == s.log;
  }

  /** The job that runs is the newest one exactly if its number is. */
  lemma NewestByNumber(s: Navigation)
    requires Inv(s) && s.running.Some? && s.running.value.stage != Accepting
    ensures Newest(s, s.running.value.job) <==> s.running.value.job.intent == s.intent
    ensures s.running.value.job.intent <= s.intent && !s.broken
  {
  }

  /** Between two jobs: the next one of the queue begins, or is skipped once the chain is rejected. A refresh
      forgets a request that has been accepted, and only such a one. */
  lemma BetweenJobs(s: Navigation)
    requires Inv(s)
    ensures s.running.None? && s.queue != [] ==>
      && Next(s, Begin).queue == s.queue[1..]
      && if s.broken then Next(s, Begin).running.None? && Next(s, Begin).log == s.log + [Skipped(s.queue[0].intent)]
         else At(Next(s, Begin), Asking) && Next(s, Begin).running.value.job == s.queue[0]
              && Next(s, Begin).running.value.current.None? && Next(s, Begin).log == s.log + [Started(s.queue[0].intent)]
    ensures Next(s, Settled) == if s.pending.Some? && s.pending.value.accepted then s.(pending := None) else s
  {
  }

  /** In every run: a job that is asked for and answered without failures, with no newer request, ends
      accepted with its path active, in at most four steps from its beginning. */
  lemma UndisturbedJobIsAccepted(s: Navigation, after: Session)
    requires Inv(s) && s.running.None? && !s.broken && |s.queue| == 1
    ensures var job := s.queue[0];
            var steps := if s.active == Some(job.path) then [Begin, SessionRead(true, false), Handled(true, false)]
                         else [Begin, SessionRead(true, false), SessionOpened(true, after, false), Handled(true, false)];
            var t := Run(s, steps);
            && Drained(t) && t.active == Some(job.path)
            && t.log == s.log + [Started(job.intent), Accepted(job.intent, Some(job.path)), Ended(job.intent)]
  {
    var job, s1 := s.queue[0], Next(s, Begin);
    OnlyJobBegins(s);
    ReadThrough(s1, after);
    LogOfJob(s.log, Started(job.intent), Accepted(job.intent, Some(job.path)), Ended(job.intent));
    if s.active == Some(job.path) {
      ThreeSteps(s, Begin, SessionRead(true, false), Handled(true, false));
    } else {
      FourSteps(s, Begin, SessionRead(true, false), SessionOpened(true, after, false), Handled(true, false));
    }
  }

  lemma OnlyJobBegins(s: Navigation)
    requires Inv(s) && s.running.None? && !s.broken && |s.queue| == 1
    ensures var s1, job := Next(s, Begin), s.queue[0];
            && Inv(s1) && At(s1, Asking) && s1.running.value.job == job && job.intent == s1.intent
            && s1.log == s.log + [Started(job.intent)] && s1.queue == [] && s1.active == s.active
  {
    BeginKeepsInv(s);
  }

  lemma LogOfJob(log: seq<Effect>, a: Effect, b: Effect, c: Effect)
    ensures log + [a] + [b, c] == log + [a, b, c]
  {
  }

  /** From the question on. */
  lemma ReadThrough(s: Navigation, after: Session)
    requires Inv(s) && At(s, Asking) && s.running.value.job.intent == s.intent
    ensures var job, s2 := s.running.value.job, Next(s, SessionRead(true, false));
            var s3 := if s.active == Some(job.path) then s2 else Next(s2, SessionOpened(true, after, false));
            var t := Next(s3, Handled(true, false));
            && t.running.None? && t.queue == s.queue && t.active == Some(job.path)
            && t.log == s.log + [Accepted(job.intent, Some(job.path)), Ended(job.intent)]
  {
    var job, s2 := s.running.value.job, Next(s, SessionRead(true, false));
    ReadOutcome(s, true, false);
    NextKeepsInv(s, SessionRead(true, false));
    if s.active == Some(job.path) {
      AcceptedThrough(s, s2, s.active);
    } else {
      OpenOutcome(s2, true, after, false);
      NextKeepsInv(s2, SessionOpened(true, after, false));
      AcceptedThrough(s2, Next(s2, SessionOpened(true, after, false)), Some(job.path));
    }
  }

  lemma AcceptedThrough(s: Navigation, t: Navigation, session: Session)
    requires s.running.Some? && AcceptedWith(s, t, session) && Inv(t)
    ensures var u, intent := Next(t, Handled(true, false)), s.running.value.job.intent;
            && u.running.None? && u.queue == s.queue && u.active == t.active
            && u.log == s.log + [Accepted(intent, session), Ended(intent)]
  {
    HandledOutcome(t, true, false);
    var intent := s.running.value.job.intent;
    assert s.log + [Accepted(intent, session)] + [] + [Ended(intent)] == s.log + [Accepted(intent, session), Ended(intent)];
  }

  lemma ThreeSteps(s: Navigation, a: Step, b: Step, c: Step)
    ensures Run(s, [a, b, c]) == Next(Next(Next(s, a), b), c)
  {
    assert [a, b, c][1..] == [b, c] && [b, c][1..] == [c] && [c][1..] == [];
    assert Run(s, [a, b, c]) == Run(Next(s, a), [b, c]);
    assert Run(Next(s, a), [b, c]) == Run(Next(Next(s, a), b), [c]);
  }

  lemma FourSteps(s: Navigation, a: Step, b: Step, c: Step, d: Step)
    ensures Run(s, [a, b, c, d]) == Next(Next(Next(Next(s, a), b), c), d)
  {
    assert [a, b, c, d][1..] == [b, c, d];
    assert Run(s, [a, b, c, d]) == Run(Next(s, a), [b, c, d]);
    ThreeSteps(Next(s, a), b, c, d);
  }
}
