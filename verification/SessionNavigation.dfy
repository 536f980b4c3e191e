/** Navigation between sessions in the client. Requests are numbered; their jobs run one after the
    other; only the job of the newest request may report. What lies between two awaits is one step. */
module SessionNavigation {
  import opened Wrappers

  /** The file of the session that is active on the server, if it has one. */
  type Session = Option<string>

  datatype Pending = Pending(intent: nat, path: string, accepted: bool)

  datatype Job = Job(intent: nat, path: string)

  /** What a job is waiting for: the answer about the active session, the opening of another one, or
      the acceptance handler. */
  datatype Stage = Asking | Opening | Accepting

  /** `current` is the session that the job was told about. */
  datatype Running = Running(job: Job, stage: Stage, current: Option<Session>)

  datatype Effect =
    | Started(intent: nat)
    | Accepted(intent: nat, session: Session)
    | Rejected(intent: nat, current: Option<Session>)
    | Ended(intent: nat)
    | Skipped(intent: nat)

  /** `paths` holds the path of every request so far; `broken` is set when a rejection handler threw,
      which leaves the chain of jobs rejected. */
  datatype Navigation = Navigation(
    intent: nat,
    pending: Option<Pending>,
    queue: seq<Job>,
    running: Option<Running>,
    broken: bool,
    active: Session,
    paths: seq<string>,
    log: seq<Effect>
  )

  /** `throws` says whether the rejection handler throws, if it is called. An opening that fails may
      still have changed the active session. */
  datatype Step =
    | Request(path: string)
    | Begin
    | SessionRead(ok: bool, throws: bool)
    | SessionOpened(ok: bool, after: Session, throws: bool)
    | Handled(ok: bool, throws: bool)
    | Settled

  predicate Newest(s: Navigation, job: Job) {
    s.pending.Some? && s.pending.value.intent == job.intent
  }

  function RequestStep(s: Navigation, path: string): Navigation {
    var intent := s.intent + 1;
    s.(intent := intent,
       pending := Some(Pending(intent, path, false)),
       queue := s.queue + [Job(intent, path)],
       paths := s.paths + [path])
  }

  function BeginStep(s: Navigation): Navigation {
    if s.running.Some? || s.queue == [] then s
    else
      var job := s.queue[0];
      if s.broken then s.(queue := s.queue[1..], log := s.log + [Skipped(job.intent)])
      else s.(queue := s.queue[1..], running := Some(Running(job, Asking, None)), log := s.log + [Started(job.intent)])
  }

  function End(s: Navigation): Navigation
    requires s.running.Some?
  {
    s.(running := None, log := s.log + [Ended(s.running.value.job.intent)])
  }

  function Accept(s: Navigation, session: Session): Navigation
    requires s.running.Some?
  {
    var job := s.running.value.job;
    s.(pending := Some(Pending(job.intent, job.path, true)),
       running := Some(s.running.value.(stage := Accepting)),
       log := s.log + [Accepted(job.intent, session)])
  }

  /** The catch clause. */
  function Fail(s: Navigation, throws: bool): Navigation
    requires s.running.Some?
  {
    var job := s.running.value.job;
    if !Newest(s, job) then End(s)
    else
      End(s.(pending := None, broken := s.broken || throws,
             log := s.log + [Rejected(job.intent, s.running.value.current)]))
  }

  function SessionReadStep(s: Navigation, ok: bool, throws: bool): Navigation {
    if !(s.running.Some? && s.running.value.stage == Asking) then s
    else if !ok then Fail(s, throws)
    else
      var job := s.running.value.job;
      var told := s.(running := Some(s.running.value.(current := Some(s.active))));
      if !Newest(s, job) then End(told)
      else if Some(job.path) != s.active then told.(running := Some(told.running.value.(stage := Opening)))
      else Accept(told, s.active)
  }

  function SessionOpenedStep(s: Navigation, ok: bool, after: Session, throws: bool): Navigation {
    if !(s.running.Some? && s.running.value.stage == Opening) then s
    else
      var job := s.running.value.job;
      if !ok then Fail(s.(active := after), throws)
      else
        var moved := s.(active := Some(job.path));
        if !Newest(s, job) then End(moved) else Accept(moved, Some(job.path))
  }

  function HandledStep(s: Navigation, ok: bool, throws: bool): Navigation {
    if !(s.running.Some? && s.running.value.stage == Accepting) then s
    else if ok then End(s)
    else Fail(s, throws)
  }

  /** A refresh that began after the acceptance drops the request. */
  function SettledStep(s: Navigation): Navigation {
    if s.pending.Some? && s.pending.value.accepted then s.(pending := None) else s
  }

  function Next(s: Navigation, step: Step): Navigation {
    match step
    case Request(path) => RequestStep(s, path)
    case Begin => BeginStep(s)
    case SessionRead(ok, throws) => SessionReadStep(s, ok, throws)
    case SessionOpened(ok, after, throws) => SessionOpenedStep(s, ok, after, throws)
    case Handled(ok, throws) => HandledStep(s, ok, throws)
    case Settled => SettledStep(s)
  }

  function Run(s: Navigation, steps: seq<Step>): Navigation
    decreases |steps|
  {
    if steps == [] then s else Run(Next(s, steps[0]), steps[1..])
  }

  function Initial(active: Session): Navigation {
    Navigation(0, None, [], None, false, active, [], [])
  }

  predicate Drained(s: Navigation) {
    s.queue == [] && s.running.None?
  }

  // ----- the log

  datatype Sort = Beginnings | Acceptances | Rejections | Endings

  predicate Is(e: Effect, sort: Sort) {
    match sort
    case Beginnings => e.Started? || e.Skipped?
    case Acceptances => e.Accepted?
    case Rejections => e.Rejected?
    case Endings => e.Ended? || e.Skipped?
  }

  /** The requests with an effect of one sort, in the order of the log. */
  function IntentsOf(sort: Sort, log: seq<Effect>): seq<nat> {
    if log == [] then []
    else IntentsOf(sort, log[..|log| - 1]) + if Is(Last(log), sort) then [Last(log).intent] else []
  }

  lemma IntentsOfAppended(sort: Sort, log: seq<Effect>, e: Effect)
    ensures IntentsOf(sort, log + [e]) == IntentsOf(sort, log) + if Is(e, sort) then [e.intent] else []
  {
    assert (log + [e])[..|log|] == log;
  }

  function UpTo(n: nat): seq<nat> {
    seq(n, i => i + 1)
  }

  ghost predicate Increasing(s: seq<nat>) {
    forall i, j :: 0 <= i < j < |s| ==> s[i] < s[j]
  }

  predicate Reports(e: Effect, intent: nat) {
    (e.Accepted? || e.Rejected?) && e.intent == intent
  }

  ghost predicate Answered(s: Navigation, intent: nat) {
    exists e :: e in s.log && Reports(e, intent)
  }

  /** How many jobs have begun or were skipped. */
  function Turn(s: Navigation): int {
    s.intent - |s.queue|
  }

  // ----- the invariant

  ghost predicate Numbered(s: Navigation) {
    && |s.paths| == s.intent && |s.queue| <= s.intent
    && (forall i :: 0 <= i < |s.queue| ==>
          s.queue[i].intent == Turn(s) + 1 + i && s.queue[i].path == s.paths[Turn(s) + i])
    && (s.running.Some? ==>
          1 <= Turn(s) == s.running.value.job.intent && s.running.value.job.path == s.paths[Turn(s) - 1])
  }

  ghost predicate InOrder(s: Navigation) {
    && Turn(s) >= 0
    && IntentsOf(Beginnings, s.log) == UpTo(Turn(s))
    && (s.running.Some? ==> Turn(s) >= 1)
    && IntentsOf(Endings, s.log) == UpTo(if s.running.Some? then Turn(s) - 1 else Turn(s))
  }

  /** Only the newest request is pending; it stays so until its job has reported. */
  ghost predicate PendingIsNewest(s: Navigation) {
    && (s.pending.Some? ==> s.intent >= 1 && s.pending.value.intent == s.intent)
    && (s.queue != [] || (s.running.Some? && s.running.value.stage != Accepting && s.running.value.job.intent == s.intent) ==>
          s.pending.Some? && !s.pending.value.accepted)
    && (s.running.Some? && s.running.value.stage == Accepting && s.running.value.job.intent == s.intent && s.pending.Some? ==>
          s.pending.value.accepted)
  }

  ghost predicate ReportsInOrder(s: Navigation) {
    && Increasing(IntentsOf(Acceptances, s.log)) && Increasing(IntentsOf(Rejections, s.log))
    && (forall i :: i in IntentsOf(Acceptances, s.log) ==>
          if s.running.Some? && s.running.value.stage != Accepting then i < Turn(s) else i <= Turn(s))
    && (forall i :: i in IntentsOf(Rejections, s.log) ==> if s.running.Some? then i < Turn(s) else i <= Turn(s))
  }

  /** Once its job is over, the newest request has been answered or skipped; a skip means that the
      chain is broken. */
  ghost predicate NewestIsAnswered(s: Navigation) {
    && (s.running.Some? && s.running.value.stage == Accepting && s.running.value.job.intent == s.intent ==>
          Answered(s, s.intent))
    && (Drained(s) && s.intent >= 1 ==> Answered(s, s.intent) || Skipped(s.intent) in s.log)
    && (s.broken ==> s.running.None?)
  }

  ghost predicate AcceptedIsActive(s: Navigation) {
    forall e :: e in s.log && e.Accepted? && e.intent == s.intent ==>
      s.intent == |s.paths| >= 1 && e.session == s.active == Some(Last(s.paths))
  }

  ghost predicate Inv(s: Navigation) {
    Numbered(s) && InOrder(s) && PendingIsNewest(s) && ReportsInOrder(s) && NewestIsAnswered(s) && AcceptedIsActive(s)
  }

  lemma UpToNext(n: nat)
    ensures UpTo(n) + [n + 1] == UpTo(n + 1)
  {
  }

  lemma IncreasingAppended(s: seq<nat>, x: nat)
    requires Increasing(s) && forall i :: i in s ==> i < x
    ensures Increasing(s + [x])
  {
    forall i, j | 0 <= i < j < |s + [x]|
      ensures (s + [x])[i] < (s + [x])[j]
    {
      assert s[i] in s;
    }
  }

  /** One more effect, seen from each of the four sorts. */
  lemma OneMore(log: seq<Effect>, e: Effect)
    ensures forall sort :: IntentsOf(sort, log + [e]) == IntentsOf(sort, log) + if Is(e, sort) then [e.intent] else []
  {
    forall sort
      ensures IntentsOf(sort, log + [e]) == IntentsOf(sort, log) + if Is(e, sort) then [e.intent] else []
    {
      IntentsOfAppended(sort, log, e);
    }
  }

  lemma {:induction false} AcceptedIsListed(log: seq<Effect>, e: Effect)
    requires e in log && e.Accepted?
    ensures e.intent in IntentsOf(Acceptances, log)
    decreases |log|
  {
    if e != Last(log) {
      var i :| 0 <= i < |log| && log[i] == e;
      assert log[..|log| - 1][i] == e;
      AcceptedIsListed(log[..|log| - 1], e);
    }
  }

  /** What a job has not done yet is not in the log. */
  lemma NotAcceptedYet(s: Navigation)
    requires ReportsInOrder(s) && Numbered(s)
    requires s.queue != [] || (s.running.Some? && s.running.value.stage != Accepting)
    ensures forall e :: e in s.log && e.Accepted? ==> e.intent != s.intent
  {
    forall e | e in s.log && e.Accepted?
      ensures e.intent != s.intent
    {
      AcceptedIsListed(s.log, e);
    }
  }

  lemma RequestKeepsNumbers(s: Navigation, path: string)
    requires Numbered(s)
    ensures Numbered(RequestStep(s, path)) && Turn(RequestStep(s, path)) == Turn(s)
  {
    var t := RequestStep(s, path);
    assert forall i :: 0 <= i < |s.paths| ==> t.paths[i] == s.paths[i];
    assert forall i :: 0 <= i < |s.queue| ==> t.queue[i] == s.queue[i];
  }

  lemma RequestKeepsInv(s: Navigation, path: string)
    requires Inv(s)
    ensures Inv(RequestStep(s, path))
  {
    var t := RequestStep(s, path);
    RequestKeepsNumbers(s, path);
    assert t.queue != [] && t.log == s.log;
    assert ReportsInOrder(t);
    NotAcceptedYet(t);
  }

  lemma BeginKeepsNumbers(s: Navigation)
    requires Numbered(s) && s.running.None? && s.queue != []
    ensures Numbered(BeginStep(s)) && Turn(BeginStep(s)) == Turn(s) + 1
  {
    assert forall i :: 0 <= i < |s.queue| - 1 ==> BeginStep(s).queue[i] == s.queue[i + 1];
  }

  lemma BeginKeepsOrder(s: Navigation)
    requires Numbered(s) && InOrder(s) && ReportsInOrder(s) && s.running.None? && s.queue != []
    ensures InOrder(BeginStep(s)) && ReportsInOrder(BeginStep(s))
  {
    var t := BeginStep(s);
    var e := if s.broken then Skipped(s.queue[0].intent) else Started(s.queue[0].intent);
    assert t.log == s.log + [e];
    OneMore(s.log, e);
    UpToNext(Turn(s));
  }

  lemma BeginKeepsInv(s: Navigation)
    requires Inv(s)
    ensures Inv(BeginStep(s))
  {
    if s.running.None? && s.queue != [] {
      var t := BeginStep(s);
      BeginKeepsNumbers(s);
      BeginKeepsOrder(s);
      NotAcceptedYet(s);
      assert t.log == s.log + [Last(t.log)];
    }
  }

  /** A job may end silently unless its request is the newest and has not been answered. */
  lemma EndKeepsInv(s: Navigation)
    requires Inv(s) && s.running.Some?
    requires s.running.value.job.intent == s.intent ==> Answered(s, s.intent)
    ensures Inv(End(s))
  {
    var t := End(s);
    OneMore(s.log, Ended(Turn(s)));
    UpToNext(Turn(s) - 1);
    assert t.log == s.log + [Ended(Turn(s))];
  }

  lemma AcceptKeepsInv(s: Navigation)
    requires Inv(s) && s.running.Some? && s.running.value.stage != Accepting && Newest(s, s.running.value.job)
    requires s.active == Some(s.running.value.job.path)
    ensures Inv(Accept(s, s.active))
  {
    var t := Accept(s, s.active);
    var e := Accepted(s.intent, s.active);
    OneMore(s.log, e);
    assert t.log == s.log + [e];
    IncreasingAppended(IntentsOf(Acceptances, s.log), s.intent);
    NotAcceptedYet(s);
    assert Reports(e, s.intent) && e in t.log;
  }

  lemma RejectKeepsInv(s: Navigation, throws: bool)
    requires Inv(s) && s.running.Some? && Newest(s, s.running.value.job)
    ensures Inv(Fail(s, throws))
  {
    var t := Fail(s, throws);
    var e, f := Rejected(s.intent, s.running.value.current), Ended(s.intent);
    OneMore(s.log, e);
    OneMore(s.log + [e], f);
    assert t.log == s.log + [e] + [f];
    IncreasingAppended(IntentsOf(Rejections, s.log), s.intent);
    UpToNext(Turn(s) - 1);
    assert Reports(e, s.intent) && e in t.log;
  }

  /** A job that is not the newest, or whose request has been answered, fails silently. */
  lemma FailKeepsInv(s: Navigation, throws: bool)
    requires Inv(s) && s.running.Some?
    ensures Inv(Fail(s, throws))
  {
    if Newest(s, s.running.value.job) {
      RejectKeepsInv(s, throws);
    } else {
      EndKeepsInv(s);
    }
  }

  /** While a job waits for an opening, the active session may change. */
  lemma ActiveMayChange(s: Navigation, active: Session)
    requires Inv(s) && s.running.Some? && s.running.value.stage != Accepting
    ensures Inv(s.(active := active))
  {
    NotAcceptedYet(s);
  }

  lemma NextKeepsInv(s: Navigation, step: Step)
    requires Inv(s)
    ensures Inv(Next(s, step))
  {
    match step
    case Request(path) => RequestKeepsInv(s, path);
    case Begin => BeginKeepsInv(s);
    case SessionRead(ok, throws) => SessionReadKeepsInv(s, ok, throws);
    case SessionOpened(ok, after, throws) => SessionOpenedKeepsInv(s, ok, after, throws);
    case Handled(ok, throws) =>
      if s.running.Some? && s.running.value.stage == Accepting {
        if ok {
          EndKeepsInv(s);
        } else {
          FailKeepsInv(s, throws);
        }
      }
    case Settled =>
  }

  lemma SessionReadKeepsInv(s: Navigation, ok: bool, throws: bool)
    requires Inv(s)
    ensures Inv(SessionReadStep(s, ok, throws))
  {
    if s.running.Some? && s.running.value.stage == Asking {
      if !ok {
        FailKeepsInv(s, throws);
      } else {
        var told := s.(running := Some(s.running.value.(current := Some(s.active))));
        assert Inv(told);
        if !Newest(s, s.running.value.job) {
          EndKeepsInv(told);
        } else if Some(s.running.value.job.path) == s.active {
          AcceptKeepsInv(told);
        }
      }
    }
  }

  lemma SessionOpenedKeepsInv(s: Navigation, ok: bool, after: Session, throws: bool)
    requires Inv(s)
    ensures Inv(SessionOpenedStep(s, ok, after, throws))
  {
    if s.running.Some? && s.running.value.stage == Opening {
      if !ok {
        ActiveMayChange(s, after);
        FailKeepsInv(s.(active := after), throws);
      } else {
        var moved := s.(active := Some(s.running.value.job.path));
        ActiveMayChange(s, moved.active);
        if Newest(s, s.running.value.job) {
          AcceptKeepsInv(moved);
        } else {
          EndKeepsInv(moved);
        }
      }
    }
  }

  lemma {:induction false} RunKeepsInv(s: Navigation, steps: seq<Step>)
    requires Inv(s)
    ensures Inv(Run(s, steps))
    decreases |steps|
  {
    if steps != [] {
      NextKeepsInv(s, steps[0]);
      RunKeepsInv(Next(s, steps[0]), steps[1..]);
    }
  }

  lemma StartKeepsInv(active: Session, steps: seq<Step>)
    ensures Inv(Run(Initial(active), steps))
  {
    RunKeepsInv(Initial(active), steps);
  }

  // ----- over every run

  /** Jobs begin in the order of their requests, and the next begins only when the one before is over. */
  lemma JobsRunInOrder(active: Session, steps: seq<Step>)
    ensures var t := Run(Initial(active), steps);
            && 0 <= Turn(t) && IntentsOf(Beginnings, t.log) == UpTo(Turn(t))
            && (t.running.Some? ==> Turn(t) >= 1)
            && IntentsOf(Endings, t.log) == UpTo(if t.running.Some? then Turn(t) - 1 else Turn(t))
  {
    StartKeepsInv(active, steps);
  }

  /** Requests are accepted in increasing order, and so are they rejected. */
  lemma ReportsIncrease(active: Session, steps: seq<Step>)
    ensures var t := Run(Initial(active), steps);
            Increasing(IntentsOf(Acceptances, t.log)) && Increasing(IntentsOf(Rejections, t.log))
  {
    StartKeepsInv(active, steps);
  }

  /** A report that is not in the first log. */
  ghost predicate NewReports(before: seq<Effect>, after: seq<Effect>, least: nat) {
    before <= after && forall e, i: nat :: e in after[|before|..] && Reports(e, i) ==> i >= least
  }

  lemma FailReportsNewest(s: Navigation, throws: bool)
    requires PendingIsNewest(s) && s.running.Some?
    ensures NewReports(s.log, Fail(s, throws).log, s.intent) && Fail(s, throws).intent == s.intent
  {
    var job := s.running.value.job;
    var e, f := Rejected(job.intent, s.running.value.current), Ended(job.intent);
    assert Fail(s, throws).log[|s.log|..] == if Newest(s, job) then [e, f] else [f];
  }

  lemma AcceptReportsNewest(s: Navigation, session: Session)
    requires PendingIsNewest(s) && s.running.Some? && Newest(s, s.running.value.job)
    ensures NewReports(s.log, Accept(s, session).log, s.intent) && Accept(s, session).intent == s.intent
  {
    assert Accept(s, session).log[|s.log|..] == [Accepted(s.intent, session)];
  }

  lemma StepReportsNewest(s: Navigation, step: Step)
    requires Inv(s)
    ensures NewReports(s.log, Next(s, step).log, s.intent) && s.intent <= Next(s, step).intent
  {
    if s.running.Some? {
      match step
      case SessionRead(ok, throws) =>
        var told := s.(running := Some(s.running.value.(current := Some(s.active))));
        FailReportsNewest(s, throws);
        if Newest(told, told.running.value.job) {
          AcceptReportsNewest(told, s.active);
        }
      case SessionOpened(ok, after, throws) =>
        var moved := s.(active := Some(s.running.value.job.path));
        FailReportsNewest(s.(active := after), throws);
        if Newest(moved, moved.running.value.job) {
          AcceptReportsNewest(moved, moved.active);
        }
      case Handled(ok, throws) => FailReportsNewest(s, throws);
      case _ =>
    }
  }

  /** A broken chain has no job that could report. */
  lemma BrokenStepIsSilent(s: Navigation, step: Step)
    requires Inv(s) && s.broken
    ensures s.log <= Next(s, step).log && Next(s, step).broken
    ensures forall e, i: nat :: e in Next(s, step).log[|s.log|..] ==> !Reports(e, i)
  {
    assert s.running.None?;
  }

  /** From the moment a newer request is made, no job of an older one is accepted or rejected any more,
      however far it has come. */
  lemma {:induction false} SupersededIsSilent(s: Navigation, steps: seq<Step>)
    requires Inv(s)
    ensures NewReports(s.log, Run(s, steps).log, s.intent)
    decreases |steps|
  {
    if steps != [] {
      var t := Next(s, steps[0]);
      StepReportsNewest(s, steps[0]);
      NextKeepsInv(s, steps[0]);
      SupersededIsSilent(t, steps[1..]);
      Suffixes(s.log, t.log, Run(s, steps).log);
    }
  }

  lemma Suffixes<T>(a: seq<T>, b: seq<T>, c: seq<T>)
    requires a <= b <= c
    ensures c[|a|..] == b[|a|..] + c[|b|..]
  {
  }

  /** After a rejection handler has thrown, no request is ever accepted or rejected again. */
  lemma {:induction false} BrokenIsSilent(s: Navigation, steps: seq<Step>)
    requires Inv(s) && s.broken
    ensures s.log <= Run(s, steps).log && forall e, i: nat :: e in Run(s, steps).log[|s.log|..] ==> !Reports(e, i)
    decreases |steps|
  {
    if steps != [] {
      var t := Next(s, steps[0]);
      BrokenStepIsSilent(s, steps[0]);
      NextKeepsInv(s, steps[0]);
      BrokenIsSilent(t, steps[1..]);
      Suffixes(s.log, t.log, Run(s, steps).log);
    }
  }

  predicate Throws(step: Step) {
    match step
    case SessionRead(_, throws) => throws
    case SessionOpened(_, _, throws) => throws
    case Handled(_, throws) => throws
    case _ => false
  }

  ghost predicate Unbroken(s: Navigation) {
    !s.broken && forall e :: e in s.log ==> !e.Skipped?
  }

  lemma {:induction false} StaysUnbroken(s: Navigation, steps: seq<Step>)
    requires Unbroken(s) && forall step :: step in steps ==> !Throws(step)
    ensures Unbroken(Run(s, steps))
    decreases |steps|
  {
    if steps != [] {
      assert steps[0] in steps;
      StaysUnbroken(Next(s, steps[0]), steps[1..]);
    }
  }

  /** If no rejection handler throws, the last request has been accepted or rejected by the time the
      queue has drained. */
  lemma LastRequestIsAnswered(active: Session, steps: seq<Step>)
    requires forall step :: step in steps ==> !Throws(step)
    ensures var t := Run(Initial(active), steps);
            Drained(t) && t.intent >= 1 ==> Answered(t, t.intent)
  {
    StartKeepsInv(active, steps);
    StaysUnbroken(Initial(active), steps);
  }

  /** Whatever else happens: if the newest request has been accepted, its session is the active one. */
  lemma AcceptedSessionIsActive(active: Session, steps: seq<Step>, session: Session)
    requires var t := Run(Initial(active), steps); Accepted(t.intent, session) in t.log
    ensures var t := Run(Initial(active), steps);
            t.paths != [] && t.active == session == Some(Last(t.paths))
  {
    StartKeepsInv(active, steps);
  }

  // ----- the references that the callbacks share

  class NavigationRefs {
    var intent: nat
    var pending: Option<Pending>
    var queue: seq<Job>
    var running: Option<Running>
    var broken: bool
    var active: Session
    ghost var paths: seq<string>
    ghost var log: seq<Effect>

    constructor (session: Session)
      ensures Current() == Initial(session)
    {
      intent, pending, queue, running, broken, active := 0, None, [], None, false, session;
      paths, log := [], [];
    }

    ghost function Current(): Navigation
      reads this
    {
      Navigation(intent, pending, queue, running, broken, active, paths, log)
    }

    /** `enqueueSessionNavigation` as far as the caller waits for it. */
    method Enqueue(path: string)
      modifies this
      ensures Current() == RequestStep(old(Current()), path)
    {
      intent := intent + 1;
      pending := Some(Pending(intent, path, false));
      queue := queue + [Job(intent, path)];
      paths := paths + [path];
    }

    /** The promise in front of the first job is settled. */
    method BeginJob()
      requires running.None? && queue != []
      modifies this
      ensures Current() == BeginStep(old(Current()))
    {
      var job := queue[0];
      queue := queue[1..];
      if broken {
        log := log + [Skipped(job.intent)];
      } else {
        running := Some(Running(job, Asking, None));
        log := log + [Started(job.intent)];
      }
    }

    method EndJob()
      requires running.Some?
      modifies this
      ensures Current() == End(old(Current()))
    {
      log := log + [Ended(running.value.job.intent)];
      running := None;
    }

    /** The part of a job that follows its second check. */
    method AcceptJob(session: Session)
      requires running.Some?
      modifies this
      ensures Current() == Accept(old(Current()), session)
    {
      var job := running.value.job;
      pending := Some(Pending(job.intent, job.path, true));
      running := Some(running.value.(stage := Accepting));
      log := log + [Accepted(job.intent, session)];
    }

    /** The catch clause of a job. */
    method CatchInJob(throws: bool)
      requires running.Some?
      modifies this
      ensures Current() == Fail(old(Current()), throws)
    {
      var job := running.value.job;
      if pending.Some? && pending.value.intent == job.intent {
        pending := None;
        log := log + [Rejected(job.intent, running.value.current)];
        if throws {
          broken := true;
        }
      }
      EndJob();
    }

    /** `getSession` has answered or failed. */
    method SessionIsRead(ok: bool, throws: bool)
      requires running.Some? && running.value.stage == Asking
      modifies this
      ensures Current() == SessionReadStep(old(Current()), ok, throws)
    {
      if !ok {
        CatchInJob(throws);
        return;
      }
      var job := running.value.job;
      running := Some(running.value.(current := Some(active)));
      if !(pending.Some? && pending.value.intent == job.intent) {
        EndJob();
        return;
      }
      if Some(job.path) != active {
        running := Some(running.value.(stage := Opening));
      } else {
        AcceptJob(active);
      }
    }

    /** `openSession` has answered or failed. */
    method SessionIsOpened(ok: bool, after: Session, throws: bool)
      requires running.Some? && running.value.stage == Opening
      modifies this
      ensures Current() == SessionOpenedStep(old(Current()), ok, after, throws)
    {
      if !ok {
        active := after;
        CatchInJob(throws);
        return;
      }
      var job := running.value.job;
      active := Some(job.path);
      if !(pending.Some? && pending.value.intent == job.intent) {
        EndJob();
      } else {
        AcceptJob(active);
      }
    }

    /** `onAccepted` has returned or thrown. */
    method AcceptanceIsHandled(ok: bool, throws: bool)
      requires running.Some? && running.value.stage == Accepting
      modifies this
      ensures Current() == HandledStep(old(Current()), ok, throws)
    {
      if ok {
        EndJob();
      } else {
        CatchInJob(throws);
      }
    }
  }
}
