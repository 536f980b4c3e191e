/** The restart limiter of the development supervisor: it gives up when the child asks for a restart
    too often within a sliding window. */
module RestartWindow {
  import opened Wrappers

  const RESTART_WINDOW_MS := 10_000
  const RESTART_WINDOW_LIMIT := 5

  /** What is known when the child has exited: it asks for a restart at some time, or it ends with a
      code. */
  datatype Exit = AsksRestart(at: int) | EndsWith(code: int)

  /** How the supervisor ends; a supervisor that is still at work has no outcome. */
  datatype Outcome = Finished(code: int) | GaveUp

  /** The recent restarts and, once there is one, the outcome. */
  datatype Supervisor = Supervisor(restarts: seq<int>, outcome: Option<Outcome>)

  /** The queue without the entries in front that are too gone. */
  function Recent(restarts: seq<int>, now: int): seq<int> {
    if restarts != [] && now - restarts[0] > RESTART_WINDOW_MS then Recent(restarts[1..], now) else restarts
  }

  function ExitStep(s: Supervisor, exit: Exit): Supervisor {
    if s.outcome.Some? then s
    else
      match exit
      case EndsWith(code) => s.(outcome := Some(Finished(code)))
      case AsksRestart(at) =>
        var restarts := Recent(s.restarts, at) + [at];
        Supervisor(restarts, if |restarts| > RESTART_WINDOW_LIMIT then Some(GaveUp) else None)
  }

  function Run(exits: seq<Exit>): Supervisor {
    if exits == [] then Supervisor([], None) else ExitStep(Run(exits[..|exits| - 1]), Last(exits))
  }

  function Requests(times: seq<int>): seq<Exit> {
    seq(|times|, i requires 0 <= i < |times| => AsksRestart(times[i]))
  }

  ghost predicate NonDecreasing(times: seq<int>) {
    forall i, j :: 0 <= i < j < |times| ==> times[i] <= times[j]
  }

  /** The restart with this number follows its fifth predecessor within the window. */
  predicate TooSoon(times: seq<int>, i: nat) {
    RESTART_WINDOW_LIMIT <= i < |times| && times[i] - times[i - RESTART_WINDOW_LIMIT] <= RESTART_WINDOW_MS
  }

  /** The queue is what the whole history holds within the window before its end. */
  ghost predicate IsWindow(times: seq<int>, restarts: seq<int>) {
    && |restarts| <= |times|
    && restarts == times[|times| - |restarts|..]
    && forall i :: 0 <= i < |times| ==> (i >= |times| - |restarts| <==> Last(times) - times[i] <= RESTART_WINDOW_MS)
  }

  lemma {:induction false} RecentIsSuffix(restarts: seq<int>, now: int)
    requires NonDecreasing(restarts)
    ensures |Recent(restarts, now)| <= |restarts|
    ensures Recent(restarts, now) == restarts[|restarts| - |Recent(restarts, now)|..]
    ensures forall i :: 0 <= i < |restarts| ==>
      (i >= |restarts| - |Recent(restarts, now)| <==> now - restarts[i] <= RESTART_WINDOW_MS)
  {
    if restarts != [] && now - restarts[0] > RESTART_WINDOW_MS {
      RecentIsSuffix(restarts[1..], now);
      assert forall i :: 0 < i < |restarts| ==> restarts[i] == restarts[1..][i - 1];
    }
  }

  /** One more restart moves the window. */
  lemma WindowMoves(times: seq<int>, restarts: seq<int>, now: int)
    requires NonDecreasing(times + [now]) && IsWindow(times, restarts)
    ensures IsWindow(times + [now], Recent(restarts, now) + [now])
  {
    var all, gone := times + [now], |times| - |restarts|;
    assert forall i :: 0 <= i < |times| ==> all[i] == times[i];
    assert forall i :: 0 <= i < |restarts| ==> restarts[i] == times[gone + i];
    RecentIsSuffix(restarts, now);
    var recent := Recent(restarts, now);
    assert all[|times|] == now;
    assert recent + [now] == all[|times| - |recent|..];
    forall i | 0 <= i < |all|
      ensures i >= |times| - |recent| <==> now - all[i] <= RESTART_WINDOW_MS
    {
      if gone <= i < |times| {
        assert all[i] == restarts[i - gone];
      } else if i < gone {
        assert times[i] <= Last(times) <= now;
      }
    }
  }

  lemma OneMoreRestart(before: seq<int>, now: int)
    ensures Run(Requests(before + [now])) == ExitStep(Run(Requests(before)), AsksRestart(now))
  {
    assert Requests(before + [now])[..|before|] == Requests(before);
  }

  /** With a clock that does not run backwards, and as long as no restart has come too soon, the queue
      is exactly the window of the whole history. */
  lemma {:induction false} QueueIsWindow(times: seq<int>)
    requires NonDecreasing(times) && forall i: nat :: i < |times| ==> !TooSoon(times, i)
    ensures Run(Requests(times)).outcome.None? && IsWindow(times, Run(Requests(times)).restarts)
    decreases |times|
  {
    if times != [] {
      var before, now := times[..|times| - 1], Last(times);
      assert times == before + [now];
      OneMoreRestart(before, now);
      forall i: nat | i < |before|
        ensures !TooSoon(before, i)
      {
        assert !TooSoon(times, i);
      }
      QueueIsWindow(before);
      WindowMoves(before, Run(Requests(before)).restarts, now);
      assert !TooSoon(times, |times| - 1);
      WindowIsShort(times, Run(Requests(times)).restarts);
    }
  }

  /** The window is over the limit exactly when the newest restart came too soon. */
  lemma WindowIsShort(times: seq<int>, restarts: seq<int>)
    requires times != [] && IsWindow(times, restarts)
    ensures |restarts| > RESTART_WINDOW_LIMIT <==> TooSoon(times, |times| - 1)
  {
  }

  lemma {:induction false} OutcomeStays(exits: seq<Exit>, n: nat)
    requires n <= |exits| && Run(exits[..n]).outcome.Some?
    ensures Run(exits) == Run(exits[..n])
    decreases |exits|
  {
    if n < |exits| {
      var before := exits[..|exits| - 1];
      assert before[..n] == exits[..n];
      OutcomeStays(before, n);
    } else {
      assert exits[..n] == exits;
    }
  }

  /** The supervisor gives up at the first restart that comes too soon after its fifth predecessor,
      and at no other. */
  lemma GivesUpExactly(times: seq<int>)
    requires NonDecreasing(times)
    ensures Run(Requests(times)).outcome == Some(GaveUp) <==> exists i: nat :: TooSoon(times, i)
    ensures Run(Requests(times)).outcome.None? <==> forall i: nat :: !TooSoon(times, i)
    ensures forall i: nat :: TooSoon(times, i) && (forall k: nat :: k < i ==> !TooSoon(times, k)) ==>
      && Run(Requests(times[..i])).outcome.None?
      && Run(Requests(times[..i + 1])).outcome == Some(GaveUp)
  {
    forall i: nat | TooSoon(times, i) && forall k: nat :: k < i ==> !TooSoon(times, k)
      ensures Run(Requests(times[..i])).outcome.None?
      ensures Run(Requests(times[..i + 1])).outcome == Some(GaveUp)
      ensures Run(Requests(times)).outcome == Some(GaveUp)
    {
      GivesUpAt(times, i);
    }
    if n: nat :| TooSoon(times, n) {
      var i := FirstTooSoon(times, n);
      GivesUpAt(times, i);
    } else {
      QueueIsWindow(times);
    }
  }

  lemma {:induction false} FirstTooSoon(times: seq<int>, n: nat) returns (i: nat)
    requires TooSoon(times, n)
    ensures TooSoon(times, i) && forall k: nat :: k < i ==> !TooSoon(times, k)
    decreases n
  {
    if k: nat :| k < n && TooSoon(times, k) {
      i := FirstTooSoon(times, k);
    } else {
      i := n;
    }
  }

  lemma GivesUpAt(times: seq<int>, i: nat)
    requires NonDecreasing(times) && TooSoon(times, i) && forall k: nat :: k < i ==> !TooSoon(times, k)
    ensures Run(Requests(times[..i])).outcome.None?
    ensures Run(Requests(times[..i + 1])).outcome == Some(GaveUp)
    ensures Run(Requests(times)).outcome == Some(GaveUp)
  {
    var before, upTo := times[..i], times[..i + 1];
    forall k: nat | k < |before|
      ensures !TooSoon(before, k)
    {
      assert !TooSoon(times, k);
    }
    QueueIsWindow(before);
    assert upTo == before + [times[i]];
    OneMoreRestart(before, times[i]);
    WindowMoves(before, Run(Requests(before)).restarts, times[i]);
    assert TooSoon(upTo, i);
    WindowIsShort(upTo, Run(Requests(upTo)).restarts);
    assert Requests(times)[..i + 1] == Requests(upTo);
    OutcomeStays(Requests(times), i + 1);
  }

  /** So no window holds more than five restarts after which the supervisor went on. */
  lemma AtMostFiveInAnyWindow(times: seq<int>, i: nat, j: nat)
    requires NonDecreasing(times) && Run(Requests(times)).outcome.None?
    requires i <= j < |times| && times[j] - times[i] <= RESTART_WINDOW_MS
    ensures j - i + 1 <= RESTART_WINDOW_LIMIT
  {
    assert j - i >= RESTART_WINDOW_LIMIT ==> times[i] <= times[j - RESTART_WINDOW_LIMIT];
    assert j - i >= RESTART_WINDOW_LIMIT ==> TooSoon(times, j);
    GivesUpExactly(times);
    assert !TooSoon(times, j);
  }

  /** `superviseDevelopmentProcess`, given how the child exits each time; None when the exits run out
      while it is still at work. */
  method Supervise(exits: seq<Exit>) returns (outcome: Option<Outcome>)
    ensures outcome == Run(exits).outcome
  {
    var restarts: seq<int> := [];
    var n := 0;
    while n < |exits|
      invariant 0 <= n <= |exits|
      invariant Run(exits[..n]) == Supervisor(restarts, None)
    {
      var exit := exits[n];
      assert exits[..n + 1][..n] == exits[..n];
      n := n + 1;
      if exit.EndsWith? {
        OutcomeStays(exits, n);
        return Some(Finished(exit.code));
      }
      ghost var before := restarts;
      while |restarts| > 0 && exit.at - restarts[0] > RESTART_WINDOW_MS
        invariant Recent(restarts, exit.at) == Recent(before, exit.at)
        decreases |restarts|
      {
        restarts := restarts[1..];
      }
      restarts := restarts + [exit.at];
      if |restarts| > RESTART_WINDOW_LIMIT {
        OutcomeStays(exits, n);
        return Some(GaveUp);
      }
    }
    assert exits[..n] == exits;
    return None;
  }
}
