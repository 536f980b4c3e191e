/** What the prompt endpoint answers, in every reachable state, by what the log accounts for. */
module PromptAnswers {
  import opened Wrappers
  import opened PromptProtocol

  // ----- the receipt that is found

  /** The first acceptance of the key whose receipt is kept. */
  ghost predicate FirstKept(log: seq<Event>, i: int, key: Key) {
    KeptAt(log, i, key) && forall j :: 0 <= j < i ==> !KeptAt(log, j, key)
  }

  predicate StoredAt(log: seq<Event>, i: int, key: Key) {
    AcceptedAt(log, i, key) && log[i].persistence == Stored
  }

  ghost predicate FirstStored(log: seq<Event>, i: int, key: Key) {
    StoredAt(log, i, key) && forall j :: 0 <= j < i ==> !StoredAt(log, j, key)
  }

  function FirstOf(receipts: seq<Receipt>, key: Key): Option<Receipt> {
    if receipts == [] then None else if receipts[0].key == key then Some(receipts[0]) else FirstOf(receipts[1..], key)
  }

  lemma {:induction false} FindIsFirst(receipts: seq<Receipt>, key: Key)
    ensures Find((receipt: Receipt) => receipt.key == key, receipts) == FirstOf(receipts, key)
  {
    if receipts != [] {
      FindIsFirst(receipts[1..], key);
    }
  }

  lemma {:induction false} FirstOfNone(receipts: seq<Receipt>, key: Key)
    ensures FirstOf(receipts, key).None? <==> !Holds(receipts, key)
    ensures FirstOf(receipts, key).Some? ==> FirstOf(receipts, key).value.key == key
  {
    if receipts != [] {
      FirstOfNone(receipts[1..], key);
      if Holds(receipts[1..], key) {
        var k :| 0 <= k < |receipts[1..]| && receipts[1..][k].key == key;
        assert receipts[k + 1].key == key;
      }
      if Holds(receipts, key) && receipts[0].key != key {
        var k :| 0 <= k < |receipts| && receipts[k].key == key;
        assert receipts[1..][k - 1].key == key;
      }
    }
  }

  lemma {:induction false} FirstOfAppended(receipts: seq<Receipt>, r: Receipt, key: Key)
    ensures FirstOf(receipts + [r], key)
         == if FirstOf(receipts, key).Some? then FirstOf(receipts, key) else if r.key == key then Some(r) else None
  {
    if receipts == [] {
      assert [] + [r] == [r];
    } else {
      FirstOfAppended(receipts[1..], r, key);
      assert (receipts + [r])[1..] == receipts[1..] + [r];
    }
  }

  lemma {:induction false} FirstOfFiltered(disk: seq<Receipt>, sessionId: string, key: Key)
    requires key.sessionId == sessionId
    ensures FirstOf(Filter((r: Receipt) => r.key.sessionId == sessionId, disk), key) == FirstOf(disk, key)
  {
    if disk != [] {
      FirstOfFiltered(disk[1..], sessionId, key);
      var rest := Filter((r: Receipt) => r.key.sessionId == sessionId, disk[1..]);
      if disk[0].key.sessionId == sessionId {
        assert Filter((r: Receipt) => r.key.sessionId == sessionId, disk) == [disk[0]] + rest;
        assert ([disk[0]] + rest)[1..] == rest;
      } else {
        assert Filter((r: Receipt) => r.key.sessionId == sessionId, disk) == rest;
      }
    }
  }

  lemma KeptAtAppended(log: seq<Event>, e: Event, i: int, key: Key)
    requires !e.Opened?
    ensures KeptAt(log + [e], i, key) <==>
      KeptAt(log, i, key)
      || (i == |log| && e.Accepted? && e.key == Some(key) && e.reached && e.persistence != Lost)
  {
    var r := log + [e];
    if 0 <= i < |log| {
      assert r[i] == log[i];
      if OpenedAfter(log, i) {
        var j :| i < j < |log| && 0 <= j && log[j].Opened?;
        assert r[j] == log[j];
      }
      if OpenedAfter(r, i) {
        var j :| i < j < |r| && 0 <= j && r[j].Opened?;
        assert log[j] == r[j];
      }
    }
  }

  lemma FirstKeptAppended(log: seq<Event>, e: Event, i: int, key: Key)
    requires !e.Opened? && FirstKept(log + [e], i, key)
    ensures if i < |log| then FirstKept(log, i, key) && (log + [e])[i] == log[i]
            else i == |log| && !Kept(log, key) && e.Accepted? && e.key == Some(key) && e.reached && e.persistence != Lost
  {
    forall j
      ensures KeptAt(log + [e], j, key) <==>
        KeptAt(log, j, key) || (j == |log| && e.Accepted? && e.key == Some(key) && e.reached && e.persistence != Lost)
    {
      KeptAtAppended(log, e, j, key);
    }
    forall j | 0 <= j < |log| && j < i
      ensures !KeptAt(log, j, key)
    {
      assert !KeptAt(log + [e], j, key);
    }
  }

  lemma FirstStoredAppended(log: seq<Event>, e: Event, i: int, key: Key)
    requires FirstStored(log + [e], i, key)
    ensures if i < |log| then FirstStored(log, i, key) && (log + [e])[i] == log[i]
            else i == |log| && !StoredOnce(log, key) && e.Accepted? && e.key == Some(key) && e.persistence == Stored
  {
    var r := log + [e];
    assert forall j :: 0 <= j < |log| ==> r[j] == log[j];
    forall j | 0 <= j < i && AcceptedAt(log, j, key)
      ensures log[j].persistence != Stored
    {
      assert !StoredAt(r, j, key) && r[j] == log[j];
    }
  }

  /** When a session is opened, the first receipt of its file is the first that is kept. */
  lemma FirstKeptAfterOpening(log: seq<Event>, sessionId: string, i: int, key: Key)
    requires FirstKept(log + [Opened(sessionId)], i, key)
    ensures i < |log| && FirstStored(log, i, key) && (log + [Opened(sessionId)])[i] == log[i]
  {
    var r := log + [Opened(sessionId)];
    forall j | 0 <= j < |log|
      ensures KeptAt(r, j, key) <==> StoredAt(log, j, key)
    {
      assert r[j] == log[j] && r[|log|].Opened?;
    }
  }

  // ----- receipts say what the log says

  /** The first receipt of a key, in the files and in memory, is that of its first acceptance that
      counts there: with its digest, and with an error exactly if writing it failed. */
  ghost predicate ReceiptsTell(s: Gate) {
    && (forall i, key :: FirstStored(s.log, i, key) ==>
          FirstOf(s.disk, key) == Some(Receipt(key, s.log[i].digest, false)))
    && (forall i, key :: FirstKept(s.log, i, key) && key.sessionId == s.sessionId ==>
          FirstOf(s.receipts, key) == Some(Receipt(key, s.log[i].digest, s.log[i].persistence == StoredWithError)))
  }

  predicate RanAt(log: seq<Event>, k: int, id: nat, key: Option<Key>, digest: string) {
    0 <= k < |log| && log[k] == Ran(id, key, digest)
  }

  ghost predicate RanBefore(log: seq<Event>, n: int, id: nat, key: Option<Key>, digest: string) {
    exists k :: k < n && RanAt(log, k, id, key, digest)
  }

  /** What was accepted had run, with this key and this digest, and so had what is running. */
  ghost predicate AcceptancesRan(s: Gate) {
    && (forall id :: id in s.requests ==> RanBefore(s.log, |s.log|, id, s.requests[id].key, s.requests[id].digest))
    && (forall j :: 0 <= j < |s.log| && s.log[j].Accepted? ==>
          RanBefore(s.log, j, s.log[j].id, s.log[j].key, s.log[j].digest))
  }

  lemma RanBeforeAppended(log: seq<Event>, e: Event, n: int, id: nat, key: Option<Key>, digest: string)
    requires RanBefore(log, n, id, key, digest)
    ensures RanBefore(log + [e], n, id, key, digest) && RanBefore(log + [e], |log| + 1, id, key, digest)
  {
    var k :| k < n && RanAt(log, k, id, key, digest);
    assert RanAt(log + [e], k, id, key, digest);
  }

  lemma LogGrows(s: Gate, e: Event)
    requires AcceptancesRan(s)
    requires e.Accepted? ==> RanBefore(s.log, |s.log|, e.id, e.key, e.digest)
    ensures forall j :: 0 <= j < |s.log| + 1 && (s.log + [e])[j].Accepted? ==>
      RanBefore(s.log + [e], j, (s.log + [e])[j].id, (s.log + [e])[j].key, (s.log + [e])[j].digest)
    ensures forall id :: id in s.requests ==>
      RanBefore(s.log + [e], |s.log| + 1, id, s.requests[id].key, s.requests[id].digest)
  {
    var r := s.log + [e];
    forall j | 0 <= j < |r| && r[j].Accepted?
      ensures RanBefore(r, j, r[j].id, r[j].key, r[j].digest)
    {
      assert j < |s.log| ==> r[j] == s.log[j];
      RanBeforeAppended(s.log, e, j, r[j].id, r[j].key, r[j].digest);
    }
    forall id | id in s.requests
      ensures RanBefore(r, |s.log| + 1, id, s.requests[id].key, s.requests[id].digest)
    {
      RanBeforeAppended(s.log, e, |s.log|, id, s.requests[id].key, s.requests[id].digest);
    }
  }

  /** An event that neither accepts nor opens. */
  lemma QuietTells(s: Gate, s': Gate, e: Event)
    requires ReceiptsTell(s) && !e.Opened? && !e.Accepted? && s'.log == s.log + [e]
    requires s'.receipts == s.receipts && s'.disk == s.disk && s'.sessionId == s.sessionId
    ensures ReceiptsTell(s')
  {
    forall i, key | FirstStored(s'.log, i, key)
      ensures FirstOf(s'.disk, key) == Some(Receipt(key, s'.log[i].digest, false))
    {
      FirstStoredAppended(s.log, e, i, key);
    }
    forall i, key | FirstKept(s'.log, i, key) && key.sessionId == s'.sessionId
      ensures FirstOf(s'.receipts, key) == Some(Receipt(key, s'.log[i].digest, s'.log[i].persistence == StoredWithError))
    {
      FirstKeptAppended(s.log, e, i, key);
    }
  }

  lemma SubmitTells(s: Gate, payload: Payload)
    requires Inv(s) && ReceiptsTell(s) && AcceptancesRan(s)
    ensures ReceiptsTell(SubmitStep(s, payload)) && AcceptancesRan(SubmitStep(s, payload))
  {
    var s' := SubmitStep(s, payload);
    if Admitted(s, payload) {
      var e := Ran(s.nextId, KeyOf(s, payload), payload.digest);
      QuietTells(s, s', e);
      LogGrows(s, e);
      assert RanAt(s'.log, |s.log|, s.nextId, KeyOf(s, payload), payload.digest);
    }
  }

  lemma PreflightTells(s: Gate, id: nat, persistence: Persistence)
    requires Inv(s) && ReceiptsTell(s)
    ensures ReceiptsTell(PreflightStep(s, id, persistence))
  {
    var s' := PreflightStep(s, id, persistence);
    if s' != s {
      var request := s.requests[id];
      var e := Accepted(id, request.key, request.digest, persistence, request.generation == s.generation);
      forall i, key | FirstStored(s'.log, i, key)
        ensures FirstOf(s'.disk, key) == Some(Receipt(key, s'.log[i].digest, false))
      {
        FirstStoredAppended(s.log, e, i, key);
        FirstOfNone(s.disk, key);
        if request.key.Some? {
          FirstOfAppended(s.disk, Receipt(request.key.value, request.digest, false), key);
        }
      }
      forall i, key | FirstKept(s'.log, i, key) && key.sessionId == s'.sessionId
        ensures FirstOf(s'.receipts, key) == Some(Receipt(key, s'.log[i].digest, s'.log[i].persistence == StoredWithError))
      {
        FirstKeptAppended(s.log, e, i, key);
        FirstOfNone(s.receipts, key);
        if request.key.Some? {
          FirstOfAppended(s.receipts, Receipt(request.key.value, request.digest, persistence == StoredWithError), key);
        }
      }
    }
  }

  lemma PreflightRan(s: Gate, id: nat, persistence: Persistence)
    requires AcceptancesRan(s)
    ensures AcceptancesRan(PreflightStep(s, id, persistence))
  {
    if id in s.requests && !s.requests[id].accepted {
      var request := s.requests[id];
      LogGrows(s, Accepted(id, request.key, request.digest, persistence, request.generation == s.generation));
    }
  }

  lemma OpenTells(s: Gate, sessionId: string)
    requires ReceiptsTell(s) && AcceptancesRan(s)
    ensures ReceiptsTell(OpenSession(s, sessionId)) && AcceptancesRan(OpenSession(s, sessionId))
  {
    var s' := OpenSession(s, sessionId);
    LogGrows(s, Opened(sessionId));
    forall i, key | FirstStored(s'.log, i, key)
      ensures FirstOf(s'.disk, key) == Some(Receipt(key, s'.log[i].digest, false))
    {
      FirstStoredAppended(s.log, Opened(sessionId), i, key);
    }
    forall i, key | FirstKept(s'.log, i, key) && key.sessionId == s'.sessionId
      ensures FirstOf(s'.receipts, key) == Some(Receipt(key, s'.log[i].digest, s'.log[i].persistence == StoredWithError))
    {
      FirstKeptAfterOpening(s.log, sessionId, i, key);
      FirstOfFiltered(s.disk, sessionId, key);
    }
  }

  lemma SettleTells(s: Gate, id: nat)
    requires ReceiptsTell(s) && AcceptancesRan(s)
    ensures ReceiptsTell(SettleStep(s, id)) && AcceptancesRan(SettleStep(s, id))
  {
    if id in s.requests {
      QuietTells(s, SettleStep(s, id), Done(id));
      LogGrows(s, Done(id));
    }
  }

  lemma NextTells(s: Gate, step: Step)
    requires Inv(s) && ReceiptsTell(s) && AcceptancesRan(s)
    ensures ReceiptsTell(Next(s, step)) && AcceptancesRan(Next(s, step))
  {
    match step {
      case Submit(payload) => SubmitTells(s, payload);
      case Preflight(id, persistence) =>
        PreflightTells(s, id, persistence);
        PreflightRan(s, id, persistence);
      case Settle(id) => SettleTells(s, id);
      case OperationStart =>
      case OperationEnd(entered) =>
        if s.sessionOperationBusy && entered.Some? {
          OpenTells(s.(sessionOperationBusy := false), entered.value);
        }
      case RuntimeChange(_, _) =>
      case Restarted(sessionId) =>
        OpenTells(s.(isStreaming := false, isCompacting := false, busy := false, sessionOperationBusy := false,
                     pending := map[], requests := map[]), sessionId);
    }
  }

  lemma {:induction false} RunTells(s: Gate, steps: seq<Step>)
    requires Inv(s) && ReceiptsTell(s) && AcceptancesRan(s)
    ensures ReceiptsTell(Run(s, steps)) && AcceptancesRan(Run(s, steps))
    decreases |steps|
  {
    if steps != [] {
      NextKeepsInv(s, steps[0]);
      NextTells(s, steps[0]);
      RunTells(Next(s, steps[0]), steps[1..]);
    }
  }

  // ----- the main results

  /** In every interleaving, whatever is accepted had run before under the same number, key and digest. */
  lemma AcceptedHasRun(sessionId: string, steps: seq<Step>, j: nat)
    requires j < |Run(Initial(sessionId), steps).log| && Run(Initial(sessionId), steps).log[j].Accepted?
    ensures var log := Run(Initial(sessionId), steps).log;
            exists k :: 0 <= k < j && log[k] == Ran(log[j].id, log[j].key, log[j].digest)
  {
    RunTells(Initial(sessionId), steps);
    var log := Run(Initial(sessionId), steps).log;
    var k :| k < j && RanAt(log, k, log[j].id, log[j].key, log[j].digest);
  }

  /** The request that has claimed a key did so with this digest. */
  ghost predicate ClaimedWith(s: Gate, key: Key, digest: string) {
    exists id :: Owns(s, id, key) && s.requests[id].digest == digest
  }

  ghost predicate Claimed(s: Gate, key: Key) {
    exists id :: Owns(s, id, key)
  }

  /** The first receipt that is kept comes from an acceptance with this digest, written in this way. */
  ghost predicate KeptWith(log: seq<Event>, key: Key, digest: string, persistence: Persistence) {
    exists i :: FirstKept(log, i, key) && log[i].digest == digest && log[i].persistence == persistence
  }

  ghost predicate KeptOther(log: seq<Event>, key: Key, digest: string) {
    exists i :: FirstKept(log, i, key) && log[i].digest != digest
  }

  lemma {:induction false} SomeFirst(log: seq<Event>, i: nat, key: Key) returns (first: nat)
    requires KeptAt(log, i, key)
    ensures FirstKept(log, first, key)
    decreases i
  {
    if j :| 0 <= j < i && KeptAt(log, j, key) {
      first := SomeFirst(log, j, key);
    } else {
      first := i;
    }
  }

  /** The answer of the gate alone, each for its flags. */
  ghost predicate ByFlags(s: Gate, behavior: bool, verdict: Verdict) {
    var open := !s.isCompacting && !s.sessionOperationBusy;
    && (verdict == Compacting <==> s.isCompacting)
    && (verdict == OperationRunning <==> !s.isCompacting && s.sessionOperationBusy)
    && (verdict == ChooseBehavior <==> open && s.isStreaming && !behavior)
    && (verdict == RunQueued <==> open && s.isStreaming && behavior)
    && (verdict == PromptRunning <==> open && !s.isStreaming && s.busy)
    && (verdict == RunAlone <==> open && !s.isStreaming && !s.busy)
  }

  /** What a submission with an id to the active session is told, in every reachable state, by the log,
      the running requests and the flags. Of a kept receipt with its digest: received, if it was
      stored, and its error, if it was not. Of another digest, in the receipt or else in the claim: a
      different prompt. Of a claim with its digest: still checking. And otherwise what the gate says. */
  lemma AnswersExactly(sessionId: string, steps: seq<Step>, payload: Payload)
    requires ForActiveSession(Run(Initial(sessionId), steps), payload)
    ensures var s := Run(Initial(sessionId), steps);
            var key, verdict := KeyOf(s, payload).value, Judge(s, payload);
            && (verdict == Received <==> KeptWith(s.log, key, payload.digest, Stored))
            && (verdict == ReceiptError <==> KeptWith(s.log, key, payload.digest, StoredWithError))
            && (verdict == DifferentPrompt <==>
                  || KeptOther(s.log, key, payload.digest)
                  || (!Kept(s.log, key) && Claimed(s, key) && !ClaimedWith(s, key, payload.digest)))
            && (verdict == StillChecking <==> !Kept(s.log, key) && ClaimedWith(s, key, payload.digest))
            && (!Kept(s.log, key) && !Claimed(s, key) <==> ByFlags(s, payload.behavior, verdict))
  {
    StartKeepsInv(sessionId, steps);
    RunTells(Initial(sessionId), steps);
    var s := Run(Initial(sessionId), steps);
    PreviousExactly(s, KeyOf(s, payload).value, payload.digest);
  }

  /** What is found of an earlier submission. */
  lemma PreviousExactly(s: Gate, key: Key, digest: string)
    requires Inv(s) && ReceiptsTell(s) && key.sessionId == s.sessionId
    ensures var previous := Previous(s, key, digest);
            && (previous == Some(Received) <==> KeptWith(s.log, key, digest, Stored))
            && (previous == Some(ReceiptError) <==> KeptWith(s.log, key, digest, StoredWithError))
            && (previous == Some(DifferentPrompt) <==>
                  KeptOther(s.log, key, digest) || (!Kept(s.log, key) && Claimed(s, key) && !ClaimedWith(s, key, digest)))
            && (previous == Some(StillChecking) <==> !Kept(s.log, key) && ClaimedWith(s, key, digest))
            && (previous == None <==> !Kept(s.log, key) && !Claimed(s, key))
            && (previous.Some? ==> previous.value in {Received, ReceiptError, DifferentPrompt, StillChecking})
  {
    FindIsFirst(s.receipts, key);
    FirstOfNone(s.receipts, key);
    FirstIsUnique(s.log, key);
    if Kept(s.log, key) {
      var i :| KeptAt(s.log, i, key);
      var first := SomeFirst(s.log, i, key);
      assert s.log[first].persistence != Lost;
    }
  }

  lemma FirstIsUnique(log: seq<Event>, key: Key)
    ensures forall i, j :: FirstKept(log, i, key) && FirstKept(log, j, key) ==> i == j
    ensures !Kept(log, key) ==> forall i :: !FirstKept(log, i, key)
  {
  }

  /** Whatever carries no id, and whatever is malformed or for another session, in any state. */
  lemma OtherAnswers(s: Gate, payload: Payload)
    ensures var verdict := Judge(s, payload);
            && (verdict == Malformed <==> !payload.wellFormed)
            && (verdict == SessionChanged <==>
                  payload.wellFormed && payload.requestId.Some? && payload.sessionId != s.sessionId)
            && (payload.wellFormed && payload.requestId.None? ==> ByFlags(s, payload.behavior, verdict))
  {
  }

  // ----- session operations and restarts

  /** The session is the active one now, with exactly the receipts that were ever stored for it. */
  ghost predicate Entered(before: Gate, after: Gate, sessionId: string) {
    && after.sessionId == sessionId && after.disk == before.disk && after.log == before.log + [Opened(sessionId)]
    && (forall r :: r in after.receipts <==> r in before.disk && r.key.sessionId == sessionId)
    && (forall key: Key :: key.sessionId == sessionId ==> (Holds(after.receipts, key) <==> StoredOnce(before.log, key)))
  }

  /** A session operation takes its lock exactly if no prompt and no other operation holds one and the
      session is idle; its end releases the lock and may open a session, and changes nothing else. After
      a restart nothing is claimed, locked or running. */
  lemma OperationsExactly(sessionId: string, steps: seq<Step>, entered: Option<string>, next: string)
    ensures var s := Run(Initial(sessionId), steps);
            var ended, restarted := Next(s, OperationEnd(entered)), Next(s, Restarted(next));
            && (if !s.busy && !s.isStreaming && !s.isCompacting
                then Next(s, OperationStart) == s.(sessionOperationBusy := true)
                else Next(s, OperationStart) == s)
            && (!s.sessionOperationBusy ==> ended == s)
            && (s.sessionOperationBusy ==>
                  && !ended.sessionOperationBusy && ended.pending == s.pending && ended.requests == s.requests
                  && ended.busy == s.busy && ended.isStreaming == s.isStreaming && ended.isCompacting == s.isCompacting
                  && (if entered.Some? then Entered(s, ended, entered.value)
                      else ended == s.(sessionOperationBusy := false)))
            && Entered(s, restarted, next) && restarted.pending == map[] && restarted.requests == map[]
            && !restarted.busy && !restarted.sessionOperationBusy && !restarted.isStreaming && !restarted.isCompacting
  {
    StartKeepsInv(sessionId, steps);
    var s := Run(Initial(sessionId), steps);
    OpeningEnters(s, s.(sessionOperationBusy := false), if entered.Some? then entered.value else next);
    OpeningEnters(s, s.(isStreaming := false, isCompacting := false, busy := false, sessionOperationBusy := false,
                        pending := map[], requests := map[]), next);
  }

  lemma OpeningEnters(s: Gate, free: Gate, sessionId: string)
    requires ReceiptsKept(s) && free.disk == s.disk && free.log == s.log
    ensures Entered(s, OpenSession(free, sessionId), sessionId)
  {
    forall key: Key | key.sessionId == sessionId
      ensures Holds(OpenSession(free, sessionId).receipts, key) <==> StoredOnce(s.log, key)
    {
      HoldsFiltered(s.disk, sessionId, key);
    }
  }
}
