/** The prompt endpoint and the session operations. Handlers interleave at their awaits; what lies
    between two awaits is one step. Requests carry ids so that a client may retry a submission, and
    receipts among the entries of the session tell which submissions were accepted. */
module PromptProtocol {
  import opened Wrappers

  datatype Key = Key(sessionId: string, requestId: string)

  /** The body of a request, after parsing. `wellFormed` stands for the checks answered with 400;
      `behavior` tells whether a streaming behaviour was chosen. */
  datatype Payload = Payload(wellFormed: bool, requestId: Option<string>, sessionId: string, digest: string, behavior: bool)

  /** A receipt entry of a session. An entry that reached memory but not the disk carries an error. */
  datatype Receipt = Receipt(key: Key, digest: string, persistenceError: bool)

  /** How writing a receipt goes. */
  datatype Persistence = Stored | StoredWithError | Lost

  /** A handler suspended in `runtime.prompt`. It holds on to the session that was active when it
      began, the `generation`-th one that was opened. */
  datatype Request = Request(key: Option<Key>, digest: string, ownsBusy: bool, accepted: bool, generation: nat)

  /** `reached` says whether the session that took the receipt was still the active one. */
  datatype Event =
    | Ran(id: nat, key: Option<Key>, digest: string)
    | Accepted(id: nat, key: Option<Key>, digest: string, persistence: Persistence, reached: bool)
    | Done(id: nat)
    | Opened(sessionId: string)

  /** `receipts` are the entries of the active session in memory, `disk` those in the files of all
      sessions. */
  datatype Gate = Gate(
    sessionId: string,
    generation: nat,
    isStreaming: bool,
    isCompacting: bool,
    busy: bool,
    sessionOperationBusy: bool,
    pending: map<Key, string>,
    receipts: seq<Receipt>,
    disk: seq<Receipt>,
    requests: map<nat, Request>,
    nextId: nat,
    log: seq<Event>
  )

  datatype Step =
    | Submit(payload: Payload)
    | Preflight(id: nat, persistence: Persistence)
    | Settle(id: nat)
    | OperationStart
    | OperationEnd(entered: Option<string>)
    | RuntimeChange(isStreaming: bool, isCompacting: bool)
    | Restarted(sessionId: string)

  datatype Verdict =
    | Malformed
    | SessionChanged
    | DifferentPrompt
    | ReceiptError
    | Received
    | StillChecking
    | Compacting
    | OperationRunning
    | ChooseBehavior
    | PromptRunning
    | RunQueued
    | RunAlone

  function KeyOf(s: Gate, payload: Payload): Option<Key> {
    if payload.requestId.None? then None else Some(Key(s.sessionId, payload.requestId.value))
  }

  function ReceiptFor(s: Gate, key: Key): Option<Receipt> {
    Find((receipt: Receipt) => receipt.key == key, s.receipts)
  }

  /** The answer to a submission that has a receipt or is still pending. */
  function Previous(s: Gate, key: Key, digest: string): Option<Verdict> {
    var receipt := ReceiptFor(s, key);
    if receipt.Some? then
      Some(if receipt.value.digest != digest then DifferentPrompt
           else if receipt.value.persistenceError then ReceiptError
           else Received)
    else if key in s.pending then
      Some(if s.pending[key] != digest then DifferentPrompt else StillChecking)
    else None
  }

  /** What the handler decides before its first await on the runtime. */
  function Judge(s: Gate, payload: Payload): Verdict {
    if !payload.wellFormed then Malformed
    else if payload.requestId.Some? && payload.sessionId != s.sessionId then SessionChanged
    else if payload.requestId.Some? && Previous(s, KeyOf(s, payload).value, payload.digest).Some? then
      Previous(s, KeyOf(s, payload).value, payload.digest).value
    else if s.isCompacting then Compacting
    else if s.sessionOperationBusy then OperationRunning
    else if s.isStreaming then
      if payload.behavior then RunQueued else ChooseBehavior
    else if s.busy then PromptRunning
    else RunAlone
  }

  function SubmitStep(s: Gate, payload: Payload): Gate {
    var verdict := Judge(s, payload);
    if !verdict.RunQueued? && !verdict.RunAlone? then s
    else
      var key := KeyOf(s, payload);
      s.(busy := s.busy || verdict.RunAlone?,
         pending := if key.Some? then s.pending[key.value := payload.digest] else s.pending,
         requests := s.requests[s.nextId := Request(key, payload.digest, verdict.RunAlone?, false, s.generation)],
         nextId := s.nextId + 1,
         log := s.log + [Ran(s.nextId, key, payload.digest)])
  }

  /** The runtime accepts the prompt; the callback writes the receipt, once, to the session that the
      handler holds on to. A receipt whose write fails may still be among the entries in memory. */
  function PreflightStep(s: Gate, id: nat, persistence: Persistence): Gate {
    if id !in s.requests || s.requests[id].accepted then s
    else
      var request := s.requests[id];
      var reached := request.generation == s.generation;
      s.(requests := s.requests[id := request.(accepted := true)],
         receipts := if request.key.Some? && persistence != Lost && reached
                     then s.receipts + [Receipt(request.key.value, request.digest, persistence == StoredWithError)]
                     else s.receipts,
         disk := if request.key.Some? && persistence == Stored
                 then s.disk + [Receipt(request.key.value, request.digest, false)]
                 else s.disk,
         log := s.log + [Accepted(id, request.key, request.digest, persistence, reached)])
  }

  /** A session is opened: its entries are what its file holds. */
  function OpenSession(s: Gate, sessionId: string): Gate {
    s.(sessionId := sessionId,
       generation := s.generation + 1,
       receipts := Filter((r: Receipt) => r.key.sessionId == sessionId, s.disk),
       log := s.log + [Opened(sessionId)])
  }

  /** The runtime call ends, normally or not; the finally clause releases what was claimed. */
  function SettleStep(s: Gate, id: nat): Gate {
    if id !in s.requests then s
    else
      var request := s.requests[id];
      s.(pending := if request.key.Some? then s.pending - {request.key.value} else s.pending,
         busy := s.busy && !request.ownsBusy,
         requests := s.requests - {id},
         log := s.log + [Done(id)])
  }

  predicate MayOperate(s: Gate) {
    !s.busy && !s.isStreaming && !s.isCompacting && !s.sessionOperationBusy
  }

  function Next(s: Gate, step: Step): Gate {
    match step
    case Submit(payload) => SubmitStep(s, payload)
    case Preflight(id, persistence) => PreflightStep(s, id, persistence)
    case Settle(id) => SettleStep(s, id)
    case OperationStart => if MayOperate(s) then s.(sessionOperationBusy := true) else s
    case OperationEnd(entered) =>
      if !s.sessionOperationBusy then s
      else
        var released := s.(sessionOperationBusy := false);
        if entered.Some? then OpenSession(released, entered.value) else released
    case RuntimeChange(isStreaming, isCompacting) => s.(isStreaming := isStreaming, isCompacting := isCompacting)
    case Restarted(sessionId) =>
      OpenSession(s.(isStreaming := false, isCompacting := false, busy := false, sessionOperationBusy := false,
                     pending := map[], requests := map[]), sessionId)
  }

  function Run(s: Gate, steps: seq<Step>): Gate
    decreases |steps|
  {
    if steps == [] then s else Run(Next(s, steps[0]), steps[1..])
  }

  function Initial(sessionId: string): Gate {
    Gate(sessionId, 0, false, false, false, false, map[], [], [], map[], 0, [])
  }

  // ----- invariants

  predicate Owns(s: Gate, id: nat, key: Key) {
    id in s.requests && s.requests[id].key == Some(key)
  }

  predicate Holds(receipts: seq<Receipt>, key: Key) {
    exists k :: 0 <= k < |receipts| && receipts[k].key == key
  }

  /** The locks: never both, and each held by exactly the handler that set it. */
  ghost predicate LocksHeld(s: Gate) {
    && !(s.busy && s.sessionOperationBusy)
    && (s.busy <==> exists id :: id in s.requests && s.requests[id].ownsBusy)
    && (forall a, b :: a in s.requests && b in s.requests && s.requests[a].ownsBusy && s.requests[b].ownsBusy ==> a == b)
    && (forall id :: id in s.requests ==> id < s.nextId && s.requests[id].generation <= s.generation)
  }

  /** A claimed key has exactly one owner, and an owner has claimed its key with its digest. */
  ghost predicate ClaimsOwned(s: Gate) {
    && (forall id, key :: Owns(s, id, key) ==> key in s.pending && s.pending[key] == s.requests[id].digest)
    && (forall key :: key in s.pending ==> exists id :: Owns(s, id, key))
    && (forall a, b, key :: Owns(s, a, key) && Owns(s, b, key) ==> a == b)
  }

  // ----- which receipts are there, by the log

  predicate OpenedAfter(log: seq<Event>, i: int) {
    exists j :: i < j < |log| && 0 <= j && log[j].Opened?
  }

  predicate AcceptedAt(log: seq<Event>, i: int, key: Key) {
    0 <= i < |log| && log[i].Accepted? && log[i].key == Some(key)
  }

  /** The receipt of this acceptance is among the entries of the active session: it was put there and
      no session has been opened since, or it was read from the file when one was. */
  predicate KeptAt(log: seq<Event>, i: int, key: Key) {
    && AcceptedAt(log, i, key)
    && if OpenedAfter(log, i) then log[i].persistence == Stored else log[i].reached && log[i].persistence != Lost
  }

  ghost predicate Kept(log: seq<Event>, key: Key) {
    exists i :: KeptAt(log, i, key)
  }

  ghost predicate StoredOnce(log: seq<Event>, key: Key) {
    exists i :: AcceptedAt(log, i, key) && log[i].persistence == Stored
  }

  predicate Acknowledged(e: Event, key: Key) {
    e.Accepted? && e.key == Some(key) && e.persistence == Stored && e.reached
  }

  predicate Repeats(e: Event, key: Key) {
    (e.Accepted? || e.Ran?) && e.key == Some(key)
  }

  /** After a key was accepted with a stored receipt, it neither runs nor is accepted again. */
  ghost predicate AtMostOnce(log: seq<Event>) {
    forall i, j, key :: 0 <= i < j < |log| && Acknowledged(log[i], key) ==> !Repeats(log[j], key)
  }

  lemma KeptAppended(log: seq<Event>, e: Event, key: Key)
    requires !e.Opened?
    ensures Kept(log + [e], key) <==>
      Kept(log, key) || (e.Accepted? && e.key == Some(key) && e.reached && e.persistence != Lost)
  {
    var r := log + [e];
    forall i | 0 <= i < |log|
      ensures KeptAt(r, i, key) <==> KeptAt(log, i, key)
    {
      assert r[i] == log[i];
      if OpenedAfter(log, i) {
        var j :| i < j < |log| && 0 <= j && log[j].Opened?;
        assert r[j] == log[j];
      }
      if OpenedAfter(r, i) {
        var j :| i < j < |r| && 0 <= j && r[j].Opened?;
        assert log[j] == r[j];
      }
    }
    assert !OpenedAfter(r, |log|);
    if Kept(log, key) {
      var i :| KeptAt(log, i, key);
      assert KeptAt(r, i, key);
    }
    if e.Accepted? && e.key == Some(key) && e.reached && e.persistence != Lost {
      assert KeptAt(r, |log|, key);
    }
  }

  lemma KeptAfterOpening(log: seq<Event>, sessionId: string, key: Key)
    ensures Kept(log + [Opened(sessionId)], key) <==> StoredOnce(log, key)
  {
    var r := log + [Opened(sessionId)];
    forall i | 0 <= i < |log|
      ensures OpenedAfter(r, i) && r[i] == log[i]
    {
      assert r[|log|].Opened?;
    }
    if StoredOnce(log, key) {
      var i :| AcceptedAt(log, i, key) && log[i].persistence == Stored;
      assert KeptAt(r, i, key);
    }
    if Kept(r, key) {
      var i :| KeptAt(r, i, key);
      assert i < |log| && AcceptedAt(log, i, key);
    }
  }

  lemma StoredAppended(log: seq<Event>, e: Event, key: Key)
    ensures StoredOnce(log + [e], key) <==>
      StoredOnce(log, key) || (e.Accepted? && e.key == Some(key) && e.persistence == Stored)
  {
    var r := log + [e];
    assert forall i :: 0 <= i < |log| ==> r[i] == log[i];
    if StoredOnce(log, key) {
      var i :| AcceptedAt(log, i, key) && log[i].persistence == Stored;
      assert AcceptedAt(r, i, key);
    }
    if e.Accepted? && e.key == Some(key) && e.persistence == Stored {
      assert AcceptedAt(r, |log|, key);
    }
  }

  /** The receipts on disk and in memory are those that the log accounts for. */
  ghost predicate ReceiptsKept(s: Gate) {
    && (forall key :: Holds(s.disk, key) <==> StoredOnce(s.log, key))
    && (forall key: Key :: key.sessionId == s.sessionId ==> (Holds(s.receipts, key) <==> Kept(s.log, key)))
  }

  /** A handler of the active session works for that session, and if its key has a receipt, it wrote it. */
  ghost predicate OwnersCurrent(s: Gate) {
    forall id, key :: Owns(s, id, key) && s.requests[id].generation == s.generation ==>
      key.sessionId == s.sessionId && (Holds(s.receipts, key) ==> s.requests[id].accepted)
  }

  ghost predicate LogKept(s: Gate) {
    && AtMostOnce(s.log)
    && (forall i, id, key :: 0 <= i < |s.log| && Acknowledged(s.log[i], key) && Owns(s, id, key) ==> s.requests[id].accepted)
  }

  ghost predicate Inv(s: Gate) {
    LocksHeld(s) && ClaimsOwned(s) && ReceiptsKept(s) && OwnersCurrent(s) && LogKept(s)
  }

  // ----- the steps keep them

  lemma NoReceipt(s: Gate, key: Key)
    ensures ReceiptFor(s, key).None? <==> !Holds(s.receipts, key)
  {
    if Holds(s.receipts, key) {
      var k :| 0 <= k < |s.receipts| && s.receipts[k].key == key;
      assert s.receipts[k] in s.receipts;
    }
    if ReceiptFor(s, key).Some? {
      var k :| 0 <= k < |s.receipts| && s.receipts[k] == ReceiptFor(s, key).value;
    }
  }

  lemma HoldsAppended(receipts: seq<Receipt>, r: Receipt, key: Key)
    ensures Holds(receipts + [r], key) <==> Holds(receipts, key) || r.key == key
  {
    var all := receipts + [r];
    assert all[|receipts|] == r;
    assert forall k :: 0 <= k < |receipts| ==> all[k] == receipts[k];
    if Holds(receipts, key) {
      var k :| 0 <= k < |receipts| && receipts[k].key == key;
      assert all[k].key == key;
    }
  }

  lemma HoldsFiltered(disk: seq<Receipt>, sessionId: string, key: Key)
    requires key.sessionId == sessionId
    ensures Holds(Filter((r: Receipt) => r.key.sessionId == sessionId, disk), key) <==> Holds(disk, key)
  {
    var kept := Filter((r: Receipt) => r.key.sessionId == sessionId, disk);
    if Holds(disk, key) {
      var k :| 0 <= k < |disk| && disk[k].key == key;
      assert disk[k] in kept;
      var m :| 0 <= m < |kept| && kept[m] == disk[k];
    }
    if Holds(kept, key) {
      var m :| 0 <= m < |kept| && kept[m].key == key;
      assert kept[m] in disk;
      var k :| 0 <= k < |disk| && disk[k] == kept[m];
    }
  }

  /** What was acknowledged has a receipt for as long as its session is the active one. */
  lemma AcknowledgedIsKept(log: seq<Event>, i: nat, key: Key)
    requires i < |log| && Acknowledged(log[i], key)
    ensures Kept(log, key)
  {
    assert KeptAt(log, i, key);
  }

  lemma AppendOnce(log: seq<Event>, e: Event)
    requires AtMostOnce(log)
    requires forall i, key :: 0 <= i < |log| && Acknowledged(log[i], key) ==> !Repeats(e, key)
    ensures AtMostOnce(log + [e])
  {
    var r := log + [e];
    forall i, j, key | 0 <= i < j < |r| && Acknowledged(r[i], key)
      ensures !Repeats(r[j], key)
    {
      assert r[i] == log[i];
      if j < |log| {
        assert r[j] == log[j];
      }
    }
  }

  // ----- a submission

  predicate Admitted(s: Gate, payload: Payload) {
    Judge(s, payload).RunQueued? || Judge(s, payload).RunAlone?
  }

  lemma SubmitKeepsLocks(s: Gate, payload: Payload)
    requires LocksHeld(s)
    ensures LocksHeld(SubmitStep(s, payload))
  {
    var s' := SubmitStep(s, payload);
    if s' != s {
      if s.busy {
        var id :| id in s.requests && s.requests[id].ownsBusy;
        assert id in s'.requests && s'.requests[id].ownsBusy;
      }
      assert s.nextId in s'.requests;
    }
  }

  lemma SubmitOwns(s: Gate, payload: Payload, id: nat, key: Key)
    requires Admitted(s, payload)
    ensures Owns(SubmitStep(s, payload), id, key)
            <==> if id == s.nextId then KeyOf(s, payload) == Some(key) else Owns(s, id, key)
  {
  }

  /** A judged request can run: its key is neither claimed nor receipted. */
  lemma AdmittedKeyIsNew(s: Gate, payload: Payload)
    requires Admitted(s, payload) && ReceiptsKept(s)
    ensures KeyOf(s, payload).Some? ==>
      var key := KeyOf(s, payload).value;
      key !in s.pending && key.sessionId == s.sessionId && !Holds(s.receipts, key) && !Kept(s.log, key)
  {
    if KeyOf(s, payload).Some? {
      NoReceipt(s, KeyOf(s, payload).value);
    }
  }

  lemma SubmitKeepsClaims(s: Gate, payload: Payload)
    requires ClaimsOwned(s) && LocksHeld(s) && ReceiptsKept(s)
    requires Admitted(s, payload)
    ensures ClaimsOwned(SubmitStep(s, payload))
  {
    var s' := SubmitStep(s, payload);
    AdmittedKeyIsNew(s, payload);
    forall id, k | Owns(s', id, k)
      ensures k in s'.pending && s'.pending[k] == s'.requests[id].digest
    {
      SubmitOwns(s, payload, id, k);
    }
    forall k | k in s'.pending
      ensures exists id :: Owns(s', id, k)
    {
      if k in s.pending {
        var id :| Owns(s, id, k);
        SubmitOwns(s, payload, id, k);
      } else {
        SubmitOwns(s, payload, s.nextId, k);
      }
    }
    forall a, b, k | Owns(s', a, k) && Owns(s', b, k)
      ensures a == b
    {
      SubmitOwns(s, payload, a, k);
      SubmitOwns(s, payload, b, k);
      assert a != s.nextId ==> Owns(s, a, k);
      assert b != s.nextId ==> Owns(s, b, k);
    }
  }

  lemma SubmitKeepsLog(s: Gate, payload: Payload)
    requires Inv(s) && Admitted(s, payload)
    ensures LogKept(SubmitStep(s, payload)) && OwnersCurrent(SubmitStep(s, payload))
  {
    var s' := SubmitStep(s, payload);
    var e := Ran(s.nextId, KeyOf(s, payload), payload.digest);
    AdmittedKeyIsNew(s, payload);
    forall i, key | 0 <= i < |s.log| && Acknowledged(s.log[i], key)
      ensures KeyOf(s, payload) != Some(key)
    {
      AcknowledgedIsKept(s.log, i, key);
    }
    AppendOnce(s.log, e);
    forall i, id, key | 0 <= i < |s'.log| && Acknowledged(s'.log[i], key) && Owns(s', id, key)
      ensures s'.requests[id].accepted
    {
      assert s'.log[i] == s.log[i];
      SubmitOwns(s, payload, id, key);
    }
    forall id, key | Owns(s', id, key) && s'.requests[id].generation == s'.generation
      ensures key.sessionId == s'.sessionId && (Holds(s'.receipts, key) ==> s'.requests[id].accepted)
    {
      SubmitOwns(s, payload, id, key);
    }
  }

  /** An event that neither accepts nor opens changes no receipt. */
  lemma QuietEvent(s: Gate, s': Gate, e: Event)
    requires ReceiptsKept(s) && !e.Opened? && !e.Accepted? && s'.log == s.log + [e]
    requires s'.receipts == s.receipts && s'.disk == s.disk && s'.sessionId == s.sessionId
    ensures ReceiptsKept(s')
  {
    forall key
      ensures (Kept(s'.log, key) <==> Kept(s.log, key)) && (StoredOnce(s'.log, key) <==> StoredOnce(s.log, key))
    {
      KeptAppended(s.log, e, key);
      StoredAppended(s.log, e, key);
    }
  }

  lemma SubmitKeepsInv(s: Gate, payload: Payload)
    requires Inv(s)
    ensures Inv(SubmitStep(s, payload))
  {
    if Admitted(s, payload) {
      SubmitKeepsLocks(s, payload);
      SubmitKeepsClaims(s, payload);
      SubmitKeepsLog(s, payload);
      QuietEvent(s, SubmitStep(s, payload), Ran(s.nextId, KeyOf(s, payload), payload.digest));
    }
  }

  // ----- an acceptance

  lemma PreflightOwns(s: Gate, id: nat, persistence: Persistence, n: nat, key: Key)
    ensures Owns(PreflightStep(s, id, persistence), n, key) <==> Owns(s, n, key)
  {
  }

  lemma PreflightKeepsLocks(s: Gate, id: nat, persistence: Persistence)
    requires LocksHeld(s)
    ensures LocksHeld(PreflightStep(s, id, persistence))
  {
    var s' := PreflightStep(s, id, persistence);
    if s.busy {
      var n :| n in s.requests && s.requests[n].ownsBusy;
      assert n in s'.requests && s'.requests[n].ownsBusy;
    }
  }

  lemma PreflightKeepsClaims(s: Gate, id: nat, persistence: Persistence)
    requires ClaimsOwned(s)
    ensures ClaimsOwned(PreflightStep(s, id, persistence))
  {
    var s' := PreflightStep(s, id, persistence);
    forall n, key
      ensures Owns(s', n, key) <==> Owns(s, n, key)
    {
      PreflightOwns(s, id, persistence, n, key);
    }
    forall key | key in s'.pending
      ensures exists n :: Owns(s', n, key)
    {
      var n :| Owns(s, n, key);
      assert Owns(s', n, key);
    }
  }

  lemma PreflightReceipts(s: Gate, id: nat, persistence: Persistence, key: Key)
    requires id in s.requests && !s.requests[id].accepted
    ensures var s' := PreflightStep(s, id, persistence);
            var own := s.requests[id].key == Some(key);
            && (Holds(s'.receipts, key) <==>
                Holds(s.receipts, key) || (own && persistence != Lost && s.requests[id].generation == s.generation))
            && (Holds(s'.disk, key) <==> Holds(s.disk, key) || (own && persistence == Stored))
  {
    var request := s.requests[id];
    if request.key.Some? {
      HoldsAppended(s.receipts, Receipt(request.key.value, request.digest, persistence == StoredWithError), key);
      HoldsAppended(s.disk, Receipt(request.key.value, request.digest, false), key);
    }
  }

  lemma PreflightKeepsReceipts(s: Gate, id: nat, persistence: Persistence)
    requires ReceiptsKept(s) && id in s.requests && !s.requests[id].accepted
    ensures ReceiptsKept(PreflightStep(s, id, persistence))
  {
    var s' := PreflightStep(s, id, persistence);
    var request := s.requests[id];
    var e := Accepted(id, request.key, request.digest, persistence, request.generation == s.generation);
    forall key
      ensures Holds(s'.disk, key) <==> StoredOnce(s'.log, key)
      ensures key.sessionId == s'.sessionId ==> (Holds(s'.receipts, key) <==> Kept(s'.log, key))
    {
      PreflightReceipts(s, id, persistence, key);
      KeptAppended(s.log, e, key);
      StoredAppended(s.log, e, key);
    }
  }

  lemma PreflightKeepsLog(s: Gate, id: nat, persistence: Persistence)
    requires Inv(s) && id in s.requests && !s.requests[id].accepted
    ensures LogKept(PreflightStep(s, id, persistence)) && OwnersCurrent(PreflightStep(s, id, persistence))
  {
    var s' := PreflightStep(s, id, persistence);
    var request := s.requests[id];
    var e := Accepted(id, request.key, request.digest, persistence, request.generation == s.generation);
    forall i, key | 0 <= i < |s.log| && Acknowledged(s.log[i], key)
      ensures !Repeats(e, key)
    {
      assert request.key == Some(key) ==> Owns(s, id, key);
    }
    AppendOnce(s.log, e);
    forall i, n, key | 0 <= i < |s'.log| && Acknowledged(s'.log[i], key) && Owns(s', n, key)
      ensures s'.requests[n].accepted
    {
      PreflightOwns(s, id, persistence, n, key);
      if i < |s.log| {
        assert s'.log[i] == s.log[i];
      } else {
        assert Owns(s, id, key);
      }
    }
    forall n, key | Owns(s', n, key) && s'.requests[n].generation == s'.generation
      ensures key.sessionId == s'.sessionId && (Holds(s'.receipts, key) ==> s'.requests[n].accepted)
    {
      PreflightOwns(s, id, persistence, n, key);
      PreflightReceipts(s, id, persistence, key);
      assert request.key == Some(key) ==> Owns(s, id, key);
    }
  }

  lemma PreflightKeepsInv(s: Gate, id: nat, persistence: Persistence)
    requires Inv(s)
    ensures Inv(PreflightStep(s, id, persistence))
  {
    if id in s.requests && !s.requests[id].accepted {
      PreflightKeepsLocks(s, id, persistence);
      PreflightKeepsClaims(s, id, persistence);
      PreflightKeepsReceipts(s, id, persistence);
      PreflightKeepsLog(s, id, persistence);
    }
  }

  // ----- the end of a request

  lemma SettleOwns(s: Gate, id: nat, n: nat, key: Key)
    ensures Owns(SettleStep(s, id), n, key) <==> (n != id || id !in s.requests) && Owns(s, n, key)
  {
  }

  lemma SettleKeepsLocks(s: Gate, id: nat)
    requires LocksHeld(s)
    ensures LocksHeld(SettleStep(s, id))
  {
    var s' := SettleStep(s, id);
    if s'.busy {
      var n :| n in s.requests && s.requests[n].ownsBusy;
      assert n in s'.requests && s'.requests[n].ownsBusy;
    }
  }

  lemma SettleKeepsClaims(s: Gate, id: nat)
    requires ClaimsOwned(s) && id in s.requests
    ensures ClaimsOwned(SettleStep(s, id))
  {
    var s' := SettleStep(s, id);
    var request := s.requests[id];
    forall n, k
      ensures Owns(s', n, k) <==> n != id && Owns(s, n, k)
    {
      SettleOwns(s, id, n, k);
    }
    assert request.key.Some? ==> Owns(s, id, request.key.value);
    forall k | k in s'.pending
      ensures exists n :: Owns(s', n, k)
    {
      var n :| Owns(s, n, k);
      assert Owns(s', n, k);
    }
  }

  lemma SettleKeepsLog(s: Gate, id: nat)
    requires Inv(s) && id in s.requests
    ensures LogKept(SettleStep(s, id)) && OwnersCurrent(SettleStep(s, id))
  {
    var s' := SettleStep(s, id);
    AppendOnce(s.log, Done(id));
    forall n, key | Owns(s', n, key)
      ensures n != id && Owns(s, n, key) && s'.requests[n] == s.requests[n]
    {
      SettleOwns(s, id, n, key);
    }
    forall i, n, key | 0 <= i < |s'.log| && Acknowledged(s'.log[i], key) && Owns(s', n, key)
      ensures s'.requests[n].accepted
    {
      assert s'.log[i] == s.log[i];
    }
  }

  lemma SettleKeepsInv(s: Gate, id: nat)
    requires Inv(s)
    ensures Inv(SettleStep(s, id))
  {
    if id in s.requests {
      SettleKeepsLocks(s, id);
      SettleKeepsClaims(s, id);
      SettleKeepsLog(s, id);
      QuietEvent(s, SettleStep(s, id), Done(id));
    }
  }

  // ----- the other steps

  /** Steps that touch only flags. */
  lemma FlagsKeepInv(s: Gate, s': Gate)
    requires Inv(s)
    requires s'.requests == s.requests && s'.receipts == s.receipts && s'.disk == s.disk && s'.pending == s.pending
    requires s'.log == s.log && s'.sessionId == s.sessionId && s'.generation == s.generation
    requires s'.nextId == s.nextId && s'.busy == s.busy && !(s'.busy && s'.sessionOperationBusy)
    ensures Inv(s')
  {
    assert forall id, key :: Owns(s', id, key) <==> Owns(s, id, key);
    forall key | key in s'.pending
      ensures exists id :: Owns(s', id, key)
    {
      var id :| Owns(s, id, key);
      assert Owns(s', id, key);
    }
  }

  /** Opening a session brings in the receipts of its file. No handler works for it yet. */
  lemma OpenKeepsInv(s: Gate, sessionId: string)
    requires Inv(s)
    ensures Inv(OpenSession(s, sessionId))
  {
    var s' := OpenSession(s, sessionId);
    assert forall id, key :: Owns(s', id, key) <==> Owns(s, id, key);
    forall key | key in s'.pending
      ensures exists id :: Owns(s', id, key)
    {
      var id :| Owns(s, id, key);
      assert Owns(s', id, key);
    }
    OpenKeepsReceipts(s, sessionId);
    AppendOnce(s.log, Opened(sessionId));
    forall i, id, key | 0 <= i < |s'.log| && Acknowledged(s'.log[i], key) && Owns(s', id, key)
      ensures s'.requests[id].accepted
    {
      assert s'.log[i] == s.log[i];
    }
  }

  lemma OpenKeepsReceipts(s: Gate, sessionId: string)
    requires ReceiptsKept(s)
    ensures ReceiptsKept(OpenSession(s, sessionId))
  {
    var s' := OpenSession(s, sessionId);
    forall key
      ensures Holds(s'.disk, key) <==> StoredOnce(s'.log, key)
      ensures key.sessionId == s'.sessionId ==> (Holds(s'.receipts, key) <==> Kept(s'.log, key))
    {
      StoredAppended(s.log, Opened(sessionId), key);
      KeptAfterOpening(s.log, sessionId, key);
      if key.sessionId == sessionId {
        HoldsFiltered(s.disk, sessionId, key);
      }
    }
  }

  /** A process that is gone has no handlers and no locks. */
  lemma StoppedKeepsInv(s: Gate)
    requires Inv(s)
    ensures Inv(s.(isStreaming := false, isCompacting := false, busy := false, sessionOperationBusy := false,
                   pending := map[], requests := map[]))
  {
  }

  lemma NextKeepsInv(s: Gate, step: Step)
    requires Inv(s)
    ensures Inv(Next(s, step))
  {
    match step {
      case Submit(payload) => SubmitKeepsInv(s, payload);
      case Preflight(id, persistence) => PreflightKeepsInv(s, id, persistence);
      case Settle(id) => SettleKeepsInv(s, id);
      case OperationStart => FlagsKeepInv(s, Next(s, step));
      case OperationEnd(entered) =>
        if s.sessionOperationBusy {
          var released := s.(sessionOperationBusy := false);
          FlagsKeepInv(s, released);
          if entered.Some? {
            OpenKeepsInv(released, entered.value);
          }
        }
      case RuntimeChange(_, _) => FlagsKeepInv(s, Next(s, step));
      case Restarted(sessionId) =>
        StoppedKeepsInv(s);
        OpenKeepsInv(s.(isStreaming := false, isCompacting := false, busy := false, sessionOperationBusy := false,
                        pending := map[], requests := map[]), sessionId);
    }
  }

  lemma {:induction false} RunKeepsInv(s: Gate, steps: seq<Step>)
    requires Inv(s)
    ensures Inv(Run(s, steps))
    decreases |steps|
  {
    if steps != [] {
      NextKeepsInv(s, steps[0]);
      RunKeepsInv(Next(s, steps[0]), steps[1..]);
    }
  }

  lemma StartKeepsInv(sessionId: string, steps: seq<Step>)
    ensures Inv(Run(Initial(sessionId), steps))
  {
    RunKeepsInv(Initial(sessionId), steps);
  }

  // ----- the main results

  /** In every interleaving, across changes of session and restarts, a submission that was accepted
      with a stored receipt in the active session never runs again and is never accepted again,
      whatever digest a retry carries. */
  lemma AcceptedAtMostOnce(sessionId: string, steps: seq<Step>)
    ensures AtMostOnce(Run(Initial(sessionId), steps).log)
  {
    StartKeepsInv(sessionId, steps);
  }

  /** In every interleaving, a prompt and a session operation never hold their locks together, every
      lock and every claimed key has exactly one running owner, and all are released with it. */
  lemma LocksReleased(sessionId: string, steps: seq<Step>)
    ensures var s := Run(Initial(sessionId), steps);
            && !(s.busy && s.sessionOperationBusy)
            && (forall key :: key in s.pending <==> exists id :: Owns(s, id, key))
            && (forall a, b, key :: Owns(s, a, key) && Owns(s, b, key) ==> a == b)
            && (s.requests == map[] ==> !s.busy && s.pending == map[])
  {
    StartKeepsInv(sessionId, steps);
    var s := Run(Initial(sessionId), steps);
    assert s.requests == map[] ==> s.pending == map[];
  }

  /** Nothing else stands in the way of a prompt. */
  predicate GateFree(s: Gate, payload: Payload) {
    !s.isCompacting && !s.sessionOperationBusy && (if s.isStreaming then payload.behavior else !s.busy)
  }

  predicate ForActiveSession(s: Gate, payload: Payload) {
    payload.wellFormed && payload.requestId.Some? && payload.sessionId == s.sessionId
  }

  /** In every reachable state a submission with an id runs exactly if its key is not claimed, no
      receipt of it has been kept, and the gate is free. */
  lemma RunsExactly(sessionId: string, steps: seq<Step>, payload: Payload)
    requires ForActiveSession(Run(Initial(sessionId), steps), payload)
    ensures var s := Run(Initial(sessionId), steps);
            var key := KeyOf(s, payload).value;
            Admitted(s, payload) <==> key !in s.pending && !Kept(s.log, key) && GateFree(s, payload)
  {
    StartKeepsInv(sessionId, steps);
    var s := Run(Initial(sessionId), steps);
    NoReceipt(s, KeyOf(s, payload).value);
  }

  lemma {:induction false} RunAppended(s: Gate, steps: seq<Step>, step: Step)
    ensures Run(s, steps + [step]) == Next(Run(s, steps), step)
    decreases |steps|
  {
    if steps == [] {
      assert [step][1..] == [];
    } else {
      assert (steps + [step])[1..] == steps[1..] + [step];
      RunAppended(Next(s, steps[0]), steps[1..], step);
    }
  }

  /** After a request has settled, accepted or not, its key runs again exactly if no receipt of it has
      been kept and the gate is free. */
  lemma RunsAgainExactly(sessionId: string, steps: seq<Step>, id: nat, payload: Payload)
    requires var s := Run(Initial(sessionId), steps);
             ForActiveSession(s, payload) && id in s.requests && s.requests[id].key == KeyOf(s, payload)
    ensures var s := Run(Initial(sessionId), steps);
            var after := SettleStep(s, id);
            Admitted(after, payload) <==> !Kept(s.log, KeyOf(s, payload).value) && GateFree(after, payload)
  {
    var s := Run(Initial(sessionId), steps);
    var after := SettleStep(s, id);
    var key := KeyOf(s, payload).value;
    RunAppended(Initial(sessionId), steps, Settle(id));
    RunsExactly(sessionId, steps + [Settle(id)], payload);
    KeptAppended(s.log, Done(id), key);
    assert key !in after.pending;
  }

  /** Which acceptance leaves a receipt that is kept: one that was stored, if its session was still
      active or has been opened since; one with an error, only until a session is opened; a lost one,
      never. */
  lemma KeptByPersistence(log: seq<Event>, i: nat, key: Key)
    requires AcceptedAt(log, i, key) && forall k :: AcceptedAt(log, k, key) ==> k == i
    ensures Kept(log, key) <==>
      match log[i].persistence
      case Stored => log[i].reached || OpenedAfter(log, i)
      case StoredWithError => log[i].reached && !OpenedAfter(log, i)
      case Lost => false
  {
    assert Kept(log, key) <==> KeptAt(log, i, key);
  }

  /** While a key is claimed or has a receipt, a retry does not run; it is told of a different prompt
      exactly if the digest of the receipt, or else of the claim, is another one. */
  lemma RetryIsRefused(sessionId: string, steps: seq<Step>, payload: Payload)
    requires var s := Run(Initial(sessionId), steps);
             && ForActiveSession(s, payload)
             && (Kept(s.log, KeyOf(s, payload).value) || exists id :: Owns(s, id, KeyOf(s, payload).value))
    ensures var s := Run(Initial(sessionId), steps);
            var key := KeyOf(s, payload).value;
            && SubmitStep(s, payload) == s
            && (Judge(s, payload) == DifferentPrompt <==>
                if Kept(s.log, key) then ReceiptFor(s, key).Some? && ReceiptFor(s, key).value.digest != payload.digest
                else exists id :: Owns(s, id, key) && s.requests[id].digest != payload.digest)
  {
    StartKeepsInv(sessionId, steps);
    var s := Run(Initial(sessionId), steps);
    NoReceipt(s, KeyOf(s, payload).value);
  }

  /** A submission to a session that is still active and that settles without having been accepted
      leaves no trace: its id runs again, with any prompt, as soon as the gate is free. */
  lemma RejectedMayRetry(sessionId: string, steps: seq<Step>, id: nat, payload: Payload)
    requires var s := Run(Initial(sessionId), steps);
             && ForActiveSession(s, payload) && id in s.requests && s.requests[id].key == KeyOf(s, payload)
             && !s.requests[id].accepted && s.requests[id].generation == s.generation
    ensures var after := SettleStep(Run(Initial(sessionId), steps), id);
            Admitted(after, payload) <==> GateFree(after, payload)
  {
    StartKeepsInv(sessionId, steps);
    var s := Run(Initial(sessionId), steps);
    assert Owns(s, id, KeyOf(s, payload).value);
    RunsAgainExactly(sessionId, steps, id, payload);
  }

  /** Whatever became of the receipt: if it is not kept when the request settles and the gate is free,
      the same submission runs and is accepted a second time. */
  lemma UnkeptRunsTwice(sessionId: string, steps: seq<Step>, id: nat, payload: Payload, persistence: Persistence)
    requires var s := Run(Initial(sessionId), steps);
             && ForActiveSession(s, payload) && id in s.requests && s.requests[id].key == KeyOf(s, payload)
             && !Kept(s.log, KeyOf(s, payload).value) && GateFree(SettleStep(s, id), payload)
    ensures var s := Run(Initial(sessionId), steps);
            var again := PreflightStep(SubmitStep(SettleStep(s, id), payload), s.nextId, persistence);
            && s.log <= again.log && AcceptedAt(again.log, |again.log| - 1, KeyOf(s, payload).value)
  {
    StartKeepsInv(sessionId, steps);
    RunsAgainExactly(sessionId, steps, id, payload);
    var s := Run(Initial(sessionId), steps);
    var submitted := SubmitStep(SettleStep(s, id), payload);
    assert s.nextId in submitted.requests && !submitted.requests[s.nextId].accepted;
  }

  /** It does happen: when the write loses the receipt, the same submission can be accepted twice. */
  lemma LostReceiptRunsTwice(sessionId: string, requestId: string, digest: string)
    ensures var payload := Payload(true, Some(requestId), sessionId, digest, false);
            var s := Run(Initial(sessionId), [Submit(payload), Preflight(0, Lost), Settle(0), Submit(payload), Preflight(1, Stored)]);
            && |s.log| == 5
            && s.log[1] == Accepted(0, Some(Key(sessionId, requestId)), digest, Lost, true)
            && s.log[4] == Accepted(1, Some(Key(sessionId, requestId)), digest, Stored, true)
  {
    var payload := Payload(true, Some(requestId), sessionId, digest, false);
    var s0 := Initial(sessionId);
    var s1 := Next(s0, Submit(payload));
    var s2 := Next(s1, Preflight(0, Lost));
    var s3 := Next(s2, Settle(0));
    assert s3.receipts == [] && s3.pending == map[] && !s3.busy && s3.nextId == 1;
    var s4 := Next(s3, Submit(payload));
    var s5 := Next(s4, Preflight(1, Stored));
    var steps := [Submit(payload), Preflight(0, Lost), Settle(0), Submit(payload), Preflight(1, Stored)];
    assert steps[1..][1..][1..][1..][1..] == [];
    assert Run(s0, steps) == Run(s1, steps[1..]);
    assert Run(s1, steps[1..]) == Run(s2, steps[1..][1..]);
    assert Run(s2, steps[1..][1..]) == Run(s3, steps[1..][1..][1..]);
    assert Run(s3, steps[1..][1..][1..]) == Run(s4, steps[1..][1..][1..][1..]);
    assert Run(s4, steps[1..][1..][1..][1..]) == s5;
  }

  // ----- the handlers as they run

  /** The closure state of the gateway behind both endpoints: two flags and the pending table. The
      other fields stand for the runtime session, its receipt entries and the suspended handlers. */
  class PromptGate {
    var sessionId: string
    var generation: nat
    var isStreaming: bool
    var isCompacting: bool
    var busy: bool
    var sessionOperationBusy: bool
    var pending: map<Key, string>
    var receipts: seq<Receipt>
    var disk: seq<Receipt>
    var requests: map<nat, Request>
    var nextId: nat
    var log: seq<Event>

    constructor (sessionId: string)
      ensures Current() == Initial(sessionId)
    {
      this.sessionId, generation := sessionId, 0;
      isStreaming, isCompacting, busy, sessionOperationBusy := false, false, false, false;
      pending, receipts, disk, requests, nextId, log := map[], [], [], map[], 0, [];
    }

    function Current(): Gate
      reads this
    {
      Gate(sessionId, generation, isStreaming, isCompacting, busy, sessionOperationBusy, pending, receipts, disk,
           requests, nextId, log)
    }

    /** Note the key as pending, if the request carries one. */
    method ClaimRequest(key: Option<Key>, digest: string)
      modifies this`pending
      ensures pending == if key.Some? then old(pending)[key.value := digest] else old(pending)
    {
      if key.Some? {
        pending := pending[key.value := digest];
      }
    }

    /** The prompt handler up to its await on the runtime. */
    method HandlePrompt(payload: Payload) returns (verdict: Verdict, id: nat)
      modifies this
      ensures verdict == Judge(old(Current()), payload) && id == old(nextId)
      ensures Current() == SubmitStep(old(Current()), payload)
    {
      id := nextId;
      if !payload.wellFormed {
        return Malformed, id;
      }
      if payload.requestId.Some? && payload.sessionId != sessionId {
        return SessionChanged, id;
      }
      var candidateKey := KeyOf(Current(), payload);
      if candidateKey.Some? {
        var previous := Previous(Current(), candidateKey.value, payload.digest);
        if previous.Some? {
          return previous.value, id;
        }
      }
      if isCompacting {
        return Compacting, id;
      }
      if sessionOperationBusy {
        return OperationRunning, id;
      }
      var ownsBusy := false;
      if isStreaming {
        if !payload.behavior {
          return ChooseBehavior, id;
        }
        verdict := RunQueued;
      } else {
        if busy {
          return PromptRunning, id;
        }
        busy := true;
        ownsBusy := true;
        verdict := RunAlone;
      }
      ClaimRequest(candidateKey, payload.digest);
      requests := requests[id := Request(candidateKey, payload.digest, ownsBusy, false, generation)];
      nextId := nextId + 1;
      log := log + [Ran(id, candidateKey, payload.digest)];
    }

    /** The acceptance callback of the runtime. */
    method PreflightResult(id: nat, persistence: Persistence)
      requires id in requests
      modifies this
      ensures Current() == PreflightStep(old(Current()), id, persistence)
    {
      var request := requests[id];
      if request.accepted {
        return;
      }
      requests := requests[id := request.(accepted := true)];
      var reached := request.generation == generation;
      if request.key.Some? && persistence != Lost {
        if reached {
          receipts := receipts + [Receipt(request.key.value, request.digest, persistence == StoredWithError)];
        }
        if persistence == Stored {
          disk := disk + [Receipt(request.key.value, request.digest, false)];
        }
      }
      log := log + [Accepted(id, request.key, request.digest, persistence, reached)];
    }

    /** The finally clause of the prompt handler. */
    method Release(id: nat)
      requires id in requests
      modifies this
      ensures Current() == SettleStep(old(Current()), id)
    {
      var request := requests[id];
      if request.key.Some? {
        pending := pending - {request.key.value};
      }
      if request.ownsBusy {
        busy := false;
      }
      requests := requests - {id};
      log := log + [Done(id)];
    }

    /** runSessionOperation up to its await on the action. */
    method BeginSessionOperation() returns (admitted: bool)
      modifies this`sessionOperationBusy
      ensures Current() == Next(old(Current()), OperationStart)
      ensures admitted <==> MayOperate(old(Current()))
    {
      if busy || isStreaming || isCompacting {
        return false;
      }
      if sessionOperationBusy {
        return false;
      }
      sessionOperationBusy := true;
      return true;
    }

    /** Its finally clause; the action may have opened a session, the same one or another. */
    method EndSessionOperation(entered: Option<string>)
      requires sessionOperationBusy
      modifies this
      ensures Current() == Next(old(Current()), OperationEnd(entered))
    {
      if entered.Some? {
        var newId := entered.value;
        sessionId, generation := newId, generation + 1;
        receipts := Filter((r: Receipt) => r.key.sessionId == newId, disk);
        log := log + [Opened(newId)];
      }
      sessionOperationBusy := false;
    }
  }
}
