/**
 Persistent claims for provider execution attempts: before a network call, an attempt is claimed in
 the shared event store under a key that only one attempt can own.

 A digest is modelled by the content it is taken of, so equal digests mean equal content.
 */
module ProviderClaims {
  import opened Common
  import opened EventStore
  import EventStoreLaws

  datatype Attempt = Attempt(
    attemptId: string, requestId: string, requestDigest: string, planDigest: string,
    idempotencyKey: string, prior: Option<AttemptRef>, reviewedRetry: bool, createdAt: int)

  /** An attempt reference is derived from the digest of the attempt. */
  datatype AttemptRef = AttemptRef(attempt: Attempt)

  datatype Plan = Plan(requestId: string, requestDigest: string, planDigest: string)

  datatype OutcomeClass = Success | KnownFailure | Uncertain

  datatype Outcome = Outcome(
    attemptRef: AttemptRef, requestId: string, requestDigest: string, planDigest: string,
    class_: OutcomeClass, idempotencyKey: string, completedAt: int,
    effectMayHaveOccurred: bool, reviewedRetryRequired: bool)

  datatype Status = Claimed | Finished(class_: OutcomeClass) | RecoveryRequired

  datatype Claim = Claim(
    workspaceId: string, attempt: Attempt, status: Status, claimedAt: int,
    outcome: Option<Outcome>, completedAt: Option<int>,
    effectMayHaveOccurred: Option<bool>, reviewedRetryRequired: bool)

  /** Idempotency keys; the source spells them as distinct prefixes followed by a digest. */
  datatype Key =
    | InitialRequest(requestDigest: string)
    | ReviewedRetry(prior: AttemptRef)
    | OutcomeKey(attemptRef: AttemptRef, outcome: Outcome)
    | RecoveryKey(attemptRef: AttemptRef)

  datatype Payload =
    | ClaimMade(claim: Claim)
    | OutcomeRecorded(attemptRef: AttemptRef, outcome: Outcome)
    | ClaimRecovered(attemptRef: AttemptRef)

  type Book = State<Key, AttemptRef, Payload, Claim>

  const CLAIM_KIND := "providerExecutionClaim"

  datatype GateError =
    | InvalidAttempt | ClaimCollision | StoreFailure(error: StoreError)
    | OutcomeMismatch | NoClaim | WrongWorkspace | DifferentOutcome

  // ---------------------------------------------------------------- attempts and outcomes

  predicate WellFormed(a: Attempt) {
    a.reviewedRetry <==> a.prior.Some?
  }

  predicate MatchesPlan(a: Attempt, plan: Plan) {
    a.requestId == plan.requestId && a.requestDigest == plan.requestDigest && a.planDigest == plan.planDigest
  }

  /** The outcome an execution of `a` builds for its known result or for a transport exception. */
  function BuildOutcome(a: Attempt, class_: OutcomeClass, completedAt: int): Outcome {
    Outcome(AttemptRef(a), a.requestId, a.requestDigest, a.planDigest, class_, a.idempotencyKey, completedAt,
            class_ == Uncertain, class_ == Uncertain)
  }

  /** The evidence an execution must bring: none for an initial attempt, the exact prior uncertain outcome for a retry. */
  predicate RetryEvidenceOk(a: Attempt, evidence: Option<Outcome>) {
    if !a.reviewedRetry then evidence.None?
    else
      && evidence.Some?
      && evidence.value.class_ == Uncertain && evidence.value.reviewedRetryRequired
      && a.prior == Some(evidence.value.attemptRef)
      && a.requestId == evidence.value.requestId
      && a.requestDigest == evidence.value.requestDigest
      && a.planDigest == evidence.value.planDigest
      && a.idempotencyKey != evidence.value.idempotencyKey
  }

  predicate OutcomeMatches(a: Attempt, o: Outcome) {
    && o.attemptRef == AttemptRef(a) && o.requestId == a.requestId
    && o.requestDigest == a.requestDigest && o.planDigest == a.planDigest
  }

  // ---------------------------------------------------------------- claiming

  function ClaimKey(a: Attempt): Key
    requires WellFormed(a)
  {
    if a.reviewedRetry then ReviewedRetry(a.prior.value) else InitialRequest(a.requestDigest)
  }

  function NewClaim(workspaceId: string, a: Attempt, claimedAt: int): Claim {
    Claim(workspaceId, a, Claimed, claimedAt, None, None, None, false)
  }

  predicate SameClaim(e: Event<Key, AttemptRef, Payload>, workspaceId: string, a: Attempt) {
    e.body.payload.ClaimMade? && e.body.payload.claim.workspaceId == workspaceId && e.body.payload.claim.attempt == a
  }

  function GetClaim(s: Book, a: Attempt): Option<Claim> {
    var row := RowOf(s.rows, CLAIM_KIND, AttemptRef(a));
    if row.Some? then Some(row.value.data) else None
  }

  datatype Look = Fresh | Duplicate | Collision

  /** What the event already stored under the attempt's key says about a new claim. */
  function LookUp(s: Book, workspaceId: string, a: Attempt): Look
    requires WellFormed(a)
  {
    var found := Lookup(s.log, ClaimKey(a));
    if found.None? then Fresh
    else if SameClaim(found.value, workspaceId, a) then Duplicate
    else Collision
  }

  datatype Acquired = Acquired(acquired: bool, claim: Claim)

  function DuplicateReply(s: Book, expected: Claim): Acquired {
    var current := GetClaim(s, expected.attempt);
    Acquired(false, if current.Some? then current.value else expected)
  }

  function ClaimDraft(expected: Claim): Draft<Key, AttemptRef, Payload>
    requires WellFormed(expected.attempt)
  {
    Draft(None, Body(expected.workspaceId, CLAIM_KIND, AttemptRef(expected.attempt), "provider.execution.claimed", 1,
                     ClaimKey(expected.attempt), expected.claimedAt, ClaimMade(expected)))
  }

  function ClaimProjection(claim: Claim, version: nat): Projection<AttemptRef, Claim> {
    Projection(CLAIM_KIND, AttemptRef(claim.attempt), claim.workspaceId, version, claim)
  }

  /** The second half of acquiring, after the key was seen to be free: another gate may have won the race. */
  function CommitClaim(s: Book, expected: Claim): (Result<Acquired, GateError>, Book)
    requires WellFormed(expected.attempt)
  {
    var (stored, next) := Append(s, ClaimDraft(expected), Some(ClaimProjection(expected, 1)));
    if stored.Ok? && stored.value.created then (Ok(Acquired(true, expected)), next)
    else
      var raced := LookUp(next, expected.workspaceId, expected.attempt);
      if raced.Duplicate? then (Ok(DuplicateReply(next, expected)), next)
      else (Err(if stored.Ok? then ClaimCollision else StoreFailure(stored.error)), next)
  }

  function AcquireClaim(s: Book, workspaceId: string, a: Attempt, plan: Plan, at: int): (Result<Acquired, GateError>, Book) {
    if !WellFormed(a) || !MatchesPlan(a, plan) then (Err(InvalidAttempt), s)
    else
      var expected := NewClaim(workspaceId, a, at);
      match LookUp(s, workspaceId, a)
      case Duplicate => (Ok(DuplicateReply(s, expected)), s)
      case Collision => (Err(ClaimCollision), s)
      case Fresh => CommitClaim(s, expected)
  }

  // ---------------------------------------------------------------- recording outcomes

  function WithOutcome(claim: Claim, o: Outcome): Claim {
    claim.(status := Finished(o.class_), outcome := Some(o), completedAt := Some(o.completedAt),
           effectMayHaveOccurred := Some(o.class_ == Uncertain && o.effectMayHaveOccurred),
           reviewedRetryRequired := o.reviewedRetryRequired)
  }

  /** `Write` carries the claim and version that were read; the write happens later. */
  datatype Read = Already(claim: Claim) | Refused(error: GateError) | Write(claim: Claim, version: nat)

  function ReadForOutcome(s: Book, workspaceId: string, a: Attempt, o: Outcome): Read {
    var row := RowOf(s.rows, CLAIM_KIND, AttemptRef(a));
    if !OutcomeMatches(a, o) then Refused(OutcomeMismatch)
    else if row.None? then Refused(NoClaim)
    else if row.value.workspaceId != workspaceId then Refused(WrongWorkspace)
    else if !row.value.data.status.Claimed? then
      if row.value.data.outcome == Some(o) then Already(row.value.data) else Refused(DifferentOutcome)
    else if Lookup(s.log, OutcomeKey(AttemptRef(a), o)).Some? then Already(row.value.data)
    else Write(row.value.data, row.value.version)
  }

  function OutcomeDraft(workspaceId: string, o: Outcome): Draft<Key, AttemptRef, Payload> {
    Draft(None, Body(workspaceId, CLAIM_KIND, o.attemptRef, "provider.execution.outcome_recorded", 1,
                     OutcomeKey(o.attemptRef, o), o.completedAt, OutcomeRecorded(o.attemptRef, o)))
  }

  function WriteOutcome(s: Book, claim: Claim, version: nat, o: Outcome): (Result<Claim, GateError>, Book) {
    var (stored, next) := Append(s, OutcomeDraft(claim.workspaceId, o), Some(ClaimProjection(WithOutcome(claim, o), version + 1)));
    if stored.Err? then (Err(StoreFailure(stored.error)), next)
    else (Ok(if stored.value.row.Some? then stored.value.row.value.data else claim), next)
  }

  function RecordClaimOutcome(s: Book, workspaceId: string, a: Attempt, o: Outcome): (Result<Claim, GateError>, Book) {
    match ReadForOutcome(s, workspaceId, a, o)
    case Already(claim) => (Ok(claim), s)
    case Refused(error) => (Err(error), s)
    case Write(claim, version) => WriteOutcome(s, claim, version, o)
  }

  // ---------------------------------------------------------------- recovery

  function Recovered(claim: Claim, at: int): Claim {
    claim.(status := RecoveryRequired, outcome := None, completedAt := Some(at),
           effectMayHaveOccurred := Some(true), reviewedRetryRequired := true)
  }

  function RecoveryDraft(claim: Claim, at: int): Draft<Key, AttemptRef, Payload> {
    Draft(None, Body(claim.workspaceId, CLAIM_KIND, AttemptRef(claim.attempt), "provider.execution.claim_recovery_required", 1,
                     RecoveryKey(AttemptRef(claim.attempt)), at, ClaimRecovered(AttemptRef(claim.attempt))))
  }

  function WriteRecovery(s: Book, claim: Claim, version: nat, at: int): (Result<Appended<Claim>, StoreError>, Book) {
    Append(s, RecoveryDraft(claim, at), Some(ClaimProjection(Recovered(claim, at), version + 1)))
  }

  predicate Unfinished(s: Book, r: AttemptRef) {
    (CLAIM_KIND, r) in s.rows && s.rows[(CLAIM_KIND, r)].data.status.Claimed?
  }

  // ---------------------------------------------------------------- what the book always satisfies

  predicate Has(s: Book, key: Key) {
    Lookup(s.log, key).Some?
  }

  /** The claim as it was first made. */
  function Origin(claim: Claim): Claim {
    NewClaim(claim.workspaceId, claim.attempt, claim.claimedAt)
  }

  /** A row holds the original claim at version 1, or the one terminal record that replaced it at version 2. */
  ghost predicate RowInv(s: Book, k: (string, AttemptRef))
    requires k in s.rows
  {
    var row := s.rows[k];
    var claim := row.data;
    && k == (CLAIM_KIND, AttemptRef(claim.attempt))
    && row.workspaceId == claim.workspaceId
    && WellFormed(claim.attempt)
    && Has(s, ClaimKey(claim.attempt))
    && Lookup(s.log, ClaimKey(claim.attempt)).value.body.payload == ClaimMade(Origin(claim))
    && match claim.status
       case Claimed => row.version == 1 && claim == Origin(claim)
       case Finished(_) =>
         && row.version == 2 && claim.outcome.Some? && OutcomeMatches(claim.attempt, claim.outcome.value)
         && claim == WithOutcome(Origin(claim), claim.outcome.value)
         && Has(s, OutcomeKey(AttemptRef(claim.attempt), claim.outcome.value))
       case RecoveryRequired =>
         && row.version == 2 && claim.completedAt.Some?
         && claim == Recovered(Origin(claim), claim.completedAt.value)
         && Has(s, RecoveryKey(AttemptRef(claim.attempt)))
  }

  /** Each event in the log is explained by the row of its attempt. */
  ghost predicate EventInv(s: Book, e: Event<Key, AttemptRef, Payload>) {
    match e.body.key
    case OutcomeKey(r, o) =>
      (CLAIM_KIND, r) in s.rows && s.rows[(CLAIM_KIND, r)].data.outcome == Some(o)
      && e.body == OutcomeDraft(s.rows[(CLAIM_KIND, r)].workspaceId, o).body
    case RecoveryKey(r) =>
      (CLAIM_KIND, r) in s.rows && s.rows[(CLAIM_KIND, r)].data.status == RecoveryRequired
    case _ =>
      && e.body.payload.ClaimMade?
      && var claim := e.body.payload.claim;
         && WellFormed(claim.attempt) && ClaimKey(claim.attempt) == e.body.key
         && (CLAIM_KIND, AttemptRef(claim.attempt)) in s.rows
         && Origin(s.rows[(CLAIM_KIND, AttemptRef(claim.attempt))].data) == claim
  }

  ghost predicate BookInv(s: Book) {
    && EventStoreLaws.Valid(s)
    && (forall e {:trigger EventInv(s, e)} :: e in s.log ==> EventInv(s, e))
    && (forall k {:trigger RowInv(s, k)} :: k in s.rows ==> RowInv(s, k))
  }

  lemma RowFact(s: Book, key: (string, AttemptRef))
    requires BookInv(s)
    ensures key in s.rows ==> RowInv(s, key)
  {
  }

  lemma EventFact(s: Book, key: Key)
    requires BookInv(s)
    ensures Has(s, key) ==> EventInv(s, Lookup(s.log, key).value)
  {
    if Has(s, key) {
      assert EventInv(s, Lookup(s.log, key).value);
    }
  }

  /** The event under a claim key names the attempt that owns it. */
  lemma OwnerOf(s: Book, a: Attempt)
    requires BookInv(s) && WellFormed(a) && Has(s, ClaimKey(a))
    ensures var e := Lookup(s.log, ClaimKey(a)).value;
      && e.body.payload.ClaimMade? && WellFormed(e.body.payload.claim.attempt)
      && ClaimKey(e.body.payload.claim.attempt) == ClaimKey(a)
      && (CLAIM_KIND, AttemptRef(e.body.payload.claim.attempt)) in s.rows
    ensures (CLAIM_KIND, AttemptRef(a)) in s.rows <==> Lookup(s.log, ClaimKey(a)).value.body.payload.claim.attempt == a
  {
    var e := Lookup(s.log, ClaimKey(a)).value;
    assert EventInv(s, e);
    RowFact(s, (CLAIM_KIND, AttemptRef(a)));
  }

  /** With the key still free, the claim event and its row are written together. */
  lemma CommitFresh(s: Book, expected: Claim)
    requires BookInv(s) && WellFormed(expected.attempt) && expected == Origin(expected) && !Has(s, ClaimKey(expected.attempt))
    ensures (CLAIM_KIND, AttemptRef(expected.attempt)) !in s.rows
    ensures var e := Stamp(ClaimDraft(expected), |s.log|);
      CommitClaim(s, expected) == (Ok(Acquired(true, expected)), Written(s, e, expected, 1)) && BookInv(Written(s, e, expected, 1))
  {
    var draft, p := ClaimDraft(expected), Some(ClaimProjection(expected, 1));
    RowFact(s, (CLAIM_KIND, AttemptRef(expected.attempt)));
    EventStoreLaws.AppendKeepsValid(s, draft, p);
    var e := Stamp(draft, |s.log|);
    assert Append(s, draft, p).1 == Written(s, e, expected, 1);
    LookupAppend(s.log, e, ClaimKey(expected.attempt));
    InvAfterWrite(s, e, expected, 1);
  }

  /** Committing wins exactly when the key is still free; otherwise nothing is written. */
  lemma CommitClaimLaw(s: Book, expected: Claim)
    requires BookInv(s) && WellFormed(expected.attempt) && expected == Origin(expected)
    ensures var (r, next) := CommitClaim(s, expected);
      && BookInv(next)
      && (LookUp(s, expected.workspaceId, expected.attempt).Fresh? <==> r == Ok(Acquired(true, expected)))
      && (r.Ok? && r.value.acquired ==>
            && (CLAIM_KIND, AttemptRef(expected.attempt)) !in s.rows
            && next.log == s.log + [Stamp(ClaimDraft(expected), |s.log|)]
            && next.rows == s.rows[(CLAIM_KIND, AttemptRef(expected.attempt)) := Row(expected.workspaceId, 1, expected, |s.log| + 1)])
      && (!(r.Ok? && r.value.acquired) ==> next == s)
      && (r.Ok? && !r.value.acquired <==> LookUp(s, expected.workspaceId, expected.attempt).Duplicate?)
  {
    if Has(s, ClaimKey(expected.attempt)) {
      OwnerOf(s, expected.attempt);
    } else {
      CommitFresh(s, expected);
    }
  }

  ghost function Written(s: Book, e: Event<Key, AttemptRef, Payload>, claim: Claim, version: nat): Book {
    s.(log := s.log + [e],
       rows := s.rows[(CLAIM_KIND, AttemptRef(claim.attempt)) := Row(claim.workspaceId, version, claim, |s.log| + 1)])
  }

  /** The row being replaced, if any, is still open and is the claim the new record starts from. */
  ghost predicate StillOpen(s: Book, claim: Claim) {
    (CLAIM_KIND, AttemptRef(claim.attempt)) in s.rows ==>
      var current := s.rows[(CLAIM_KIND, AttemptRef(claim.attempt))].data;
      current.status.Claimed? && Origin(claim) == current
  }

  lemma EventSurvives(s: Book, e: Event<Key, AttemptRef, Payload>, claim: Claim, version: nat, x: Event<Key, AttemptRef, Payload>)
    requires BookInv(s) && StillOpen(s, claim) && x in s.log
    ensures EventInv(Written(s, e, claim, version), x)
  {
    assert EventInv(s, x);
    RowFact(s, (CLAIM_KIND, AttemptRef(claim.attempt)));
  }

  lemma RowSurvives(s: Book, e: Event<Key, AttemptRef, Payload>, claim: Claim, version: nat, k: (string, AttemptRef))
    requires BookInv(s) && k in s.rows && k != (CLAIM_KIND, AttemptRef(claim.attempt)) && Lookup(s.log, e.body.key).None?
    ensures RowInv(Written(s, e, claim, version), k)
  {
    assert RowInv(s, k);
    var c := s.rows[k].data;
    LookupAppend(s.log, e, ClaimKey(c.attempt));
    LookupAppend(s.log, e, RecoveryKey(AttemptRef(c.attempt)));
    if c.outcome.Some? {
      LookupAppend(s.log, e, OutcomeKey(AttemptRef(c.attempt), c.outcome.value));
    }
  }

  /** Appending an event about one attempt and replacing its row keeps the book sound. */
  lemma InvAfterWrite(s: Book, e: Event<Key, AttemptRef, Payload>, claim: Claim, version: nat)
    requires BookInv(s) && Lookup(s.log, e.body.key).None? && StillOpen(s, claim)
    requires EventStoreLaws.Valid(Written(s, e, claim, version))
    requires EventInv(Written(s, e, claim, version), e)
    requires RowInv(Written(s, e, claim, version), (CLAIM_KIND, AttemptRef(claim.attempt)))
    ensures BookInv(Written(s, e, claim, version))
  {
    var next := Written(s, e, claim, version);
    forall x {:trigger EventInv(next, x)} | x in next.log ensures EventInv(next, x) {
      if x in s.log {
        EventSurvives(s, e, claim, version, x);
      }
    }
    forall k {:trigger RowInv(next, k)} | k in next.rows ensures RowInv(next, k) {
      if k != (CLAIM_KIND, AttemptRef(claim.attempt)) {
        RowSurvives(s, e, claim, version, k);
      }
    }
  }

  /** The claim was read while open; the row may have been closed since. */
  ghost predicate ReadEarlier(s: Book, claim: Claim) {
    && claim == Origin(claim)
    && (CLAIM_KIND, AttemptRef(claim.attempt)) in s.rows
    && Origin(s.rows[(CLAIM_KIND, AttemptRef(claim.attempt))].data) == claim
  }

  lemma OpenWrite(s: Book, claim: Claim, draft: Draft<Key, AttemptRef, Payload>, closed: Claim)
    requires BookInv(s) && ReadEarlier(s, claim) && s.rows[(CLAIM_KIND, AttemptRef(claim.attempt))].data.status.Claimed?
    requires Origin(closed) == claim && draft.id.None? && draft.body.workspaceId == claim.workspaceId
    requires Lookup(s.log, draft.body.key).None?
    ensures Append(s, draft, Some(ClaimProjection(closed, 2))) ==
      (Ok(Appended(true, Some(Row(claim.workspaceId, 2, closed, |s.log| + 1)))), Written(s, Stamp(draft, |s.log|), closed, 2))
    ensures EventStoreLaws.Valid(Written(s, Stamp(draft, |s.log|), closed, 2))
  {
    var key := (CLAIM_KIND, AttemptRef(claim.attempt));
    RowFact(s, key);
    EventStoreLaws.AppendKeepsValid(s, draft, Some(ClaimProjection(closed, 2)));
  }

  /** A version already taken by another record, or a key already used, turns the write into a no-op. */
  lemma ClosedWrite(s: Book, claim: Claim, draft: Draft<Key, AttemptRef, Payload>, closed: Claim)
    requires BookInv(s) && ReadEarlier(s, claim) && !s.rows[(CLAIM_KIND, AttemptRef(claim.attempt))].data.status.Claimed?
    requires Origin(closed) == claim && draft.id.None? && draft.body.workspaceId == claim.workspaceId
    requires Has(s, draft.body.key) || closed != s.rows[(CLAIM_KIND, AttemptRef(claim.attempt))].data
    ensures Append(s, draft, Some(ClaimProjection(closed, 2))).1 == s
    ensures !Has(s, draft.body.key) ==> Append(s, draft, Some(ClaimProjection(closed, 2))).0.Err?
  {
    RowFact(s, (CLAIM_KIND, AttemptRef(claim.attempt)));
  }

  /** Writing the outcome of a claim read earlier takes effect exactly when the claim is still open. */
  lemma WriteOutcomeLaw(s: Book, claim: Claim, o: Outcome)
    requires BookInv(s) && ReadEarlier(s, claim) && OutcomeMatches(claim.attempt, o)
    ensures var (r, next) := WriteOutcome(s, claim, 1, o);
      var key := (CLAIM_KIND, AttemptRef(claim.attempt));
      && BookInv(next)
      && (s.rows[key].data.status.Claimed? ==>
            r == Ok(WithOutcome(claim, o)) && next == Written(s, Stamp(OutcomeDraft(claim.workspaceId, o), |s.log|), WithOutcome(claim, o), 2))
      && (!s.rows[key].data.status.Claimed? ==> next == s && (r.Ok? <==> s.rows[key].data.outcome == Some(o)))
      && (r.Ok? ==> next.rows[key].data == WithOutcome(claim, o) == r.value)
  {
    var key := (CLAIM_KIND, AttemptRef(claim.attempt));
    var draft := OutcomeDraft(claim.workspaceId, o);
    var closed := WithOutcome(claim, o);
    RowFact(s, key);
    if s.rows[key].data.status.Claimed? {
      EventFact(s, draft.body.key);
      OpenWrite(s, claim, draft, closed);
      var e := Stamp(draft, |s.log|);
      LookupAppend(s.log, e, ClaimKey(claim.attempt));
      LookupAppend(s.log, e, draft.body.key);
      InvAfterWrite(s, e, closed, 2);
    } else {
      ClosedWrite(s, claim, draft, closed);
      EventFact(s, draft.body.key);
    }
  }

  /** Recovery of a claim read earlier likewise takes effect exactly when the claim is still open. */
  lemma WriteRecoveryLaw(s: Book, claim: Claim, at: int)
    requires BookInv(s) && ReadEarlier(s, claim)
    ensures var (r, next) := WriteRecovery(s, claim, 1, at);
      var key := (CLAIM_KIND, AttemptRef(claim.attempt));
      && BookInv(next)
      && (s.rows[key].data.status.Claimed? ==>
            && r == Ok(Appended(true, Some(Row(claim.workspaceId, 2, Recovered(claim, at), |s.log| + 1))))
            && next == Written(s, Stamp(RecoveryDraft(claim, at), |s.log|), Recovered(claim, at), 2))
      && (!s.rows[key].data.status.Claimed? ==> next == s)
  {
    var key := (CLAIM_KIND, AttemptRef(claim.attempt));
    var draft := RecoveryDraft(claim, at);
    var closed := Recovered(claim, at);
    RowFact(s, key);
    if s.rows[key].data.status.Claimed? {
      EventFact(s, draft.body.key);
      OpenWrite(s, claim, draft, closed);
      var e := Stamp(draft, |s.log|);
      LookupAppend(s.log, e, ClaimKey(claim.attempt));
      LookupAppend(s.log, e, draft.body.key);
      InvAfterWrite(s, e, closed, 2);
    } else {
      ClosedWrite(s, claim, draft, closed);
    }
  }

  // ---------------------------------------------------------------- what a claim request is answered

  /** The event claims this attempt in this workspace. */
  predicate Claims(e: Event<Key, AttemptRef, Payload>, workspaceId: string, a: Attempt) {
    match e.body.payload
    case ClaimMade(claim) => claim.workspaceId == workspaceId && claim.attempt == a
    case _ => false
  }

  /**
   The answer to a claim request, from what the book held before it. A free key: acquired, with an open claim in the
   book that carries the attempt, the workspace and the time. The same attempt in the same workspace: the claim as
   its row stands by now. Any other attempt, or another workspace: a collision.
   */
  ghost predicate Answers(s: Book, next: Book, workspaceId: string, a: Attempt, at: int, r: Result<Acquired, GateError>)
    requires WellFormed(a)
  {
    var row := (CLAIM_KIND, AttemptRef(a));
    var claim := Claim(workspaceId, a, Claimed, at, None, None, None, false);
    match Lookup(s.log, ClaimKey(a))
    case None =>
      && r == Ok(Acquired(true, claim))
      && row !in s.rows && next.rows == s.rows[row := Row(workspaceId, 1, claim, |s.log| + 1)]
      && |next.log| == |s.log| + 1 && s.log <= next.log
      && next.log[|s.log|].body == Body(workspaceId, "providerExecutionClaim", AttemptRef(a), "provider.execution.claimed", 1,
                                        ClaimKey(a), at, ClaimMade(claim))
    case Some(e) =>
      && next == s
      && (Claims(e, workspaceId, a) ==> row in s.rows && r == Ok(Acquired(false, s.rows[row].data)))
      && (!Claims(e, workspaceId, a) ==> r == Err(ClaimCollision))
  }

  lemma AcquireAnswers(s: Book, workspaceId: string, a: Attempt, plan: Plan, at: int)
    requires BookInv(s)
    ensures var (r, next) := AcquireClaim(s, workspaceId, a, plan, at);
      && (r == Err(InvalidAttempt) <==> !WellFormed(a) || !MatchesPlan(a, plan))
      && (r == Err(InvalidAttempt) ==> next == s)
      && (r != Err(InvalidAttempt) ==> BookInv(next) && Answers(s, next, workspaceId, a, at, r))
  {
    if WellFormed(a) && MatchesPlan(a, plan) {
      CommitClaimLaw(s, NewClaim(workspaceId, a, at));
      if Has(s, ClaimKey(a)) {
        OwnerOf(s, a);
      } else {
        CommitFresh(s, NewClaim(workspaceId, a, at));
      }
    }
  }

  /** Once an attempt is claimed, asking again in its workspace is a duplicate; another attempt under the key, or the same
      one in another workspace, is a collision. */
  lemma AskedAgain(s: Book, workspaceId: string, a: Attempt, plan: Plan, at: int, w: string, b: Attempt, other: Plan, later: int)
    requires BookInv(s) && WellFormed(a) && MatchesPlan(a, plan) && Lookup(s.log, ClaimKey(a)).None?
    requires WellFormed(b) && MatchesPlan(b, other) && ClaimKey(b) == ClaimKey(a)
    ensures var (first, held) := AcquireClaim(s, workspaceId, a, plan, at);
      && first.Ok? && first.value.acquired
      && AcquireClaim(held, w, b, other, later)
         == (if b == a && w == workspaceId then Ok(Acquired(false, first.value.claim)) else Err(ClaimCollision), held)
  {
    AcquireAnswers(s, workspaceId, a, plan, at);
    var held := AcquireClaim(s, workspaceId, a, plan, at).1;
    AcquireAnswers(held, w, b, other, later);
    LookupAppend(s.log, held.log[|s.log|], ClaimKey(a));
    assert held.log == s.log + [held.log[|s.log|]];
  }

  // ---------------------------------------------------------------- what a closed claim records

  /** A claim closed with an outcome: everything about the attempt is kept, and only an uncertain outcome leaves room for
      an effect that nobody saw. */
  ghost predicate ClosedWith(claim: Claim, o: Outcome, closed: Claim) {
    && closed.workspaceId == claim.workspaceId && closed.attempt == claim.attempt && closed.claimedAt == claim.claimedAt
    && closed.status == Finished(o.class_) && closed.outcome == Some(o) && closed.completedAt == Some(o.completedAt)
    && closed.effectMayHaveOccurred.Some?
    && (closed.effectMayHaveOccurred.value <==> o.class_ == Uncertain && o.effectMayHaveOccurred)
    && (closed.reviewedRetryRequired <==> o.reviewedRetryRequired)
  }

  /** A claim that nobody finished: the effect may have occurred, and only a reviewed retry may follow. */
  ghost predicate ClosedUnfinished(claim: Claim, at: int, closed: Claim) {
    && closed.workspaceId == claim.workspaceId && closed.attempt == claim.attempt && closed.claimedAt == claim.claimedAt
    && closed.status == RecoveryRequired && closed.outcome == None && closed.completedAt == Some(at)
    && closed.effectMayHaveOccurred == Some(true) && closed.reviewedRetryRequired
  }

  /** A claim closed with an outcome that its own execution built demands a reviewed retry, and admits that the effect may
      have occurred, exactly when the outcome is uncertain. */
  lemma BuiltOutcomeIsRecorded(claim: Claim, class_: OutcomeClass, at: int)
    ensures var o := BuildOutcome(claim.attempt, class_, at); var closed := WithOutcome(claim, o);
      && OutcomeMatches(claim.attempt, o) && ClosedWith(claim, o, closed)
      && (closed.reviewedRetryRequired <==> class_ == Uncertain)
      && (closed.effectMayHaveOccurred == Some(true) <==> class_ == Uncertain)
  {
  }

  /** Evidence built by the execution of one attempt lets another begin exactly when it reports an uncertain outcome and the
      other is a reviewed retry of that very attempt: same request and plan under another key. */
  lemma BuiltEvidenceIff(prior: Attempt, class_: OutcomeClass, at: int, a: Attempt)
    ensures RetryEvidenceOk(a, Some(BuildOutcome(prior, class_, at))) <==>
      && class_ == Uncertain && a.reviewedRetry && a.prior == Some(AttemptRef(prior))
      && a.requestId == prior.requestId && a.requestDigest == prior.requestDigest && a.planDigest == prior.planDigest
      && a.idempotencyKey != prior.idempotencyKey
    ensures RetryEvidenceOk(a, None) <==> !a.reviewedRetry
  {
  }

  /** The claim is there, in this workspace, and still open or already closed with this very outcome. */
  predicate Recordable(s: Book, workspaceId: string, a: Attempt, o: Outcome) {
    var row := RowOf(s.rows, CLAIM_KIND, AttemptRef(a));
    row.Some? && row.value.workspaceId == workspaceId && (row.value.data.status.Claimed? || row.value.data.outcome == Some(o))
  }

  /** What recording an outcome answers and leaves: each refusal with its reason and nothing written, an open claim closed
      with the outcome, a claim closed with it before returned as it is. */
  ghost predicate Records(s: Book, next: Book, workspaceId: string, a: Attempt, o: Outcome, r: Result<Claim, GateError>) {
    var key := (CLAIM_KIND, AttemptRef(a));
    if !OutcomeMatches(a, o) then r == Err(OutcomeMismatch) && next == s
    else if key !in s.rows then r == Err(NoClaim) && next == s
    else if s.rows[key].workspaceId != workspaceId then r == Err(WrongWorkspace) && next == s
    else
      var claim := s.rows[key].data;
      match claim.status
      case Claimed =>
        && r.Ok? && ClosedWith(claim, o, r.value)
        && next.rows == s.rows[key := Row(workspaceId, 2, r.value, |s.log| + 1)]
        && s.log <= next.log && |next.log| == |s.log| + 1
        && next.log[|s.log|].body == Body(workspaceId, "providerExecutionClaim", AttemptRef(a), "provider.execution.outcome_recorded", 1,
                                          OutcomeKey(AttemptRef(a), o), o.completedAt, OutcomeRecorded(AttemptRef(a), o))
      case _ => r == (if claim.outcome == Some(o) then Ok(claim) else Err(DifferentOutcome)) && next == s
  }

  lemma RecordAnswers(s: Book, workspaceId: string, a: Attempt, o: Outcome)
    requires BookInv(s)
    ensures var (r, next) := RecordClaimOutcome(s, workspaceId, a, o);
      && BookInv(next) && Records(s, next, workspaceId, a, o, r)
      && (r.Ok? <==> OutcomeMatches(a, o) && Recordable(s, workspaceId, a, o))
  {
    RowFact(s, (CLAIM_KIND, AttemptRef(a)));
    EventFact(s, OutcomeKey(AttemptRef(a), o));
    match ReadForOutcome(s, workspaceId, a, o)
    case Write(claim, version) => WriteOutcomeLaw(s, claim, o);
    case _ =>
  }
}
