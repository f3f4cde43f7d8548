/**
 Any number of processes share one event store and execute attempts, crash, restart and recover in
 any order. A run is a list of actions; each durable read and each durable write is its own action,
 so a stale read can always be overtaken by another process.
 */
module ClaimProtocol {
  import opened Common
  import opened EventStore
  import EventStoreLaws
  import opened ProviderClaims

  /** Where a live process is; its memory is lost when it crashes. */
  datatype Phase =
    | Prepared(workspaceId: string, attempt: Attempt)
    | Unclaimed(expected: Claim)
    | Holding(workspaceId: string, attempt: Attempt)
    | InFlight(workspaceId: string, attempt: Attempt)
    | Returned(workspaceId: string, attempt: Attempt, outcome: Outcome)
    | Closing(claim: Claim, version: nat, outcome: Outcome)
    | Recovering(claim: Claim, version: nat)

  /** `effects` is the history of network calls, `delivered` the outcomes handed to callers. */
  datatype System = System(book: Book, procs: map<nat, Phase>, effects: seq<AttemptRef>, delivered: set<Outcome>)

  datatype Action =
    | Begin(pid: nat, workspaceId: string, attempt: Attempt, plan: Plan, evidence: Option<Outcome>)
    | LookAtKey(pid: nat, at: int)
    | Commit(pid: nat)
    | Invoke(pid: nat)
    | Return(pid: nat, class_: OutcomeClass, at: int)
    | ReadClaim(pid: nat)
    | WriteClaim(pid: nat)
    | BeginRecovery(pid: nat, attemptRef: AttemptRef)
    | Recover(pid: nat, at: int)
    | Crash(pid: nat)

  const EMPTY := System(State([], map[], map[]), map[], [], {})

  // ---------------------------------------------------------------- steps

  function Enter(sys: System, pid: nat, p: Phase): System {
    sys.(procs := sys.procs[pid := p])
  }

  function Leave(sys: System, pid: nat): System {
    sys.(procs := sys.procs - {pid})
  }

  /** What an execution checks before it touches the store; honest runs bring only evidence an execution delivered. */
  predicate Admitted(sys: System, honest: bool, a: Attempt, plan: Plan, evidence: Option<Outcome>) {
    && WellFormed(a) && MatchesPlan(a, plan) && RetryEvidenceOk(a, evidence)
    && (honest && evidence.Some? ==> evidence.value in sys.delivered)
  }

  function LookStep(sys: System, pid: nat, workspaceId: string, a: Attempt, at: int): System {
    if WellFormed(a) && LookUp(sys.book, workspaceId, a).Fresh? then Enter(sys, pid, Unclaimed(NewClaim(workspaceId, a, at)))
    else Leave(sys, pid)
  }

  function CommitStep(sys: System, pid: nat, expected: Claim): System {
    if !WellFormed(expected.attempt) then Leave(sys, pid)
    else
      var (r, next) := CommitClaim(sys.book, expected);
      if r.Ok? && r.value.acquired then Enter(sys.(book := next), pid, Holding(expected.workspaceId, expected.attempt))
      else Leave(sys.(book := next), pid)
  }

  function InvokeStep(sys: System, pid: nat, workspaceId: string, a: Attempt): System {
    Enter(sys.(effects := sys.effects + [AttemptRef(a)]), pid, InFlight(workspaceId, a))
  }

  /** An outcome dated before its attempt is refused, and then nothing is recorded. */
  function ReturnStep(sys: System, pid: nat, workspaceId: string, a: Attempt, class_: OutcomeClass, at: int): System {
    if at < a.createdAt then Leave(sys, pid)
    else Enter(sys, pid, Returned(workspaceId, a, BuildOutcome(a, class_, at)))
  }

  function ReadStep(sys: System, pid: nat, workspaceId: string, a: Attempt, o: Outcome): System {
    match ReadForOutcome(sys.book, workspaceId, a, o)
    case Already(_) => Leave(sys.(delivered := sys.delivered + {o}), pid)
    case Refused(_) => Leave(sys, pid)
    case Write(claim, version) => Enter(sys, pid, Closing(claim, version, o))
  }

  function WriteStep(sys: System, pid: nat, claim: Claim, version: nat, o: Outcome): System {
    var (r, next) := WriteOutcome(sys.book, claim, version, o);
    Leave(sys.(book := next, delivered := if r.Ok? then sys.delivered + {o} else sys.delivered), pid)
  }

  function RecoverStep(sys: System, pid: nat, claim: Claim, version: nat, at: int): System {
    Leave(sys.(book := WriteRecovery(sys.book, claim, version, at).1), pid)
  }

  /** One action; an action that is not enabled changes nothing. */
  function Next(sys: System, honest: bool, act: Action): System {
    if act.Crash? then Leave(sys, act.pid)
    else if act.Begin? then
      if act.pid !in sys.procs && Admitted(sys, honest, act.attempt, act.plan, act.evidence)
      then Enter(sys, act.pid, Prepared(act.workspaceId, act.attempt)) else sys
    else if act.BeginRecovery? then
      if act.pid !in sys.procs && Unfinished(sys.book, act.attemptRef)
      then
        var row := sys.book.rows[(CLAIM_KIND, act.attemptRef)];
        Enter(sys, act.pid, Recovering(row.data, row.version))
      else sys
    else if act.pid !in sys.procs then sys
    else match (act, sys.procs[act.pid])
      case (LookAtKey(pid, at), Prepared(w, a)) => LookStep(sys, pid, w, a, at)
      case (Commit(pid), Unclaimed(expected)) => CommitStep(sys, pid, expected)
      case (Invoke(pid), Holding(w, a)) => InvokeStep(sys, pid, w, a)
      case (Return(pid, class_, at), InFlight(w, a)) => ReturnStep(sys, pid, w, a, class_, at)
      case (ReadClaim(pid), Returned(w, a, o)) => ReadStep(sys, pid, w, a, o)
      case (WriteClaim(pid), Closing(claim, version, o)) => WriteStep(sys, pid, claim, version, o)
      case (Recover(pid, at), Recovering(claim, version)) => RecoverStep(sys, pid, claim, version, at)
      case _ => sys
  }

  function Run(sys: System, honest: bool, acts: seq<Action>): System {
    if acts == [] then sys else Next(Run(sys, honest, acts[..|acts| - 1]), honest, acts[|acts| - 1])
  }

  // ---------------------------------------------------------------- the invariant

  predicate HasClaim(s: Book, r: AttemptRef) {
    (CLAIM_KIND, r) in s.rows
  }

  /** The attempt whose effect this process is entitled to perform or report. */
  function Owned(p: Phase): Option<AttemptRef> {
    match p
    case Holding(_, a) => Some(AttemptRef(a))
    case InFlight(_, a) => Some(AttemptRef(a))
    case Returned(_, a, _) => Some(AttemptRef(a))
    case Closing(claim, _, _) => Some(AttemptRef(claim.attempt))
    case _ => None
  }

  ghost predicate Built(o: Outcome, a: Attempt) {
    o == BuildOutcome(a, o.class_, o.completedAt)
  }

  ghost predicate PhaseInv(s: Book, effects: seq<AttemptRef>, p: Phase) {
    match p
    case Prepared(_, a) => WellFormed(a)
    case Unclaimed(expected) => WellFormed(expected.attempt) && expected == Origin(expected)
    case Holding(_, a) => HasClaim(s, AttemptRef(a)) && AttemptRef(a) !in effects
    case InFlight(_, a) => HasClaim(s, AttemptRef(a))
    case Returned(_, a, o) => HasClaim(s, AttemptRef(a)) && Built(o, a)
    case Closing(claim, version, o) => ReadEarlier(s, claim) && version == 1 && Built(o, claim.attempt)
    case Recovering(claim, version) => ReadEarlier(s, claim) && version == 1
  }

  ghost predicate ProcInv(sys: System, pid: nat) {
    pid in sys.procs ==> PhaseInv(sys.book, sys.effects, sys.procs[pid])
  }

  ghost predicate Delivered(s: Book, o: Outcome) {
    && HasClaim(s, o.attemptRef)
    && Built(o, o.attemptRef.attempt)
    && s.rows[(CLAIM_KIND, o.attemptRef)].data.outcome == Some(o)
  }

  /** No two processes own the same attempt. */
  ghost predicate Apart(sys: System, p: nat, q: nat) {
    p in sys.procs && q in sys.procs && p != q && Owned(sys.procs[p]).Some? ==> Owned(sys.procs[p]) != Owned(sys.procs[q])
  }

  ghost predicate EffectsOnce(sys: System) {
    && (forall i, j :: 0 <= i < j < |sys.effects| ==> sys.effects[i] != sys.effects[j])
    && (forall r :: r in sys.effects ==> HasClaim(sys.book, r))
  }

  ghost predicate Inv(sys: System) {
    && BookInv(sys.book)
    && (forall p {:trigger ProcInv(sys, p)} :: ProcInv(sys, p))
    && (forall p, q {:trigger Apart(sys, p, q)} :: Apart(sys, p, q))
    && EffectsOnce(sys)
    && (forall o {:trigger Delivered(sys.book, o)} :: o in sys.delivered ==> Delivered(sys.book, o))
  }

  /** No claim is lost, and a claim that was closed keeps its record. */
  ghost predicate RowKept(s: Book, next: Book, r: AttemptRef) {
    HasClaim(s, r) ==>
      && HasClaim(next, r)
      && Origin(next.rows[(CLAIM_KIND, r)].data) == Origin(s.rows[(CLAIM_KIND, r)].data)
      && (!s.rows[(CLAIM_KIND, r)].data.status.Claimed? ==> next.rows[(CLAIM_KIND, r)].data == s.rows[(CLAIM_KIND, r)].data)
  }

  ghost predicate Grows(s: Book, next: Book) {
    forall r {:trigger RowKept(s, next, r)} :: RowKept(s, next, r)
  }

  lemma GrowsIsTransitive(a: Book, b: Book, c: Book)
    requires Grows(a, b) && Grows(b, c)
    ensures Grows(a, c)
  {
    forall r {:trigger RowKept(a, c, r)} ensures RowKept(a, c, r) {
      assert RowKept(a, b, r) && RowKept(b, c, r);
    }
  }

  // ---------------------------------------------------------------- each step keeps the invariant

  /** Everything about processes and deliveries survives any forward move of the book. */
  lemma OthersSurvive(sys: System, next: System, pid: nat)
    requires Inv(sys) && Grows(sys.book, next.book)
    requires forall r :: r in next.effects && r !in sys.effects ==> pid in sys.procs && Owned(sys.procs[pid]) == Some(r)
    requires forall q :: q != pid && q in next.procs ==> q in sys.procs && next.procs[q] == sys.procs[q]
    ensures forall q :: q != pid ==> ProcInv(next, q)
    ensures forall o :: o in sys.delivered ==> Delivered(next.book, o)
  {
    forall q | q != pid ensures ProcInv(next, q) {
      assert ProcInv(sys, q) && Apart(sys, pid, q);
      if q in next.procs && Owned(next.procs[q]).Some? {
        assert RowKept(sys.book, next.book, Owned(next.procs[q]).value);
      } else if q in next.procs && next.procs[q].Recovering? {
        assert RowKept(sys.book, next.book, AttemptRef(next.procs[q].claim.attempt));
      }
    }
    forall o | o in sys.delivered ensures Delivered(next.book, o) {
      assert Delivered(sys.book, o) && RowKept(sys.book, next.book, o.attemptRef);
      RowFact(sys.book, (CLAIM_KIND, o.attemptRef));
    }
  }

  /** A step of one process, seen from outside: it owns what it owned before, or a claim that is new. */
  lemma StepKeepsInv(sys: System, next: System, pid: nat)
    requires Inv(sys) && BookInv(next.book) && Grows(sys.book, next.book) && next.effects == sys.effects
    requires forall q :: q != pid && q in next.procs ==> q in sys.procs && next.procs[q] == sys.procs[q]
    requires ProcInv(next, pid)
    requires pid in next.procs && Owned(next.procs[pid]).Some? ==>
      || (pid in sys.procs && Owned(next.procs[pid]) == Owned(sys.procs[pid]))
      || !HasClaim(sys.book, Owned(next.procs[pid]).value)
    requires forall o :: o in next.delivered && o !in sys.delivered ==> Delivered(next.book, o)
    ensures Inv(next)
  {
    OthersSurvive(sys, next, pid);
    forall p {:trigger ProcInv(next, p)} ensures ProcInv(next, p) {
    }
    forall p, q {:trigger Apart(next, p, q)} ensures Apart(next, p, q) {
      assert Apart(sys, p, q) && Apart(sys, q, p) && ProcInv(sys, p) && ProcInv(sys, q);
    }
    forall r | r in next.effects ensures HasClaim(next.book, r) {
      assert RowKept(sys.book, next.book, r);
    }
  }

  lemma SameBookGrows(s: Book)
    ensures Grows(s, s)
  {
  }

  lemma WrittenGrows(s: Book, e: Event<Key, AttemptRef, Payload>, claim: Claim, version: nat)
    requires StillOpen(s, claim)
    ensures Grows(s, Written(s, e, claim, version))
  {
  }

  lemma CommitKeepsInv(sys: System, pid: nat, expected: Claim)
    requires Inv(sys) && pid in sys.procs && sys.procs[pid] == Unclaimed(expected)
    ensures Inv(CommitStep(sys, pid, expected)) && Grows(sys.book, CommitStep(sys, pid, expected).book)
  {
    assert ProcInv(sys, pid);
    var next := CommitStep(sys, pid, expected);
    CommitClaimLaw(sys.book, expected);
    SameBookGrows(sys.book);
    if next.book != sys.book {
      WrittenGrows(sys.book, Stamp(ClaimDraft(expected), |sys.book.log|), expected, 1);
    }
    StepKeepsInv(sys, next, pid);
  }

  lemma WriteKeepsInv(sys: System, pid: nat, claim: Claim, version: nat, o: Outcome)
    requires Inv(sys) && pid in sys.procs && sys.procs[pid] == Closing(claim, version, o)
    ensures Inv(WriteStep(sys, pid, claim, version, o)) && Grows(sys.book, WriteStep(sys, pid, claim, version, o).book)
  {
    assert ProcInv(sys, pid);
    WriteOutcomeLaw(sys.book, claim, o);
    SameBookGrows(sys.book);
    RowFact(sys.book, (CLAIM_KIND, AttemptRef(claim.attempt)));
    if sys.book.rows[(CLAIM_KIND, AttemptRef(claim.attempt))].data.status.Claimed? {
      WrittenGrows(sys.book, Stamp(OutcomeDraft(claim.workspaceId, o), |sys.book.log|), WithOutcome(claim, o), 2);
    }
    StepKeepsInv(sys, WriteStep(sys, pid, claim, version, o), pid);
  }

  lemma RecoverKeepsInv(sys: System, pid: nat, claim: Claim, version: nat, at: int)
    requires Inv(sys) && pid in sys.procs && sys.procs[pid] == Recovering(claim, version)
    ensures Inv(RecoverStep(sys, pid, claim, version, at)) && Grows(sys.book, RecoverStep(sys, pid, claim, version, at).book)
  {
    assert ProcInv(sys, pid);
    WriteRecoveryLaw(sys.book, claim, at);
    SameBookGrows(sys.book);
    RowFact(sys.book, (CLAIM_KIND, AttemptRef(claim.attempt)));
    if sys.book.rows[(CLAIM_KIND, AttemptRef(claim.attempt))].data.status.Claimed? {
      WrittenGrows(sys.book, Stamp(RecoveryDraft(claim, at), |sys.book.log|), Recovered(claim, at), 2);
    }
    StepKeepsInv(sys, RecoverStep(sys, pid, claim, version, at), pid);
  }

  lemma ReadKeepsInv(sys: System, pid: nat, workspaceId: string, a: Attempt, o: Outcome)
    requires Inv(sys) && pid in sys.procs && sys.procs[pid] == Returned(workspaceId, a, o)
    ensures Inv(ReadStep(sys, pid, workspaceId, a, o))
  {
    assert ProcInv(sys, pid);
    RowFact(sys.book, (CLAIM_KIND, AttemptRef(a)));
    EventFact(sys.book, OutcomeKey(AttemptRef(a), o));
    SameBookGrows(sys.book);
    StepKeepsInv(sys, ReadStep(sys, pid, workspaceId, a, o), pid);
  }

  lemma InvokeKeepsInv(sys: System, pid: nat, workspaceId: string, a: Attempt)
    requires Inv(sys) && pid in sys.procs && sys.procs[pid] == Holding(workspaceId, a)
    ensures Inv(InvokeStep(sys, pid, workspaceId, a))
  {
    var next := InvokeStep(sys, pid, workspaceId, a);
    assert ProcInv(sys, pid);
    SameBookGrows(sys.book);
    OthersSurvive(sys, next, pid);
    forall p {:trigger ProcInv(next, p)} ensures ProcInv(next, p) {
    }
    forall p, q {:trigger Apart(next, p, q)} ensures Apart(next, p, q) {
      assert Apart(sys, p, q);
    }
  }

  /** A step that only changes what one process remembers. */
  lemma MemoryKeepsInv(sys: System, next: System, pid: nat)
    requires Inv(sys) && next == sys.(procs := next.procs)
    requires next.procs == sys.procs - {pid} || (pid in next.procs && next.procs == sys.procs[pid := next.procs[pid]])
    requires pid in next.procs ==> PhaseInv(sys.book, sys.effects, next.procs[pid])
    requires pid in next.procs ==>
      || Owned(next.procs[pid]).None?
      || (pid in sys.procs && Owned(next.procs[pid]) == Owned(sys.procs[pid]))
    ensures Inv(next)
  {
    SameBookGrows(sys.book);
    StepKeepsInv(sys, next, pid);
  }

  /** Every action keeps the invariant, loses no claim and never reopens a closed one. */
  lemma NextKeepsInv(sys: System, honest: bool, act: Action)
    requires Inv(sys)
    ensures Inv(Next(sys, honest, act)) && Grows(sys.book, Next(sys, honest, act).book)
  {
    SameBookGrows(sys.book);
    assert ProcInv(sys, act.pid);
    if act.Crash? || act.Begin? || act.pid !in sys.procs {
      if act.BeginRecovery? {
        RowFact(sys.book, (CLAIM_KIND, act.attemptRef));
      }
      if Next(sys, honest, act) != sys {
        MemoryKeepsInv(sys, Next(sys, honest, act), act.pid);
      }
    } else {
      match (act, sys.procs[act.pid])
      case (LookAtKey(pid, at), Prepared(w, a)) => MemoryKeepsInv(sys, LookStep(sys, pid, w, a, at), pid);
      case (Commit(pid), Unclaimed(expected)) => CommitKeepsInv(sys, pid, expected);
      case (Invoke(pid), Holding(w, a)) => InvokeKeepsInv(sys, pid, w, a);
      case (Return(pid, class_, at), InFlight(w, a)) => MemoryKeepsInv(sys, ReturnStep(sys, pid, w, a, class_, at), pid);
      case (ReadClaim(pid), Returned(w, a, o)) => ReadKeepsInv(sys, pid, w, a, o);
      case (WriteClaim(pid), Closing(claim, version, o)) => WriteKeepsInv(sys, pid, claim, version, o);
      case (Recover(pid, at), Recovering(claim, version)) => RecoverKeepsInv(sys, pid, claim, version, at);
      case _ =>
    }
  }

  lemma {:induction false} RunKeepsInv(sys: System, honest: bool, acts: seq<Action>)
    requires Inv(sys)
    ensures Inv(Run(sys, honest, acts)) && Grows(sys.book, Run(sys, honest, acts).book)
  {
    SameBookGrows(sys.book);
    if acts != [] {
      var before := Run(sys, honest, acts[..|acts| - 1]);
      RunKeepsInv(sys, honest, acts[..|acts| - 1]);
      NextKeepsInv(before, honest, acts[|acts| - 1]);
      GrowsIsTransitive(sys.book, before.book, Run(sys, honest, acts).book);
    }
  }
}
