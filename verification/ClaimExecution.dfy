/** Executions that nobody disturbs go through: who may begin, what a whole execution leaves, what a crash leaves. */
module ClaimExecution {
  import opened Common
  import opened EventStore
  import opened ProviderClaims
  import opened ClaimProtocol
  import ClaimTheorems

  /** The evidence reports an uncertain outcome of the attempt that is retried, for the same request under another key. */
  predicate Justifies(a: Attempt, o: Outcome) {
    && o.class_ == Uncertain && o.reviewedRetryRequired && a.prior == Some(o.attemptRef)
    && o.requestId == a.requestId && o.requestDigest == a.requestDigest && o.planDigest == a.planDigest
    && o.idempotencyKey != a.idempotencyKey
  }

  /** A process begins an execution exactly when it is idle, the attempt is one of the plan, and evidence comes with a retry and
      with nothing else, justifies it, and was delivered if evidence is honest. Nothing is claimed or called yet. */
  lemma BeginIff(sys: System, honest: bool, pid: nat, w: string, a: Attempt, plan: Plan, evidence: Option<Outcome>)
    ensures Next(sys, honest, Begin(pid, w, a, plan, evidence)) ==
      if && pid !in sys.procs
         && a.requestId == plan.requestId && a.requestDigest == plan.requestDigest && a.planDigest == plan.planDigest
         && (a.reviewedRetry <==> a.prior.Some?) && (a.reviewedRetry <==> evidence.Some?)
         && (evidence.Some? ==> Justifies(a, evidence.value) && (honest ==> evidence.value in sys.delivered))
      then sys.(procs := sys.procs[pid := Prepared(w, a)])
      else sys
  {
  }

  /** The process has claimed the attempt and called the network once. */
  ghost predicate Called(sys: System, next: System, pid: nat, w: string, a: Attempt, at: int) {
    var row := (CLAIM_KIND, AttemptRef(a));
    && next.procs == sys.procs[pid := InFlight(w, a)] && next.effects == sys.effects + [AttemptRef(a)]
    && next.delivered == sys.delivered && BookInv(next.book)
    && row !in sys.book.rows
    && next.book.rows == sys.book.rows[row := Row(w, 1, NewClaim(w, a, at), |sys.book.log| + 1)]
  }

  /** The look at the key lets the execution go on exactly when the key is free, and touches nothing else. */
  lemma LookIff(sys: System, honest: bool, pid: nat, w: string, a: Attempt, at: int)
    requires pid in sys.procs && sys.procs[pid] == Prepared(w, a) && WellFormed(a)
    ensures Next(sys, honest, LookAtKey(pid, at)) ==
      if Has(sys.book, ClaimKey(a)) then sys.(procs := sys.procs - {pid})
      else sys.(procs := sys.procs[pid := Unclaimed(NewClaim(w, a, at))])
  {
  }

  /** A key that was taken since the look ends the execution with the book intact, whoever holds it. */
  lemma LateCommitLeaves(sys: System, honest: bool, pid: nat, w: string, a: Attempt, at: int)
    requires BookInv(sys.book) && pid in sys.procs && sys.procs[pid] == Unclaimed(NewClaim(w, a, at))
    requires WellFormed(a) && Has(sys.book, ClaimKey(a))
    ensures Next(sys, honest, Commit(pid)) == sys.(procs := sys.procs - {pid})
  {
    CommitClaimLaw(sys.book, NewClaim(w, a, at));
  }

  lemma CommitIsNext(sys: System, honest: bool, pid: nat, w: string, a: Attempt, at: int)
    requires BookInv(sys.book) && WellFormed(a) && !Has(sys.book, ClaimKey(a))
    requires pid in sys.procs && sys.procs[pid] == Unclaimed(NewClaim(w, a, at))
    ensures var next := Next(sys, honest, Commit(pid)); var row := (CLAIM_KIND, AttemptRef(a));
      && next == sys.(book := next.book, procs := sys.procs[pid := Holding(w, a)]) && BookInv(next.book)
      && row !in sys.book.rows
      && next.book.rows == sys.book.rows[row := Row(w, 1, NewClaim(w, a, at), |sys.book.log| + 1)]
  {
    CommitFresh(sys.book, NewClaim(w, a, at));
  }

  /** The claim half of an execution, undisturbed, ends with one network call. */
  lemma ClaimAndCall(sys: System, honest: bool, pid: nat, w: string, a: Attempt, at: int)
    requires BookInv(sys.book) && pid in sys.procs && sys.procs[pid] == Prepared(w, a)
    requires WellFormed(a) && !Has(sys.book, ClaimKey(a))
    ensures Called(sys, Next(Next(Next(sys, honest, LookAtKey(pid, at)), honest, Commit(pid)), honest, Invoke(pid)), pid, w, a, at)
  {
    LookIff(sys, honest, pid, w, a, at);
    var looked := sys.(procs := sys.procs[pid := Unclaimed(NewClaim(w, a, at))]);
    CommitIsNext(looked, honest, pid, w, a, at);
    var held := Next(looked, honest, Commit(pid));
    assert Next(held, honest, Invoke(pid)) == InvokeStep(held, pid, w, a);
    assert held.procs[pid := InFlight(w, a)] == sys.procs[pid := InFlight(w, a)];
  }

  lemma ReturnIsNext(sys: System, honest: bool, pid: nat, w: string, a: Attempt, class_: OutcomeClass, at: int)
    requires pid in sys.procs && sys.procs[pid] == InFlight(w, a) && a.createdAt <= at
    ensures Next(sys, honest, Return(pid, class_, at)) == sys.(procs := sys.procs[pid := Returned(w, a, BuildOutcome(a, class_, at))])
  {
  }

  lemma ReadIsNext(sys: System, honest: bool, pid: nat, claim: Claim, o: Outcome)
    requires BookInv(sys.book) && pid in sys.procs && sys.procs[pid] == Returned(claim.workspaceId, claim.attempt, o)
    requires (CLAIM_KIND, AttemptRef(claim.attempt)) in sys.book.rows && OutcomeMatches(claim.attempt, o)
    requires sys.book.rows[(CLAIM_KIND, AttemptRef(claim.attempt))].data == claim && claim.status == Claimed
    ensures Next(sys, honest, ReadClaim(pid)) == sys.(procs := sys.procs[pid := Closing(claim, 1, o)])
  {
    RowFact(sys.book, (CLAIM_KIND, AttemptRef(claim.attempt)));
    EventFact(sys.book, OutcomeKey(AttemptRef(claim.attempt), o));
    assert ReadForOutcome(sys.book, claim.workspaceId, claim.attempt, o) == Write(claim, 1);
    assert Next(sys, honest, ReadClaim(pid)) == ReadStep(sys, pid, claim.workspaceId, claim.attempt, o);
  }

  /** The outcome is in the book and in the caller's hands, and the process is done. */
  ghost predicate Reported(sys: System, next: System, pid: nat, claim: Claim, o: Outcome) {
    var row := (CLAIM_KIND, AttemptRef(claim.attempt));
    && next.procs == sys.procs - {pid} && next.effects == sys.effects && next.delivered == sys.delivered + {o}
    && row in next.book.rows && ClosedWith(claim, o, next.book.rows[row].data)
    && next.book.rows == sys.book.rows[row := next.book.rows[row]]
  }

  lemma WriteIsNext(sys: System, honest: bool, pid: nat, claim: Claim, o: Outcome)
    requires BookInv(sys.book) && pid in sys.procs && sys.procs[pid] == Closing(claim, 1, o)
    requires ReadEarlier(sys.book, claim) && OutcomeMatches(claim.attempt, o)
    requires sys.book.rows[(CLAIM_KIND, AttemptRef(claim.attempt))].data.status == Claimed
    ensures Reported(sys, Next(sys, honest, WriteClaim(pid)), pid, claim, o)
  {
    WriteOutcomeLaw(sys.book, claim, o);
    assert Next(sys, honest, WriteClaim(pid)) == WriteStep(sys, pid, claim, 1, o);
  }

  /** The reporting half of an execution, undisturbed. */
  lemma ReportOutcome(sys: System, honest: bool, pid: nat, w: string, a: Attempt, claim: Claim, class_: OutcomeClass, at: int)
    requires BookInv(sys.book) && pid in sys.procs && sys.procs[pid] == InFlight(w, a) && a.createdAt <= at
    requires (CLAIM_KIND, AttemptRef(a)) in sys.book.rows && sys.book.rows[(CLAIM_KIND, AttemptRef(a))].data == claim
    requires claim.workspaceId == w && claim.status == Claimed
    ensures Reported(sys, Next(Next(Next(sys, honest, Return(pid, class_, at)), honest, ReadClaim(pid)), honest, WriteClaim(pid)),
                     pid, claim, BuildOutcome(a, class_, at))
  {
    var o := BuildOutcome(a, class_, at);
    RowFact(sys.book, (CLAIM_KIND, AttemptRef(a)));
    ReturnIsNext(sys, honest, pid, w, a, class_, at);
    var returned := sys.(procs := sys.procs[pid := Returned(w, a, o)]);
    ReadIsNext(returned, honest, pid, claim, o);
    var read := returned.(procs := returned.procs[pid := Closing(claim, 1, o)]);
    WriteIsNext(read, honest, pid, claim, o);
    assert read.procs - {pid} == sys.procs - {pid};
  }

  /**
   From any state that any run reaches: an attempt that may begin, whose key is free and that nobody disturbs, calls the
   network exactly once; its claim is closed with the outcome, which is delivered; no other claim changes.
   */
  lemma ExecutionCompletes(
    sys: System, honest: bool, pid: nat, w: string, a: Attempt, plan: Plan, evidence: Option<Outcome>, at: int, class_: OutcomeClass, done: int)
    requires BookInv(sys.book) && pid !in sys.procs && Admitted(sys, honest, a, plan, evidence)
    requires !Has(sys.book, ClaimKey(a)) && a.createdAt <= done
    ensures var acts := [Begin(pid, w, a, plan, evidence), LookAtKey(pid, at), Commit(pid), Invoke(pid)];
      var called := Run(sys, honest, acts);
      var o := BuildOutcome(a, class_, done);
      var next := Run(called, honest, [Return(pid, class_, done), ReadClaim(pid), WriteClaim(pid)]);
      var row := (CLAIM_KIND, AttemptRef(a));
      && next.procs == sys.procs && next.effects == sys.effects + [AttemptRef(a)] && next.delivered == sys.delivered + {o}
      && row !in sys.book.rows && row in next.book.rows && ClosedWith(NewClaim(w, a, at), o, next.book.rows[row].data)
      && next.book.rows == sys.book.rows[row := next.book.rows[row]]
  {
    var begin := Begin(pid, w, a, plan, evidence);
    ClaimTheorems.RunOfFour(sys, honest, begin, LookAtKey(pid, at), Commit(pid), Invoke(pid));
    var begun := Next(sys, honest, begin);
    assert begun == sys.(procs := sys.procs[pid := Prepared(w, a)]);
    ClaimAndCall(begun, honest, pid, w, a, at);
    var called := Run(sys, honest, [begin, LookAtKey(pid, at), Commit(pid), Invoke(pid)]);
    ClaimTheorems.RunOfThree(called, honest, Return(pid, class_, done), ReadClaim(pid), WriteClaim(pid));
    ReportOutcome(called, honest, pid, w, a, NewClaim(w, a, at), class_, done);
    assert called.procs - {pid} == sys.procs;
  }

  /** The claim is closed as unfinished, and the recovering process is done. */
  ghost predicate RecoveredBy(sys: System, next: System, pid: nat, claim: Claim, at: int) {
    var row := (CLAIM_KIND, AttemptRef(claim.attempt));
    && next.procs == sys.procs - {pid} && next.effects == sys.effects && next.delivered == sys.delivered
    && row in next.book.rows && ClosedUnfinished(claim, at, next.book.rows[row].data)
    && next.book.rows == sys.book.rows[row := next.book.rows[row]]
  }

  lemma RecoverIsNext(sys: System, honest: bool, pid: nat, claim: Claim, at: int)
    requires BookInv(sys.book) && pid in sys.procs && sys.procs[pid] == Recovering(claim, 1) && ReadEarlier(sys.book, claim)
    requires sys.book.rows[(CLAIM_KIND, AttemptRef(claim.attempt))].data.status == Claimed
    ensures RecoveredBy(sys, Next(sys, honest, Recover(pid, at)), pid, claim, at)
  {
    WriteRecoveryLaw(sys.book, claim, at);
    assert Next(sys, honest, Recover(pid, at)) == RecoverStep(sys, pid, claim, 1, at);
  }

  lemma BeginRecoveryIsNext(sys: System, honest: bool, pid: nat, r: AttemptRef)
    requires BookInv(sys.book) && pid !in sys.procs && Unfinished(sys.book, r)
    ensures var claim := sys.book.rows[(CLAIM_KIND, r)].data;
      && Next(sys, honest, BeginRecovery(pid, r)) == sys.(procs := sys.procs[pid := Recovering(claim, 1)])
      && ReadEarlier(sys.book, claim) && r == AttemptRef(claim.attempt)
  {
    RowFact(sys.book, (CLAIM_KIND, r));
  }

  /** A process that dies after its call leaves an open claim; one recovery closes it as recovery-required, and calls nothing. */
  lemma CrashedExecutionIsRecovered(sys: System, honest: bool, pid: nat, other: nat, w: string, a: Attempt, at: int)
    requires BookInv(sys.book) && pid in sys.procs && sys.procs[pid] == InFlight(w, a) && (other == pid || other !in sys.procs)
    requires Unfinished(sys.book, AttemptRef(a))
    ensures var next := Run(sys, honest, [Crash(pid), BeginRecovery(other, AttemptRef(a)), Recover(other, at)]);
      var row := (CLAIM_KIND, AttemptRef(a));
      && next.procs == sys.procs - {pid} && next.effects == sys.effects && next.delivered == sys.delivered
      && row in next.book.rows && ClosedUnfinished(sys.book.rows[row].data, at, next.book.rows[row].data)
      && next.book.rows == sys.book.rows[row := next.book.rows[row]]
  {
    var claim := sys.book.rows[(CLAIM_KIND, AttemptRef(a))].data;
    ClaimTheorems.RunOfThree(sys, honest, Crash(pid), BeginRecovery(other, AttemptRef(a)), Recover(other, at));
    var crashed := sys.(procs := sys.procs - {pid});
    BeginRecoveryIsNext(crashed, honest, other, AttemptRef(a));
    var recovering := crashed.(procs := crashed.procs[other := Recovering(claim, 1)]);
    RecoverIsNext(recovering, honest, other, claim, at);
    assert recovering.procs - {other} == sys.procs - {pid};
  }

  /** An outcome dated before its attempt is refused: nothing is recorded or delivered, and the process is gone. */
  lemma EarlyOutcomeIsRefused(sys: System, honest: bool, pid: nat, w: string, a: Attempt, class_: OutcomeClass, at: int)
    requires pid in sys.procs && sys.procs[pid] == InFlight(w, a) && at < a.createdAt
    ensures Next(sys, honest, Return(pid, class_, at)) == sys.(procs := sys.procs - {pid})
  {
  }

  /** A process that finds its outcome recorded already hands it over; one that finds another record hands over nothing. */
  lemma ClosedClaimIsReported(sys: System, honest: bool, pid: nat, w: string, a: Attempt, o: Outcome)
    requires BookInv(sys.book) && pid in sys.procs && sys.procs[pid] == Returned(w, a, o) && OutcomeMatches(a, o)
    requires (CLAIM_KIND, AttemptRef(a)) in sys.book.rows
    requires var row := sys.book.rows[(CLAIM_KIND, AttemptRef(a))]; row.workspaceId == w && row.data.status != Claimed
    ensures Next(sys, honest, ReadClaim(pid)) == sys.(
      procs := sys.procs - {pid},
      delivered := if sys.book.rows[(CLAIM_KIND, AttemptRef(a))].data.outcome == Some(o) then sys.delivered + {o} else sys.delivered)
  {
    assert Next(sys, honest, ReadClaim(pid)) == ReadStep(sys, pid, w, a, o);
  }
}
