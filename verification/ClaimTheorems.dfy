/** What the claim protocol promises over every run, and what it promises only when retry evidence is honest. */
module ClaimTheorems {
  import opened Common
  import opened EventStore
  import opened ProviderClaims
  import opened ClaimProtocol

  // ---------------------------------------------------------------- effects happen at most once

  /** Two claimed attempts that compete for the same key are the same attempt. */
  lemma ClaimKeyIsExclusive(s: Book, a: Attempt, b: Attempt)
    requires BookInv(s) && HasClaim(s, AttemptRef(a)) && HasClaim(s, AttemptRef(b))
    ensures WellFormed(a) && WellFormed(b)
    ensures ClaimKey(a) == ClaimKey(b) ==> a == b
  {
    RowFact(s, (CLAIM_KIND, AttemptRef(a)));
    RowFact(s, (CLAIM_KIND, AttemptRef(b)));
  }

  /** The same attempt, two initial attempts for one request, or two retries of one attempt. */
  predicate Rivals(a: Attempt, b: Attempt) {
    if a.prior.None? then b.prior.None? && a.requestDigest == b.requestDigest else a.prior == b.prior
  }

  ghost predicate NoRivals(effects: seq<AttemptRef>) {
    forall i, j :: 0 <= i < |effects| && 0 <= j < |effects| && i != j ==> !Rivals(effects[i].attempt, effects[j].attempt)
  }

  /** Over every interleaving of claims, effects, crashes, restarts and recoveries: no attempt calls the
      network twice, and two calls never come from rival attempts. */
  lemma EffectsAreExclusive(honest: bool, acts: seq<Action>)
    ensures NoRivals(Run(EMPTY, honest, acts).effects)
  {
    var sys := Run(EMPTY, honest, acts);
    RunKeepsInv(EMPTY, honest, acts);
    forall i, j | 0 <= i < |sys.effects| && 0 <= j < |sys.effects| && i != j
      ensures !Rivals(sys.effects[i].attempt, sys.effects[j].attempt)
    {
      assert sys.effects[i] in sys.effects && sys.effects[j] in sys.effects && sys.effects[i] != sys.effects[j];
      ClaimKeyIsExclusive(sys.book, sys.effects[i].attempt, sys.effects[j].attempt);
    }
  }

  ghost function EffectsFor(effects: seq<AttemptRef>, requestDigest: string): set<nat> {
    set i: nat | i < |effects| && effects[i].attempt.requestDigest == requestDigest
  }

  ghost function ClaimedRetries(s: Book, requestDigest: string): set<AttemptRef> {
    set k | k in s.rows && k.1.attempt.requestDigest == requestDigest && k.1.attempt.prior.Some? :: k.1
  }

  /** Calls for one request never outnumber one initial claim plus its claimed reviewed retries. */
  lemma EffectsAreCounted(honest: bool, acts: seq<Action>, requestDigest: string)
    ensures var sys := Run(EMPTY, honest, acts);
      |EffectsFor(sys.effects, requestDigest)| <= 1 + |ClaimedRetries(sys.book, requestDigest)|
  {
    var sys := Run(EMPTY, honest, acts);
    EffectsAreExclusive(honest, acts);
    RunKeepsInv(EMPTY, honest, acts);
    var retries := ClaimedRetries(sys.book, requestDigest);
    forall r | r in sys.effects && r.attempt.requestDigest == requestDigest && r.attempt.prior.Some? ensures r in retries {
      assert HasClaim(sys.book, r) && (CLAIM_KIND, r).1 == r;
    }
    CountBound(sys.effects, requestDigest, retries);
  }

  lemma CountBound(effects: seq<AttemptRef>, requestDigest: string, retries: set<AttemptRef>)
    requires NoRivals(effects)
    requires forall r :: r in effects && r.attempt.requestDigest == requestDigest && r.attempt.prior.Some? ==> r in retries
    ensures |EffectsFor(effects, requestDigest)| <= 1 + |retries|
  {
    var all := EffectsFor(effects, requestDigest);
    var initial := set i | i in all && effects[i].attempt.prior.None?;
    AtMostOne(initial);
    InjectionBound(effects, all - initial, retries);
    assert all == initial + (all - initial);
  }

  lemma AtMostOne(s: set<nat>)
    requires forall i, j :: i in s && j in s ==> i == j
    ensures |s| <= 1
  {
    if i :| i in s {
      assert s == {i};
    }
  }

  lemma {:induction false} InjectionBound(effects: seq<AttemptRef>, s: set<nat>, t: set<AttemptRef>)
    requires forall i :: i in s ==> i < |effects| && effects[i] in t
    requires forall i, j :: i in s && j in s && i != j ==> effects[i] != effects[j]
    ensures |s| <= |t|
    decreases s
  {
    if i :| i in s {
      InjectionBound(effects, s - {i}, t - {effects[i]});
    }
  }

  /** A closed claim keeps its record through any further run, whatever stale processes still write. */
  lemma ClosedIsFinal(honest: bool, acts: seq<Action>, more: seq<Action>, r: AttemptRef)
    requires var sys := Run(EMPTY, honest, acts); HasClaim(sys.book, r) && !Unfinished(sys.book, r)
    ensures var sys := Run(EMPTY, honest, acts); var later := Run(sys, honest, more);
      HasClaim(later.book, r) && later.book.rows[(CLAIM_KIND, r)].data == sys.book.rows[(CLAIM_KIND, r)].data
  {
    var sys := Run(EMPTY, honest, acts);
    RunKeepsInv(EMPTY, honest, acts);
    RunKeepsInv(sys, honest, more);
    assert RowKept(sys.book, Run(sys, honest, more).book, r);
  }

  // ---------------------------------------------------------------- attempts form one chain

  predicate IsUncertain(s: Book, r: AttemptRef) {
    HasClaim(s, r) && s.rows[(CLAIM_KIND, r)].data.status == Finished(Uncertain)
  }

  /** The prior of a retry was claimed, ended uncertain, asked for the same thing and used another key. */
  ghost predicate Follows(s: Book, a: Attempt) {
    a.prior.Some? ==>
      var prior := a.prior.value.attempt;
      && IsUncertain(s, a.prior.value)
      && prior.requestDigest == a.requestDigest && prior.requestId == a.requestId && prior.planDigest == a.planDigest
      && prior.idempotencyKey != a.idempotencyKey
  }

  /** The attempt of a process that has not claimed it yet. */
  function Pending(p: Phase): Option<Attempt> {
    match p
    case Prepared(_, a) => Some(a)
    case Unclaimed(expected) => Some(expected.attempt)
    case _ => None
  }

  ghost predicate PendingFollows(sys: System, pid: nat) {
    pid in sys.procs && Pending(sys.procs[pid]).Some? ==> Follows(sys.book, Pending(sys.procs[pid]).value)
  }

  ghost predicate ClaimFollows(s: Book, r: AttemptRef) {
    HasClaim(s, r) ==> Follows(s, r.attempt)
  }

  /** Every claimed retry follows a claimed attempt that ended uncertain. */
  ghost predicate ClaimsFollow(s: Book) {
    forall r {:trigger ClaimFollows(s, r)} :: ClaimFollows(s, r)
  }

  ghost predicate ChainInv(sys: System) {
    && ClaimsFollow(sys.book)
    && (forall p {:trigger PendingFollows(sys, p)} :: PendingFollows(sys, p))
  }

  lemma FollowsSurvives(s: Book, next: Book, a: Attempt)
    requires Grows(s, next) && Follows(s, a)
    ensures Follows(next, a)
  {
    if a.prior.Some? {
      assert RowKept(s, next, a.prior.value);
    }
  }

  /** Only a commit claims an attempt, and the committing process had it pending. */
  lemma NewClaimsWerePending(sys: System, honest: bool, act: Action, r: AttemptRef)
    requires Inv(sys) && !HasClaim(sys.book, r) && HasClaim(Next(sys, honest, act).book, r)
    ensures act.Commit? && act.pid in sys.procs && sys.procs[act.pid].Unclaimed?
    ensures Pending(sys.procs[act.pid]) == Some(r.attempt)
  {
    assert ProcInv(sys, act.pid);
    if act.Commit? && sys.procs[act.pid].Unclaimed? {
      CommitClaimLaw(sys.book, sys.procs[act.pid].expected);
    } else if act.WriteClaim? && sys.procs[act.pid].Closing? {
      WriteOutcomeLaw(sys.book, sys.procs[act.pid].claim, sys.procs[act.pid].outcome);
    } else if act.Recover? && sys.procs[act.pid].Recovering? {
      WriteRecoveryLaw(sys.book, sys.procs[act.pid].claim, act.at);
    }
  }

  /** Admitted evidence that was really delivered is what the prior claim recorded. */
  lemma HonestEvidence(sys: System, a: Attempt, plan: Plan, evidence: Option<Outcome>)
    requires Inv(sys) && Admitted(sys, true, a, plan, evidence)
    ensures Follows(sys.book, a)
  {
    if a.prior.Some? {
      assert Delivered(sys.book, evidence.value);
      RowFact(sys.book, (CLAIM_KIND, a.prior.value));
    }
  }

  lemma PendingOnlyMovesOn(sys: System, honest: bool, act: Action, pid: nat)
    requires Inv(sys) && pid in Next(sys, honest, act).procs && Pending(Next(sys, honest, act).procs[pid]).Some?
    ensures (pid in sys.procs && Pending(sys.procs[pid]) == Pending(Next(sys, honest, act).procs[pid]))
         || (act.Begin? && act.pid == pid && pid !in sys.procs && Admitted(sys, honest, act.attempt, act.plan, act.evidence)
             && Pending(Next(sys, honest, act).procs[pid]) == Some(act.attempt))
  {
  }

  lemma NextKeepsChain(sys: System, act: Action)
    requires Inv(sys) && ChainInv(sys)
    ensures ChainInv(Next(sys, true, act))
  {
    var next := Next(sys, true, act);
    NextKeepsInv(sys, true, act);
    forall r {:trigger ClaimFollows(next.book, r)} ensures ClaimFollows(next.book, r) {
      assert ClaimFollows(sys.book, r) && PendingFollows(sys, act.pid);
      if HasClaim(next.book, r) {
        if !HasClaim(sys.book, r) {
          NewClaimsWerePending(sys, true, act, r);
        }
        FollowsSurvives(sys.book, next.book, r.attempt);
      }
    }
    forall p {:trigger PendingFollows(next, p)} ensures PendingFollows(next, p) {
      assert PendingFollows(sys, p);
      if p in next.procs && Pending(next.procs[p]).Some? {
        PendingOnlyMovesOn(sys, true, act, p);
        if act.Begin? && act.pid == p && p !in sys.procs {
          HonestEvidence(sys, act.attempt, act.plan, act.evidence);
        }
        FollowsSurvives(sys.book, next.book, Pending(next.procs[p]).value);
      }
    }
  }

  lemma {:induction false} HonestRunKeepsChain(acts: seq<Action>)
    ensures ChainInv(Run(EMPTY, true, acts))
  {
    if acts != [] {
      HonestRunKeepsChain(acts[..|acts| - 1]);
      RunKeepsInv(EMPTY, true, acts[..|acts| - 1]);
      NextKeepsChain(Run(EMPTY, true, acts[..|acts| - 1]), acts[|acts| - 1]);
    }
  }

  /** A commit keeps the chain exactly when its key is already taken or its prior already ended uncertain. */
  lemma CommitKeepsChainIff(sys: System, honest: bool, pid: nat)
    requires Inv(sys) && ClaimsFollow(sys.book) && pid in sys.procs && sys.procs[pid].Unclaimed?
    ensures var a := sys.procs[pid].expected.attempt;
      && WellFormed(a)
      && (ClaimsFollow(Next(sys, honest, Commit(pid)).book) <==> Has(sys.book, ClaimKey(a)) || Follows(sys.book, a))
  {
    var expected := sys.procs[pid].expected;
    var a := expected.attempt;
    var next := Next(sys, honest, Commit(pid));
    assert ProcInv(sys, pid);
    NextKeepsInv(sys, honest, Commit(pid));
    CommitClaimLaw(sys.book, expected);
    forall r | r != AttemptRef(a) ensures ClaimFollows(next.book, r) {
      assert ClaimFollows(sys.book, r);
      if HasClaim(next.book, r) {
        FollowsSurvives(sys.book, next.book, r.attempt);
      }
    }
    if HasClaim(next.book, AttemptRef(a)) {
      assert ClaimFollows(sys.book, AttemptRef(a));
      if Follows(sys.book, a) {
        FollowsSurvives(sys.book, next.book, a);
      } else if a.prior.Some? {
        assert next.book.rows.Keys == sys.book.rows.Keys + {(CLAIM_KIND, AttemptRef(a))};
        assert ClaimFollows(next.book, AttemptRef(a)) <==> Has(sys.book, ClaimKey(a));
      }
    }
  }

  /** The action commits a retry under a free key whose prior is not recorded as uncertain. */
  ghost predicate Unfounded(sys: System, act: Action) {
    && act.Commit? && act.pid in sys.procs && sys.procs[act.pid].Unclaimed?
    && WellFormed(sys.procs[act.pid].expected.attempt)
    && !Has(sys.book, ClaimKey(sys.procs[act.pid].expected.attempt)) && !Follows(sys.book, sys.procs[act.pid].expected.attempt)
  }

  lemma ChainStepIff(sys: System, honest: bool, act: Action)
    requires Inv(sys) && ClaimsFollow(sys.book)
    ensures ClaimsFollow(Next(sys, honest, act).book) <==> !Unfounded(sys, act)
  {
    if act.Commit? && act.pid in sys.procs && sys.procs[act.pid].Unclaimed? {
      CommitKeepsChainIff(sys, honest, act.pid);
    } else {
      var next := Next(sys, honest, act);
      NextKeepsInv(sys, honest, act);
      forall r {:trigger ClaimFollows(next.book, r)} ensures ClaimFollows(next.book, r) {
        assert ClaimFollows(sys.book, r);
        if HasClaim(next.book, r) {
          if !HasClaim(sys.book, r) {
            NewClaimsWerePending(sys, honest, act, r);
          }
          FollowsSurvives(sys.book, next.book, r.attempt);
        }
      }
    }
  }

  ghost predicate ChainAt(honest: bool, acts: seq<Action>, i: nat)
    requires i <= |acts|
  {
    ClaimsFollow(Run(EMPTY, honest, acts[..i]).book)
  }

  ghost predicate FoundedAt(honest: bool, acts: seq<Action>, i: nat)
    requires i < |acts|
  {
    !Unfounded(Run(EMPTY, honest, acts[..i]), acts[i])
  }

  lemma ChainNextIff(honest: bool, acts: seq<Action>, i: nat)
    requires i < |acts| && ChainAt(honest, acts, i)
    ensures ChainAt(honest, acts, i + 1) <==> FoundedAt(honest, acts, i)
  {
    assert acts[..i + 1][..i] == acts[..i];
    RunKeepsInv(EMPTY, honest, acts[..i]);
    ChainStepIff(Run(EMPTY, honest, acts[..i]), honest, acts[i]);
  }

  lemma {:induction false} FoundedRunKeepsChain(honest: bool, acts: seq<Action>, n: nat)
    requires n <= |acts| && forall i :: 0 <= i < n ==> FoundedAt(honest, acts, i)
    ensures ChainAt(honest, acts, n)
  {
    if n > 0 {
      FoundedRunKeepsChain(honest, acts, n - 1);
      assert FoundedAt(honest, acts, n - 1);
      ChainNextIff(honest, acts, n - 1);
    }
  }

  /** In every run, whatever evidence it brings: claimed retries follow uncertain attempts throughout exactly when every
      commit of a retry under a free key finds its prior recorded as uncertain. */
  lemma ChainRunIff(honest: bool, acts: seq<Action>)
    ensures (forall i :: 0 <= i <= |acts| ==> ChainAt(honest, acts, i))
      <==> (forall i :: 0 <= i < |acts| ==> FoundedAt(honest, acts, i))
  {
    if forall i :: 0 <= i < |acts| ==> FoundedAt(honest, acts, i) {
      forall i | 0 <= i <= |acts| ensures ChainAt(honest, acts, i) {
        FoundedRunKeepsChain(honest, acts, i);
      }
    }
    if forall i :: 0 <= i <= |acts| ==> ChainAt(honest, acts, i) {
      forall i | 0 <= i < |acts| ensures FoundedAt(honest, acts, i) {
        assert ChainAt(honest, acts, i) && ChainAt(honest, acts, i + 1);
        ChainNextIff(honest, acts, i);
      }
    }
  }

  /** Runs whose evidence an execution delivered are such runs. */
  lemma HonestRunIsFounded(acts: seq<Action>, i: nat)
    requires i < |acts|
    ensures FoundedAt(true, acts, i)
  {
    HonestRunKeepsChain(acts[..i]);
    HonestRunKeepsChain(acts[..i + 1]);
    ChainNextIff(true, acts, i);
  }

  /** An attempt after all the attempts it retries, oldest first. */
  function Lineage(a: Attempt): seq<Attempt> {
    if a.prior.None? then [a] else Lineage(a.prior.value.attempt) + [a]
  }

  lemma {:induction false} LineagesAgree(sys: System, a: Attempt, b: Attempt)
    requires Inv(sys) && ClaimsFollow(sys.book) && HasClaim(sys.book, AttemptRef(a)) && HasClaim(sys.book, AttemptRef(b))
    requires a.requestDigest == b.requestDigest && |Lineage(a)| <= |Lineage(b)|
    ensures Lineage(a) <= Lineage(b)
    decreases |Lineage(b)|
  {
    assert ClaimFollows(sys.book, AttemptRef(a)) && ClaimFollows(sys.book, AttemptRef(b));
    ClaimKeyIsExclusive(sys.book, a, b);
    if |Lineage(a)| < |Lineage(b)| {
      LineagesAgree(sys, a, b.prior.value.attempt);
    } else if a.prior.Some? && b.prior.Some? {
      LineagesAgree(sys, a.prior.value.attempt, b.prior.value.attempt);
      assert Lineage(a)[|Lineage(a)| - 2] == a.prior.value.attempt && Lineage(b)[|Lineage(b)| - 2] == b.prior.value.attempt;
    }
  }

  lemma {:induction false} LineageIsSound(sys: System, a: Attempt, i: nat)
    requires ClaimsFollow(sys.book) && HasClaim(sys.book, AttemptRef(a)) && i < |Lineage(a)|
    ensures HasClaim(sys.book, AttemptRef(Lineage(a)[i])) && Lineage(a)[i].requestDigest == a.requestDigest
    ensures i < |Lineage(a)| - 1 ==>
      && IsUncertain(sys.book, AttemptRef(Lineage(a)[i]))
      && Lineage(a)[i + 1].prior == Some(AttemptRef(Lineage(a)[i]))
      && Lineage(a)[i + 1].idempotencyKey != Lineage(a)[i].idempotencyKey
  {
    assert ClaimFollows(sys.book, AttemptRef(a));
    if i < |Lineage(a)| - 1 {
      LineageIsSound(sys, a.prior.value.attempt, i);
    }
  }

  lemma OneChain(sys: System, a: Attempt, b: Attempt)
    requires Inv(sys) && ClaimsFollow(sys.book) && HasClaim(sys.book, AttemptRef(a)) && HasClaim(sys.book, AttemptRef(b))
    requires a.requestDigest == b.requestDigest
    ensures Lineage(a) <= Lineage(b) || Lineage(b) <= Lineage(a)
    ensures !IsUncertain(sys.book, AttemptRef(a)) ==> Lineage(b) <= Lineage(a)
  {
    if |Lineage(b)| <= |Lineage(a)| {
      LineagesAgree(sys, b, a);
    } else {
      LineagesAgree(sys, a, b);
      LineageIsSound(sys, b, |Lineage(a)| - 1);
    }
  }

  lemma FoundedRunIsChain(honest: bool, acts: seq<Action>)
    requires honest || forall i :: 0 <= i < |acts| ==> FoundedAt(honest, acts, i)
    ensures Inv(Run(EMPTY, honest, acts)) && ClaimsFollow(Run(EMPTY, honest, acts).book)
  {
    RunKeepsInv(EMPTY, honest, acts);
    if honest {
      HonestRunKeepsChain(acts);
    } else {
      FoundedRunKeepsChain(honest, acts, |acts|);
      assert acts[..|acts|] == acts;
    }
  }

  /** In every founded run, and so in every honest one, the claimed attempts for one request are one chain: lineages extend
      one another, all but the last attempt ended uncertain, and an attempt that ended otherwise has every other one
      before it. */
  lemma AttemptsFormOneChain(honest: bool, acts: seq<Action>, a: Attempt, b: Attempt)
    requires honest || forall i :: 0 <= i < |acts| ==> FoundedAt(honest, acts, i)
    requires var s := Run(EMPTY, honest, acts).book; HasClaim(s, AttemptRef(a)) && HasClaim(s, AttemptRef(b))
    requires a.requestDigest == b.requestDigest
    ensures Lineage(a) <= Lineage(b) || Lineage(b) <= Lineage(a)
    ensures !IsUncertain(Run(EMPTY, honest, acts).book, AttemptRef(a)) ==> Lineage(b) <= Lineage(a)
    ensures forall i :: 0 <= i < |Lineage(a)| - 1 ==>
      && IsUncertain(Run(EMPTY, honest, acts).book, AttemptRef(Lineage(a)[i]))
      && Lineage(a)[i + 1].idempotencyKey != Lineage(a)[i].idempotencyKey
  {
    var sys := Run(EMPTY, honest, acts);
    FoundedRunIsChain(honest, acts);
    OneChain(sys, a, b);
    forall i | 0 <= i < |Lineage(a)| - 1
      ensures IsUncertain(sys.book, AttemptRef(Lineage(a)[i])) && Lineage(a)[i + 1].idempotencyKey != Lineage(a)[i].idempotencyKey
    {
      LineageIsSound(sys, a, i);
    }
  }

  // ---------------------------------------------------------------- without honest evidence

  lemma RunOfFour(sys: System, honest: bool, a: Action, b: Action, c: Action, d: Action)
    ensures Run(sys, honest, [a, b, c, d]) == Next(Next(Next(Next(sys, honest, a), honest, b), honest, c), honest, d)
  {
    var acts := [a, b, c, d];
    assert acts[..3] == [a, b, c] && acts[..3][..2] == [a, b] && acts[..3][..2][..1] == [a] && [a][..0] == [];
    assert Run(sys, honest, [a]) == Next(sys, honest, a);
    assert Run(sys, honest, [a, b]) == Next(Run(sys, honest, [a]), honest, b);
    assert Run(sys, honest, [a, b, c]) == Next(Run(sys, honest, [a, b]), honest, c);
  }

  /** An attempt that nobody has claimed for its prior gets through claim and network call, undisturbed. */
  lemma FreeRetryGoesThrough(sys: System, pid: nat, w: string, retry: Attempt, at: int)
    requires BookInv(sys.book) && pid in sys.procs && sys.procs[pid] == Prepared(w, retry)
    requires WellFormed(retry) && !Has(sys.book, ClaimKey(retry))
    ensures var next := Next(Next(Next(sys, false, LookAtKey(pid, at)), false, Commit(pid)), false, Invoke(pid));
      next.effects == sys.effects + [AttemptRef(retry)] && next.procs == sys.procs[pid := InFlight(w, retry)]
      && next.book == CommitClaim(sys.book, NewClaim(w, retry, at)).1 && HasClaim(next.book, AttemptRef(retry))
  {
    CommitClaimLaw(sys.book, NewClaim(w, retry, at));
    assert Next(sys, false, LookAtKey(pid, at)) == Enter(sys, pid, Unclaimed(NewClaim(w, retry, at)));
  }

  /** Retry evidence is compared with the attempt it names, not with the store: an uncertain outcome that no
      execution recorded is admitted for an attempt that did not end uncertain, and its retry is executed. */
  lemma UnrecordedEvidenceIsAccepted(sys: System, pid: nat, w: string, a: Attempt, retry: Attempt, at: int)
    requires Inv(sys) && pid !in sys.procs && HasClaim(sys.book, AttemptRef(a)) && !IsUncertain(sys.book, AttemptRef(a))
    requires retry == Attempt(retry.attemptId, a.requestId, a.requestDigest, a.planDigest, retry.idempotencyKey,
                              Some(AttemptRef(a)), true, retry.createdAt) && retry.idempotencyKey != a.idempotencyKey
    requires !Has(sys.book, ReviewedRetry(AttemptRef(a)))
    ensures var plan := Plan(a.requestId, a.requestDigest, a.planDigest);
      var begin := Begin(pid, w, retry, plan, Some(BuildOutcome(a, Uncertain, at)));
      var next := Run(sys, false, [begin, LookAtKey(pid, at), Commit(pid), Invoke(pid)]);
      next.effects == sys.effects + [AttemptRef(retry)] && !ClaimsFollow(next.book)
  {
    var plan := Plan(a.requestId, a.requestDigest, a.planDigest);
    var begin := Begin(pid, w, retry, plan, Some(BuildOutcome(a, Uncertain, at)));
    RunOfFour(sys, false, begin, LookAtKey(pid, at), Commit(pid), Invoke(pid));
    var begun := Next(sys, false, begin);
    assert begun == Enter(sys, pid, Prepared(w, retry));
    FreeRetryGoesThrough(begun, pid, w, retry, at);
    CommitClaimLaw(sys.book, NewClaim(w, retry, at));
    var next := Run(sys, false, [begin, LookAtKey(pid, at), Commit(pid), Invoke(pid)]);
    assert !IsUncertain(next.book, AttemptRef(a));
    assert !ClaimFollows(next.book, AttemptRef(retry));
  }

  // ---------------------------------------------------------------- a run that retries a success

  const PLAN := Plan("request", "request digest", "plan digest")

  const FIRST := Attempt("1", "request", "request digest", "plan digest", "key 1", None, false, 0)

  const AGAIN := Attempt("2", "request", "request digest", "plan digest", "key 2", Some(AttemptRef(FIRST)), true, 2)

  const OPENING: seq<Action> := [Begin(0, "w", FIRST, PLAN, None), LookAtKey(0, 0), Commit(0), Invoke(0)]

  const SUCCESS := BuildOutcome(FIRST, Success, 1)

  lemma RunSnoc(sys: System, honest: bool, acts: seq<Action>, act: Action)
    ensures Run(sys, honest, acts + [act]) == Next(Run(sys, honest, acts), honest, act)
  {
    assert (acts + [act])[..|acts|] == acts;
  }

  lemma {:induction false} RunConcat(sys: System, honest: bool, acts: seq<Action>, more: seq<Action>)
    ensures Run(sys, honest, acts + more) == Run(Run(sys, honest, acts), honest, more)
  {
    if more == [] {
      assert acts + more == acts;
    } else {
      var n := |more| - 1;
      RunConcat(sys, honest, acts, more[..n]);
      assert (acts + more)[..|acts + more| - 1] == acts + more[..n];
    }
  }

  /** The opening claims the first attempt and calls the network. */
  lemma OpeningCalls()
    ensures var sys := Run(EMPTY, false, OPENING); var claim := NewClaim("w", FIRST, 0);
      && sys.procs == map[0 := InFlight("w", FIRST)] && sys.effects == [AttemptRef(FIRST)] && BookInv(sys.book)
      && sys.book == Written(EMPTY.book, Stamp(ClaimDraft(claim), 0), claim, 1)
  {
    OpeningOf("w", FIRST, PLAN);
  }

  lemma OpeningOf(w: string, a: Attempt, plan: Plan)
    requires Admitted(EMPTY, false, a, plan, None)
    ensures var acts := [Begin(0, w, a, plan, None), LookAtKey(0, 0), Commit(0), Invoke(0)];
      var sys := Run(EMPTY, false, acts); var claim := NewClaim(w, a, 0);
      && sys.procs == map[0 := InFlight(w, a)] && sys.effects == [AttemptRef(a)] && BookInv(sys.book)
      && sys.book == Written(EMPTY.book, Stamp(ClaimDraft(claim), 0), claim, 1)
  {
    var begin := Begin(0, w, a, plan, None);
    RunOfFour(EMPTY, false, begin, LookAtKey(0, 0), Commit(0), Invoke(0));
    var begun := Next(EMPTY, false, begin);
    assert begun == Enter(EMPTY, 0, Prepared(w, a));
    FreeRetryGoesThrough(begun, 0, w, a, 0);
    CommitFresh(EMPTY.book, NewClaim(w, a, 0));
    assert EMPTY.effects + [AttemptRef(a)] == [AttemptRef(a)];
  }

  const CALLED := Run(EMPTY, false, OPENING)

  const CLAIM := NewClaim("w", FIRST, 0)

  const REPORTING: seq<Action> := [Return(0, Success, 1), ReadClaim(0), WriteClaim(0)]

  /** The open claim of the first attempt is there to be closed. */
  lemma SuccessIsRead()
    ensures ReadForOutcome(CALLED.book, "w", FIRST, SUCCESS) == Write(CLAIM, 1)
  {
    OpeningCalls();
    OpenClaimIsRead(CALLED.book, "w", FIRST, SUCCESS, Stamp(ClaimDraft(CLAIM), 0), CLAIM);
  }

  lemma OpenClaimIsRead(book: Book, w: string, a: Attempt, o: Outcome, e: Event<Key, AttemptRef, Payload>, claim: Claim)
    requires book == Written(EMPTY.book, e, claim, 1) && OutcomeMatches(a, o)
    requires claim.attempt == a && claim.workspaceId == w && claim.status.Claimed?
    requires e.body.key != OutcomeKey(AttemptRef(a), o)
    ensures ReadForOutcome(book, w, a, o) == Write(claim, 1)
  {
    LookupAppend([], e, OutcomeKey(AttemptRef(a), o));
  }

  lemma RunOfThree(sys: System, honest: bool, a: Action, b: Action, c: Action)
    ensures Run(sys, honest, [a, b, c]) == Next(Next(Next(sys, honest, a), honest, b), honest, c)
  {
    assert [a, b, c][..2] == [a, b] && [a, b][..1] == [a] && [a][..0] == [];
    assert Run(sys, honest, [a]) == Next(sys, honest, a);
    assert Run(sys, honest, [a, b]) == Next(Run(sys, honest, [a]), honest, b);
  }

  lemma ReturnIsNext(sys: System, w: string, a: Attempt, at: int)
    requires sys.procs == map[0 := InFlight(w, a)] && a.createdAt <= at
    ensures Next(sys, false, Return(0, Success, at))
            == sys.(procs := map[0 := Returned(w, a, BuildOutcome(a, Success, at))])
  {
    assert sys.procs[0] == InFlight(w, a);
    assert Next(sys, false, Return(0, Success, at)) == ReturnStep(sys, 0, w, a, Success, at);
  }

  lemma ReadIsNext(sys: System, w: string, a: Attempt, o: Outcome, claim: Claim, version: nat)
    requires sys.procs == map[0 := Returned(w, a, o)] && ReadForOutcome(sys.book, w, a, o) == Write(claim, version)
    ensures Next(sys, false, ReadClaim(0)) == sys.(procs := map[0 := Closing(claim, version, o)])
  {
    assert sys.procs[0] == Returned(w, a, o);
    assert Next(sys, false, ReadClaim(0)) == ReadStep(sys, 0, w, a, o);
  }

  lemma WriteIsNext(sys: System, claim: Claim, version: nat, o: Outcome)
    requires sys.procs == map[0 := Closing(claim, version, o)]
    ensures Next(sys, false, WriteClaim(0)) == WriteStep(sys, 0, claim, version, o)
  {
    assert sys.procs[0] == Closing(claim, version, o);
  }

  /** A success reported without a crash is written for the claim that was read. */
  lemma ReportingSteps(sys: System, w: string, a: Attempt, at: int, claim: Claim, version: nat)
    requires sys.procs == map[0 := InFlight(w, a)] && a.createdAt <= at
    requires ReadForOutcome(sys.book, w, a, BuildOutcome(a, Success, at)) == Write(claim, version)
    ensures var o := BuildOutcome(a, Success, at);
      Run(sys, false, [Return(0, Success, at), ReadClaim(0), WriteClaim(0)])
      == WriteStep(sys.(procs := map[0 := Closing(claim, version, o)]), 0, claim, version, o)
  {
    var o := BuildOutcome(a, Success, at);
    ReturnIsNext(sys, w, a, at);
    ReadIsNext(sys.(procs := map[0 := Returned(w, a, o)]), w, a, o, claim, version);
    WriteIsNext(sys.(procs := map[0 := Closing(claim, version, o)]), claim, version, o);
    RunOfThree(sys, false, Return(0, Success, at), ReadClaim(0), WriteClaim(0));
  }

  /** Seven actions from the empty system record the success of the first attempt. */
  lemma FirstSucceeds()
    ensures var sys := Run(EMPTY, false, OPENING + REPORTING);
      && sys.procs == map[] && sys.effects == [AttemptRef(FIRST)] && HasClaim(sys.book, AttemptRef(FIRST))
      && sys.book.rows[(CLAIM_KIND, AttemptRef(FIRST))].data.status == Finished(Success)
      && !Has(sys.book, ReviewedRetry(AttemptRef(FIRST)))
  {
    OpeningCalls();
    RunConcat(EMPTY, false, OPENING, REPORTING);
    SuccessIsRead();
    ReportingSteps(CALLED, "w", FIRST, 1, CLAIM, 1);
    WriteOutcomeLaw(CALLED.book, CLAIM, SUCCESS);
    LookupAppend([], Stamp(ClaimDraft(CLAIM), 0), ReviewedRetry(AttemptRef(FIRST)));
    LookupAppend(CALLED.book.log, Stamp(OutcomeDraft("w", SUCCESS), 1), ReviewedRetry(AttemptRef(FIRST)));
  }

  /** Four more actions call the network again for the request that already succeeded. */
  lemma SuccessIsRetried()
    ensures var evidence := BuildOutcome(FIRST, Uncertain, 1);
      var acts := OPENING + REPORTING
        + [Begin(0, "w", AGAIN, PLAN, Some(evidence)), LookAtKey(0, 1), Commit(0), Invoke(0)];
      Run(EMPTY, false, acts).effects == [AttemptRef(FIRST), AttemptRef(AGAIN)] && !ClaimsFollow(Run(EMPTY, false, acts).book)
  {
    var before := OPENING + REPORTING;
    var sys := Run(EMPTY, false, before);
    FirstSucceeds();
    RunKeepsInv(EMPTY, false, before);
    UnrecordedEvidenceIsAccepted(sys, 0, "w", FIRST, AGAIN, 1);
    var more := [Begin(0, "w", AGAIN, PLAN, Some(BuildOutcome(FIRST, Uncertain, 1))), LookAtKey(0, 1), Commit(0), Invoke(0)];
    RunConcat(EMPTY, false, before, more);
  }
}
