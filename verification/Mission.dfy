/**
 One mission run: a plan of steps, the attempts made at each step, recorded evidence and handoffs.
 Every durable save is its own action, so runs may crash between any two of them.
 */
module Mission {
  import opened Common

  datatype RunState = Created | Running | Paused | NeedsRecovery | RunCompleted | RunCancelled | RunFailed

  datatype AttemptState = Ready | WaitingHuman | Active | Blocked | Completed | Failed | Cancelled | RecoveryRequired

  /** `started` marks a committed external start, `recovered` an attempt that carries a recovery reason. */
  datatype Attempt = Attempt(state: AttemptState, started: bool, recovered: bool)

  /** An input is fed by a named output of another step, or by nothing this run records. */
  datatype Input = Input(name: string, source: Option<(string, string)>)

  datatype PlanStep = PlanStep(dependsOn: seq<string>, inputs: seq<Input>, outputs: seq<string>, local: bool)

  type Plan = map<string, PlanStep>

  /** `attempts[s][n - 1]` is attempt number `n` of step `s`; `inflight` are approvals being executed. */
  datatype Mission = Mission(
    run: RunState, attempts: map<string, seq<Attempt>>, evidence: set<string>, handoffs: set<(string, string)>,
    inflight: set<(string, nat)>)

  const NEW_MISSION := Mission(Created, map[], {}, {}, {})

  const FRESH := Attempt(Ready, false, false)

  // ---------------------------------------------------------------- transition tables

  predicate RunMay(current: RunState, next: RunState) {
    match current
    case Created => next in {Running, RunCancelled}
    case Running => next in {Paused, RunCancelled, RunCompleted, RunFailed, NeedsRecovery}
    case Paused => next in {Running, RunCancelled}
    case NeedsRecovery => next in {Running, RunCancelled, RunFailed}
    case _ => false
  }

  predicate AttemptMay(current: AttemptState, next: AttemptState) {
    match current
    case Ready => next in {WaitingHuman, Active, Blocked, Cancelled}
    case WaitingHuman => next in {Active, Cancelled, RecoveryRequired}
    case Active => next in {Completed, Failed, RecoveryRequired, WaitingHuman}
    case Blocked => next in {Ready, Cancelled}
    case RecoveryRequired => next in {Cancelled}
    case _ => false
  }

  // ---------------------------------------------------------------- the ready set

  function Of(m: Mission, step: string): seq<Attempt> {
    if step in m.attempts then m.attempts[step] else []
  }

  predicate IsCompleted(m: Mission, step: string) {
    exists i :: 0 <= i < |Of(m, step)| && Of(m, step)[i].state == Completed
  }

  datatype Blocker =
    | RecoveryRequiresReview | MissionPaused | MissionCancelled | MissionNotRunning
    | DependencyUnsatisfied(step: string) | StepOutputMissing(input: string) | ResourceConflict

  datatype Verdict = Settled | Waiting(blockers: seq<Blocker>) | ReadyNow

  function DependencyBlockers(m: Mission, deps: seq<string>, n: nat): seq<Blocker>
    requires n <= |deps|
  {
    if n == 0 then []
    else if IsCompleted(m, deps[n - 1]) then DependencyBlockers(m, deps, n - 1)
    else DependencyBlockers(m, deps, n - 1) + [DependencyUnsatisfied(deps[n - 1])]
  }

  function InputBlockers(m: Mission, step: string, inputs: seq<Input>, n: nat): seq<Blocker>
    requires n <= |inputs|
  {
    if n == 0 then []
    else if (step, inputs[n - 1].name) in m.handoffs then InputBlockers(m, step, inputs, n - 1)
    else InputBlockers(m, step, inputs, n - 1) + [StepOutputMissing(inputs[n - 1].name)]
  }

  /** What the ready-set derivation decides about one step of the plan. */
  function Judge(m: Mission, plan: Plan, step: string, conflict: bool): Verdict
    requires step in plan
  {
    var attempts := Of(m, step);
    if IsCompleted(m, step) then Settled
    else if attempts != [] && attempts[|attempts| - 1].state !in {Completed, Cancelled, Failed} then Settled
    else
      var blockers :=
        (if attempts != [] then [RecoveryRequiresReview] else [])
        + (if m.run == Paused then [MissionPaused] else if m.run == RunCancelled then [MissionCancelled]
           else if m.run != Running then [MissionNotRunning] else [])
        + DependencyBlockers(m, plan[step].dependsOn, |plan[step].dependsOn|)
        + InputBlockers(m, step, plan[step].inputs, |plan[step].inputs|)
        + (if conflict then [ResourceConflict] else []);
      if blockers == [] then ReadyNow else Waiting(blockers)
  }

  predicate DepsCompleted(m: Mission, plan: Plan, step: string)
    requires step in plan
  {
    forall d :: d in plan[step].dependsOn ==> IsCompleted(m, d)
  }

  predicate InputsRecorded(m: Mission, plan: Plan, step: string)
    requires step in plan
  {
    forall i :: 0 <= i < |plan[step].inputs| ==> (step, plan[step].inputs[i].name) in m.handoffs
  }

  lemma {:induction false} NoDependencyBlockers(m: Mission, deps: seq<string>, n: nat)
    requires n <= |deps|
    ensures DependencyBlockers(m, deps, n) == [] <==> forall i :: 0 <= i < n ==> IsCompleted(m, deps[i])
  {
    if n > 0 {
      NoDependencyBlockers(m, deps, n - 1);
    }
  }

  lemma {:induction false} NoInputBlockers(m: Mission, step: string, inputs: seq<Input>, n: nat)
    requires n <= |inputs|
    ensures InputBlockers(m, step, inputs, n) == [] <==> forall i :: 0 <= i < n ==> (step, inputs[i].name) in m.handoffs
  {
    if n > 0 {
      NoInputBlockers(m, step, inputs, n - 1);
    }
  }

  /** A step is ready exactly when the run is running, it was never attempted, and everything it needs is there. */
  lemma ReadyIff(m: Mission, plan: Plan, step: string, conflict: bool)
    requires step in plan
    ensures Judge(m, plan, step, conflict) == ReadyNow <==>
      && m.run == Running && Of(m, step) == [] && !conflict
      && DepsCompleted(m, plan, step) && InputsRecorded(m, plan, step)
  {
    var deps := plan[step].dependsOn;
    NoDependencyBlockers(m, deps, |deps|);
    NoInputBlockers(m, step, plan[step].inputs, |plan[step].inputs|);
    var attempts := Of(m, step);
    if attempts != [] && attempts[|attempts| - 1].state == Completed {
      assert IsCompleted(m, step);
    }
  }

  // ---------------------------------------------------------------- actions

  datatype Scheduled = WithGate | AsBlocked | WithoutGate

  datatype Action =
    | StartRun
    | CreateAttempt(step: string)
    | Schedule(step: string, n: nat, outcome: Scheduled)
    | StartLocal(step: string, n: nat)
    | BeginApproval(step: string, n: nat)
    | ObserveResult(step: string, n: nat)
    | FailApproval(step: string, n: nat)
    | RejectGate(step: string, n: nat)
    | RecordEvidence(step: string, n: nat)
    | Finish(step: string, n: nat)
    | RecordHandoffs(step: string)
    | CompleteRun
    | Pause | Resume
    | CancelAttempt(step: string, n: nat)
    | CancelRun
    | Retry(step: string, n: nat)
    | RecoverAttempt(step: string, n: nat)
    | RecoverRun
    | Crash

  predicate Exists(m: Mission, step: string, n: nat) {
    n < |Of(m, step)|
  }

  function Put(m: Mission, step: string, n: nat, a: Attempt): Mission
    requires n <= |Of(m, step)|
  {
    m.(attempts := m.attempts[step := if n < |Of(m, step)| then Of(m, step)[n := a] else Of(m, step) + [a]])
  }

  function SetRun(m: Mission, next: RunState): Mission {
    if RunMay(m.run, next) then m.(run := next) else m
  }

  /** The handoffs that a completed source step feeds into the steps that depend on it. */
  function HandoffsFrom(plan: Plan, source: string): set<(string, string)>
    requires source in plan
  {
    set step, i | step in plan && 0 <= i < |plan[step].inputs| && source in plan[step].dependsOn
      && plan[step].inputs[i].source.Some? && plan[step].inputs[i].source.value.0 == source
      && plan[step].inputs[i].source.value.1 in plan[source].outputs :: (step, plan[step].inputs[i].name)
  }

  predicate MissionDone(m: Mission, terminals: seq<string>) {
    forall t :: t in terminals ==> IsCompleted(m, t) && t in m.evidence
  }

  /** An approval may start external work only outside pause, cancellation and recovery. */
  predicate MayApprove(m: Mission, step: string, n: nat) {
    && Exists(m, step, n) && m.run != Paused && m.run != RunCancelled
    && !Of(m, step)[n].recovered && Of(m, step)[n].state != RecoveryRequired
  }

  predicate MayRetry(m: Mission, step: string, n: nat) {
    && Exists(m, step, n) && m.run in {Running, NeedsRecovery}
    && var a := Of(m, step)[n];
       a.state in {RecoveryRequired, Failed, Cancelled} || (a.state == WaitingHuman && a.recovered)
  }

  /** One action; an action that is not enabled changes nothing. */
  function Next(m: Mission, plan: Plan, terminals: seq<string>, act: Action): Mission {
    match act
    case StartRun => if m.run == Created then SetRun(m, Running) else m
    case CreateAttempt(step) =>
      if step in plan && Judge(m, plan, step, false) == ReadyNow then Put(m, step, 0, FRESH) else m
    case Schedule(step, n, outcome) =>
      if step !in plan || plan[step].local || !Exists(m, step, n) || Of(m, step)[n].state != Ready then m
      else (match outcome
            case WithGate => Put(m, step, n, Of(m, step)[n].(state := WaitingHuman))
            case AsBlocked => Put(m, step, n, Of(m, step)[n].(state := Blocked))
            case WithoutGate => m)
    case StartLocal(step, n) =>
      if step in plan && plan[step].local && Exists(m, step, n) && AttemptMay(Of(m, step)[n].state, Active)
      then Put(m, step, n, Of(m, step)[n].(state := Active)) else m
    case BeginApproval(step, n) =>
      if MayApprove(m, step, n) then m.(inflight := m.inflight + {(step, n)}) else m
    case ObserveResult(step, n) =>
      if (step, n) !in m.inflight || !Exists(m, step, n) then m
      else if Of(m, step)[n].state == Completed then m.(inflight := m.inflight - {(step, n)})
      else if Of(m, step)[n].state in {Ready, WaitingHuman} && !Of(m, step)[n].started then
        Put(m, step, n, Of(m, step)[n].(state := Active, started := true)).(inflight := m.inflight - {(step, n)})
      else m
    case FailApproval(step, n) =>
      if (step, n) !in m.inflight || !Exists(m, step, n) then m
      else if Of(m, step)[n].state in {Completed, RecoveryRequired} then m.(inflight := m.inflight - {(step, n)})
      else Put(m, step, n, Attempt(RecoveryRequired, true, true)).(inflight := m.inflight - {(step, n)})
    case RejectGate(step, n) =>
      if Exists(m, step, n) && Of(m, step)[n].state == WaitingHuman
      then Put(m, step, n, Of(m, step)[n].(state := Cancelled)) else m
    case RecordEvidence(step, n) =>
      if Exists(m, step, n) && Of(m, step)[n].state == Active then m.(evidence := m.evidence + {step}) else m
    case Finish(step, n) =>
      if Exists(m, step, n) && Of(m, step)[n].state == Active && step in m.evidence
      then Put(m, step, n, Of(m, step)[n].(state := Completed)) else m
    case RecordHandoffs(step) =>
      if step in plan && IsCompleted(m, step) then m.(handoffs := m.handoffs + HandoffsFrom(plan, step)) else m
    case CompleteRun => if m.run == Running && MissionDone(m, terminals) then SetRun(m, RunCompleted) else m
    case Pause => SetRun(m, Paused)
    case Resume => SetRun(m, Running)
    case CancelAttempt(step, n) =>
      if m.run == RunCancelled || !Exists(m, step, n) then m
      else if Of(m, step)[n].state == Active then Put(m, step, n, Of(m, step)[n].(state := RecoveryRequired, recovered := true))
      else if AttemptMay(Of(m, step)[n].state, Cancelled) then Put(m, step, n, Of(m, step)[n].(state := Cancelled))
      else m
    case CancelRun => SetRun(m, RunCancelled)
    case Retry(step, n) =>
      if MayRetry(m, step, n) then Put(m.(run := Running), step, n + 1, FRESH) else m
    case RecoverAttempt(step, n) =>
      if Exists(m, step, n) && Of(m, step)[n].state == Active && m.inflight == {}
      then Put(m, step, n, Of(m, step)[n].(state := RecoveryRequired, recovered := true)) else m
    case RecoverRun => if m.run == Running then SetRun(m, NeedsRecovery) else m
    case Crash => m.(inflight := {})
  }

  function Run(m: Mission, plan: Plan, terminals: seq<string>, acts: seq<Action>, n: nat): Mission
    requires n <= |acts|
  {
    if n == 0 then m else Next(Run(m, plan, terminals, acts, n - 1), plan, terminals, acts[n - 1])
  }

  // ---------------------------------------------------------------- closure under dependencies

  /** Every attempted step is in the plan and all its dependencies are completed. */
  ghost predicate SupportedStep(m: Mission, plan: Plan, step: string) {
    Of(m, step) != [] ==> step in plan && DepsCompleted(m, plan, step)
  }

  ghost predicate EvidenceKept(m: Mission, step: string) {
    IsCompleted(m, step) ==> step in m.evidence
  }

  ghost predicate Inv(m: Mission, plan: Plan, terminals: seq<string>) {
    && (forall s {:trigger SupportedStep(m, plan, s)} :: SupportedStep(m, plan, s))
    && (forall s {:trigger EvidenceKept(m, s)} :: EvidenceKept(m, s))
    && (m.run == RunCompleted ==> MissionDone(m, terminals))
  }

  /** A retry is safe when it follows the latest attempt, or overwrites one that was not completed. */
  predicate SafeRetry(m: Mission, act: Action) {
    act.Retry? && act.n + 1 < |Of(m, act.step)| ==>
      Of(m, act.step)[act.n + 1].state != Completed
      || exists i :: 0 <= i < |Of(m, act.step)| && i != act.n + 1 && Of(m, act.step)[i].state == Completed
  }

  /** Steps stay completed, except when an unsafe retry overwrites the attempt that completed one. */
  lemma CompletionIsKept(m: Mission, plan: Plan, terminals: seq<string>, act: Action, step: string)
    requires IsCompleted(m, step) && SafeRetry(m, act)
    ensures IsCompleted(Next(m, plan, terminals, act), step)
  {
    var next := Next(m, plan, terminals, act);
    var i :| 0 <= i < |Of(m, step)| && Of(m, step)[i].state == Completed
      && (act.Retry? && act.step == step ==> i != act.n + 1);
    assert i < |Of(next, step)| && Of(next, step)[i].state == Completed;
  }

  lemma AttemptedEarlier(m: Mission, plan: Plan, terminals: seq<string>, act: Action, step: string)
    requires Of(m, step) == [] && Of(Next(m, plan, terminals, act), step) != []
    ensures act == CreateAttempt(step) && step in plan && Judge(m, plan, step, false) == ReadyNow
  {
  }

  lemma FinishedNow(m: Mission, plan: Plan, terminals: seq<string>, act: Action, step: string)
    requires !IsCompleted(m, step) && IsCompleted(Next(m, plan, terminals, act), step)
    ensures act.Finish? && act.step == step && step in m.evidence
  {
    var next := Next(m, plan, terminals, act);
    var i :| 0 <= i < |Of(next, step)| && Of(next, step)[i].state == Completed;
    assert i >= |Of(m, step)| || Of(m, step)[i].state != Completed;
  }

  lemma CompletedNow(m: Mission, plan: Plan, terminals: seq<string>, act: Action, step: string)
    requires !IsCompleted(m, step) && IsCompleted(Next(m, plan, terminals, act), step)
    ensures act.Finish? && step in m.evidence && m.evidence <= Next(m, plan, terminals, act).evidence
  {
    FinishedNow(m, plan, terminals, act, step);
  }

  lemma EvidenceGrows(m: Mission, plan: Plan, terminals: seq<string>, act: Action)
    ensures m.evidence <= Next(m, plan, terminals, act).evidence
  {
  }

  // ---------------------------------------------------------------- what one action does to completion

  /** The action overwrites the only attempt that completed a step. */
  predicate Undoes(m: Mission, act: Action) {
    act.Retry? && MayRetry(m, act.step, act.n) && !SafeRetry(m, act)
  }

  /** The action completes its attempt. */
  predicate Finishes(m: Mission, act: Action) {
    act.Finish? && Exists(m, act.step, act.n) && Of(m, act.step)[act.n].state == Active && act.step in m.evidence
  }

  lemma UndoneStep(m: Mission, plan: Plan, terminals: seq<string>, act: Action, s: string)
    requires Undoes(m, act)
    ensures IsCompleted(m, act.step)
    ensures IsCompleted(Next(m, plan, terminals, act), s) <==> IsCompleted(m, s) && s != act.step
  {
    var next := Next(m, plan, terminals, act);
    assert s != act.step ==> Of(next, s) == Of(m, s);
  }

  lemma FinishedStep(m: Mission, plan: Plan, terminals: seq<string>, act: Action)
    requires Finishes(m, act)
    ensures IsCompleted(Next(m, plan, terminals, act), act.step)
  {
    assert Of(Next(m, plan, terminals, act), act.step)[act.n].state == Completed;
  }

  lemma RefusedRetry(m: Mission, plan: Plan, terminals: seq<string>, act: Action)
    requires act.Retry? && !MayRetry(m, act.step, act.n)
    ensures Next(m, plan, terminals, act) == m
  {
  }

  /** Which steps are completed after an action: those before it, but for the one it undoes and the one it finishes. */
  lemma CompletedAfter(m: Mission, plan: Plan, terminals: seq<string>, act: Action, s: string)
    ensures IsCompleted(Next(m, plan, terminals, act), s) <==>
      || (IsCompleted(m, s) && !(Undoes(m, act) && s == act.step))
      || (Finishes(m, act) && s == act.step)
  {
    if Undoes(m, act) {
      UndoneStep(m, plan, terminals, act, s);
    } else if IsCompleted(m, s) {
      if SafeRetry(m, act) {
        CompletionIsKept(m, plan, terminals, act, s);
      } else {
        RefusedRetry(m, plan, terminals, act);
      }
    } else if IsCompleted(Next(m, plan, terminals, act), s) {
      FinishedNow(m, plan, terminals, act, s);
    } else if Finishes(m, act) {
      FinishedStep(m, plan, terminals, act);
    }
  }

  // ---------------------------------------------------------------- the invariant, and exactly which runs keep it

  /** The action undoes a step that an attempted step depends on. */
  predicate Uncovers(m: Mission, plan: Plan, act: Action) {
    Undoes(m, act) && exists s :: s in plan && Of(m, s) != [] && act.step in plan[s].dependsOn
  }

  lemma AttemptedAfter(m: Mission, plan: Plan, terminals: seq<string>, act: Action, s: string)
    requires Of(m, s) != []
    ensures Of(Next(m, plan, terminals, act), s) != []
  {
  }

  lemma StaysSupported(m: Mission, plan: Plan, terminals: seq<string>, act: Action, s: string)
    requires SupportedStep(m, plan, s) && !Uncovers(m, plan, act)
    ensures SupportedStep(Next(m, plan, terminals, act), plan, s)
  {
    var next := Next(m, plan, terminals, act);
    if Of(next, s) != [] {
      if Of(m, s) == [] {
        AttemptedEarlier(m, plan, terminals, act, s);
        ReadyIff(m, plan, s, false);
      }
      forall d | d in plan[s].dependsOn ensures IsCompleted(next, d) {
        CompletedAfter(m, plan, terminals, act, d);
      }
    }
  }

  lemma StaysEvidenced(m: Mission, plan: Plan, terminals: seq<string>, act: Action, s: string)
    requires EvidenceKept(m, s)
    ensures EvidenceKept(Next(m, plan, terminals, act), s)
  {
    EvidenceGrows(m, plan, terminals, act);
    CompletedAfter(m, plan, terminals, act, s);
  }

  /** A mission judged complete stays so, whatever is done. */
  lemma StaysDone(m: Mission, plan: Plan, terminals: seq<string>, act: Action)
    requires m.run == RunCompleted ==> MissionDone(m, terminals)
    ensures var next := Next(m, plan, terminals, act); next.run == RunCompleted ==> MissionDone(next, terminals)
  {
    var next := Next(m, plan, terminals, act);
    EvidenceGrows(m, plan, terminals, act);
    if next.run == RunCompleted {
      JudgedComplete(m, plan, terminals, act);
      forall t | t in terminals ensures IsCompleted(next, t) && t in next.evidence {
        assert IsCompleted(m, t) && t in m.evidence;
        CompletedAfter(m, plan, terminals, act, t);
      }
    }
  }

  lemma JudgedComplete(m: Mission, plan: Plan, terminals: seq<string>, act: Action)
    requires Next(m, plan, terminals, act).run == RunCompleted
    ensures m.run == RunCompleted || MissionDone(m, terminals)
    ensures !Undoes(m, act)
  {
  }

  /** The exact condition of the invariant, for any action: it must not undo what an attempted step depends on. */
  lemma InvStepIff(m: Mission, plan: Plan, terminals: seq<string>, act: Action)
    requires Inv(m, plan, terminals)
    ensures Inv(Next(m, plan, terminals, act), plan, terminals) <==> !Uncovers(m, plan, act)
  {
    var next := Next(m, plan, terminals, act);
    if Uncovers(m, plan, act) {
      var s :| s in plan && Of(m, s) != [] && act.step in plan[s].dependsOn;
      UndoneStep(m, plan, terminals, act, act.step);
      AttemptedAfter(m, plan, terminals, act, s);
      assert !SupportedStep(next, plan, s);
    } else {
      forall s {:trigger SupportedStep(next, plan, s)} ensures SupportedStep(next, plan, s) {
        assert SupportedStep(m, plan, s);
        StaysSupported(m, plan, terminals, act, s);
      }
      forall s {:trigger EvidenceKept(next, s)} ensures EvidenceKept(next, s) {
        assert EvidenceKept(m, s);
        StaysEvidenced(m, plan, terminals, act, s);
      }
      StaysDone(m, plan, terminals, act);
    }
  }

  lemma NewMissionInv(plan: Plan, terminals: seq<string>)
    ensures Inv(NEW_MISSION, plan, terminals) && Closed(NEW_MISSION, plan)
  {
  }

  ghost predicate CoveredAt(plan: Plan, terminals: seq<string>, acts: seq<Action>, i: nat)
    requires i < |acts|
  {
    !Uncovers(Run(NEW_MISSION, plan, terminals, acts, i), plan, acts[i])
  }

  ghost predicate InvAt(plan: Plan, terminals: seq<string>, acts: seq<Action>, i: nat)
    requires i <= |acts|
  {
    Inv(Run(NEW_MISSION, plan, terminals, acts, i), plan, terminals)
  }

  lemma {:induction false} RunKeepsInv(plan: Plan, terminals: seq<string>, acts: seq<Action>, n: nat)
    requires n <= |acts| && forall i :: 0 <= i < n ==> CoveredAt(plan, terminals, acts, i)
    ensures InvAt(plan, terminals, acts, n)
  {
    if n == 0 {
      NewMissionInv(plan, terminals);
    } else {
      RunKeepsInv(plan, terminals, acts, n - 1);
      assert CoveredAt(plan, terminals, acts, n - 1);
      InvStepIff(Run(NEW_MISSION, plan, terminals, acts, n - 1), plan, terminals, acts[n - 1]);
    }
  }

  /** In every run: the invariant holds throughout exactly when no retry undoes what an attempted step depends on. */
  lemma RunInvIff(plan: Plan, terminals: seq<string>, acts: seq<Action>)
    ensures (forall i :: 0 <= i <= |acts| ==> InvAt(plan, terminals, acts, i))
      <==> (forall i :: 0 <= i < |acts| ==> CoveredAt(plan, terminals, acts, i))
  {
    if forall i :: 0 <= i < |acts| ==> CoveredAt(plan, terminals, acts, i) {
      forall i | 0 <= i <= |acts| ensures InvAt(plan, terminals, acts, i) {
        RunKeepsInv(plan, terminals, acts, i);
      }
    }
    if forall i :: 0 <= i <= |acts| ==> InvAt(plan, terminals, acts, i) {
      forall i | 0 <= i < |acts| ensures CoveredAt(plan, terminals, acts, i) {
        assert InvAt(plan, terminals, acts, i) && InvAt(plan, terminals, acts, i + 1);
        InvStepIff(Run(NEW_MISSION, plan, terminals, acts, i), plan, terminals, acts[i]);
      }
    }
  }

  /** The exact effect of a retry: all completed steps stay completed if and only if the retry is safe. */
  lemma RetryKeepsCompletedIff(m: Mission, plan: Plan, terminals: seq<string>, step: string, n: nat)
    requires MayRetry(m, step, n)
    ensures var next := Next(m, plan, terminals, Retry(step, n));
      (forall s :: IsCompleted(m, s) ==> IsCompleted(next, s)) <==> SafeRetry(m, Retry(step, n))
  {
    var next := Next(m, plan, terminals, Retry(step, n));
    forall s ensures IsCompleted(next, s) <==> IsCompleted(m, s) && !(!SafeRetry(m, Retry(step, n)) && s == step) {
      CompletedAfter(m, plan, terminals, Retry(step, n), s);
    }
    if !SafeRetry(m, Retry(step, n)) {
      UndoneStep(m, plan, terminals, Retry(step, n), step);
    }
  }

  // ---------------------------------------------------------------- closure, and exactly which runs keep it

  /** Completed steps have their dependencies completed. */
  ghost predicate Closed(m: Mission, plan: Plan) {
    forall s, d :: s in plan && IsCompleted(m, s) && d in plan[s].dependsOn ==> IsCompleted(m, d)
  }

  /** The action undoes a step that another completed step depends on. */
  predicate Undercuts(m: Mission, plan: Plan, act: Action) {
    && Undoes(m, act)
    && exists s :: s in plan && s != act.step && IsCompleted(m, s) && act.step in plan[s].dependsOn
  }

  /** The action finishes a step while another step that it depends on is not completed. */
  predicate FinishesEarly(m: Mission, plan: Plan, act: Action) {
    && Finishes(m, act) && !IsCompleted(m, act.step) && act.step in plan
    && exists d :: d in plan[act.step].dependsOn && d != act.step && !IsCompleted(m, d)
  }

  lemma BreaksClosure(m: Mission, plan: Plan, terminals: seq<string>, act: Action)
    requires Undercuts(m, plan, act) || FinishesEarly(m, plan, act)
    ensures !Closed(Next(m, plan, terminals, act), plan)
  {
    if Undercuts(m, plan, act) {
      var s :| s in plan && s != act.step && IsCompleted(m, s) && act.step in plan[s].dependsOn;
      UndoneStep(m, plan, terminals, act, s);
      UndoneStep(m, plan, terminals, act, act.step);
    } else {
      var d :| d in plan[act.step].dependsOn && d != act.step && !IsCompleted(m, d);
      CompletedAfter(m, plan, terminals, act, d);
      CompletedAfter(m, plan, terminals, act, act.step);
    }
  }

  /** The exact condition of closure, for any action on any closed state: it neither undoes a step that another completed
      step depends on nor finishes one ahead of its dependencies. */
  lemma ClosedStepIff(m: Mission, plan: Plan, terminals: seq<string>, act: Action)
    requires Closed(m, plan)
    ensures Closed(Next(m, plan, terminals, act), plan) <==> !Undercuts(m, plan, act) && !FinishesEarly(m, plan, act)
  {
    var next := Next(m, plan, terminals, act);
    if Undercuts(m, plan, act) || FinishesEarly(m, plan, act) {
      BreaksClosure(m, plan, terminals, act);
    } else {
      forall s, d | s in plan && IsCompleted(next, s) && d in plan[s].dependsOn ensures IsCompleted(next, d) {
        CompletedAfter(m, plan, terminals, act, s);
        CompletedAfter(m, plan, terminals, act, d);
      }
    }
  }

  ghost predicate HarmlessAt(plan: Plan, terminals: seq<string>, acts: seq<Action>, i: nat)
    requires i < |acts|
  {
    var m := Run(NEW_MISSION, plan, terminals, acts, i);
    !Undercuts(m, plan, acts[i]) && !FinishesEarly(m, plan, acts[i])
  }

  ghost predicate ClosedAt(plan: Plan, terminals: seq<string>, acts: seq<Action>, i: nat)
    requires i <= |acts|
  {
    Closed(Run(NEW_MISSION, plan, terminals, acts, i), plan)
  }

  lemma {:induction false} HarmlessRunIsClosed(plan: Plan, terminals: seq<string>, acts: seq<Action>, n: nat)
    requires n <= |acts| && forall i :: 0 <= i < n ==> HarmlessAt(plan, terminals, acts, i)
    ensures ClosedAt(plan, terminals, acts, n)
  {
    if n == 0 {
      NewMissionInv(plan, terminals);
    } else {
      HarmlessRunIsClosed(plan, terminals, acts, n - 1);
      assert HarmlessAt(plan, terminals, acts, n - 1);
      ClosedStepIff(Run(NEW_MISSION, plan, terminals, acts, n - 1), plan, terminals, acts[n - 1]);
    }
  }

  /** In every run: completed steps are closed under dependencies throughout exactly when no action undoes a step that
      another completed step depends on, and none finishes a step ahead of its dependencies. */
  lemma ClosedRunIff(plan: Plan, terminals: seq<string>, acts: seq<Action>)
    ensures (forall i :: 0 <= i <= |acts| ==> ClosedAt(plan, terminals, acts, i))
      <==> (forall i :: 0 <= i < |acts| ==> HarmlessAt(plan, terminals, acts, i))
  {
    if forall i :: 0 <= i < |acts| ==> HarmlessAt(plan, terminals, acts, i) {
      forall i | 0 <= i <= |acts| ensures ClosedAt(plan, terminals, acts, i) {
        HarmlessRunIsClosed(plan, terminals, acts, i);
      }
    }
    if forall i :: 0 <= i <= |acts| ==> ClosedAt(plan, terminals, acts, i) {
      forall i | 0 <= i < |acts| ensures HarmlessAt(plan, terminals, acts, i) {
        assert ClosedAt(plan, terminals, acts, i) && ClosedAt(plan, terminals, acts, i + 1);
        ClosedStepIff(Run(NEW_MISSION, plan, terminals, acts, i), plan, terminals, acts[i]);
      }
    }
  }

  /** `p` leads from a step to one of its ancestors, one dependency at a time. */
  predicate DependencyPath(plan: Plan, p: seq<string>) {
    forall i :: 0 <= i < |p| - 1 ==> p[i] in plan && p[i + 1] in plan[p[i]].dependsOn
  }

  lemma {:induction false} AncestorsCompleted(m: Mission, plan: Plan, p: seq<string>, n: nat)
    requires Closed(m, plan) && DependencyPath(plan, p) && n < |p| && IsCompleted(m, p[0])
    ensures IsCompleted(m, p[n])
  {
    if n > 0 {
      AncestorsCompleted(m, plan, p, n - 1);
      assert p[n] in plan[p[n - 1]].dependsOn;
    }
  }

  lemma {:induction false} RunKeepsDone(plan: Plan, terminals: seq<string>, acts: seq<Action>, n: nat)
    requires n <= |acts|
    ensures var m := Run(NEW_MISSION, plan, terminals, acts, n); m.run == RunCompleted ==> MissionDone(m, terminals)
  {
    if n > 0 {
      RunKeepsDone(plan, terminals, acts, n - 1);
      StaysDone(Run(NEW_MISSION, plan, terminals, acts, n - 1), plan, terminals, acts[n - 1]);
    }
  }

  /** In every run a mission judged complete has its terminal steps completed with evidence. In runs without the two
      kinds of action, a completed step has every ancestor completed, and so has every terminal step of such a mission. */
  lemma CompletedIsClosed(plan: Plan, terminals: seq<string>, acts: seq<Action>, p: seq<string>)
    requires DependencyPath(plan, p) && p != []
    ensures var m := Run(NEW_MISSION, plan, terminals, acts, |acts|);
      && (m.run == RunCompleted ==> MissionDone(m, terminals))
      && ((forall i :: 0 <= i < |acts| ==> HarmlessAt(plan, terminals, acts, i)) ==>
            && (IsCompleted(m, p[0]) ==> forall i :: 0 <= i < |p| ==> IsCompleted(m, p[i]))
            && (m.run == RunCompleted && p[0] in terminals ==> forall i :: 0 <= i < |p| ==> IsCompleted(m, p[i])))
  {
    RunKeepsDone(plan, terminals, acts, |acts|);
    var m := Run(NEW_MISSION, plan, terminals, acts, |acts|);
    if (forall i :: 0 <= i < |acts| ==> HarmlessAt(plan, terminals, acts, i)) && IsCompleted(m, p[0]) {
      HarmlessRunIsClosed(plan, terminals, acts, |acts|);
      forall i | 0 <= i < |p| ensures IsCompleted(m, p[i]) {
        AncestorsCompleted(m, plan, p, i);
      }
    }
  }

  // ---------------------------------------------------------------- barriers

  /** Attempts begun and external work started, which pause and cancellation must not add to. */
  ghost predicate AddsStart(m: Mission, next: Mission) {
    (exists s :: |Of(next, s)| > |Of(m, s)|) || !(next.inflight <= m.inflight)
  }

  /** Outside a running, created or recovering run nothing is started, and only resuming a pause leads out. */
  lemma BarriersHold(m: Mission, plan: Plan, terminals: seq<string>, act: Action)
    requires m.run in {Paused, RunCancelled}
    ensures var next := Next(m, plan, terminals, act);
      && !AddsStart(m, next)
      && (m.run == RunCancelled ==> next.run == RunCancelled)
      && (m.run == Paused ==> next.run in {Paused, RunCancelled} || act == Resume)
  {
    if act.CreateAttempt? && act.step in plan {
      ReadyIff(m, plan, act.step, false);
    }
  }

  lemma {:induction false} CancelledForever(m: Mission, plan: Plan, terminals: seq<string>, acts: seq<Action>, n: nat)
    requires m.run == RunCancelled && n <= |acts|
    ensures var later := Run(m, plan, terminals, acts, n);
      later.run == RunCancelled && later.inflight <= m.inflight && forall s :: |Of(later, s)| <= |Of(m, s)|
  {
    if n > 0 {
      CancelledForever(m, plan, terminals, acts, n - 1);
      BarriersHold(Run(m, plan, terminals, acts, n - 1), plan, terminals, acts[n - 1]);
    }
  }

  /** Every attempt state the actions write is one that the transition table, an external start, a failed
      approval, a recovery or a retry allows. */
  lemma AttemptsFollowTable(m: Mission, plan: Plan, terminals: seq<string>, act: Action, step: string, n: nat)
    requires Exists(m, step, n)
    ensures var next := Next(m, plan, terminals, act);
      Exists(next, step, n)
      && var a := Of(m, step)[n]; var b := Of(next, step)[n];
         a == b || AttemptMay(a.state, b.state) || (act == ObserveResult(step, n) && b.state == Active)
         || (act == FailApproval(step, n) && b.state == RecoveryRequired) || (act.Retry? && act.step == step && act.n + 1 == n)
  {
    if act.CreateAttempt? && act.step in plan {
      ReadyIff(m, plan, act.step, false);
    }
  }

  // ---------------------------------------------------------------- an unsafe retry that the source accepts

  const STALE_PLAN: Plan :=
    map["a" := PlanStep([], [], [], false), "b" := PlanStep(["a"], [], [], false), "c" := PlanStep([], [], [], false)]

  /** Step a fails once and is retried; the retry completes it; external step b waits with its approval in flight. */
  const FAIL_ONCE: seq<Action> := [StartRun, CreateAttempt("a"), BeginApproval("a", 0), FailApproval("a", 0)]
  const RETRY_IT: seq<Action> := [Retry("a", 0), BeginApproval("a", 1), ObserveResult("a", 1)]
  const COMPLETE_IT: seq<Action> := [RecordEvidence("a", 1), Finish("a", 1)]
  const START_B: seq<Action> := [CreateAttempt("b"), Schedule("b", 0, WithGate), BeginApproval("b", 0)]
  const COMPLETE_B: seq<Action> := [ObserveResult("b", 0), RecordEvidence("b", 0), Finish("b", 0)]

  const OPENING := FAIL_ONCE + RETRY_IT + COMPLETE_IT + START_B

  /** The stale retry comes after b is completed, or while its approval is still in flight. */
  const STALE_RUN := OPENING + COMPLETE_B + [Retry("a", 0)]
  const EARLY_RUN := OPENING + [Retry("a", 0)] + COMPLETE_B

  const LOST := Attempt(RecoveryRequired, true, true)
  const AT_WORK := Attempt(Active, true, false)
  const DONE := Attempt(Completed, true, false)
  const FAILED_ONCE := NEW_MISSION.(run := Running, attempts := map["a" := [LOST]])
  const RETRIED := FAILED_ONCE.(attempts := map["a" := [LOST, AT_WORK]])

  function ADone(b: seq<Attempt>, inflight: set<(string, nat)>): Mission {
    Mission(Running, if b == [] then map["a" := [LOST, DONE]] else map["a" := [LOST, DONE], "b" := b], {"a"}, {}, inflight)
  }

  lemma {:induction false} RunConcat(m: Mission, plan: Plan, terminals: seq<string>, acts: seq<Action>, more: seq<Action>, n: nat)
    requires n <= |more|
    ensures Run(m, plan, terminals, acts + more, |acts| + n) == Run(Run(m, plan, terminals, acts, |acts|), plan, terminals, more, n)
    decreases n
  {
    if n > 0 {
      RunConcat(m, plan, terminals, acts, more, n - 1);
      assert (acts + more)[|acts| + n - 1] == more[n - 1];
    } else {
      RunPrefix(m, plan, terminals, acts, acts + more, |acts|);
    }
  }

  lemma {:induction false} RunPrefix(m: Mission, plan: Plan, terminals: seq<string>, acts: seq<Action>, more: seq<Action>, n: nat)
    requires acts <= more && n <= |acts|
    ensures Run(m, plan, terminals, more, n) == Run(m, plan, terminals, acts, n)
  {
    if n > 0 {
      RunPrefix(m, plan, terminals, acts, more, n - 1);
    }
  }

  const A_CREATED := NEW_MISSION.(run := Running, attempts := map["a" := [FRESH]])

  lemma CreateA()
    ensures Run(NEW_MISSION, STALE_PLAN, ["c"], FAIL_ONCE, 2) == A_CREATED
  {
    var m1 := NEW_MISSION.(run := Running);
    assert Run(NEW_MISSION, STALE_PLAN, ["c"], FAIL_ONCE, 1) == m1;
    ReadyIff(m1, STALE_PLAN, "a", false);
    assert [] + [FRESH] == [FRESH];
  }

  lemma LoseA()
    ensures Next(A_CREATED.(inflight := {("a", 0)}), STALE_PLAN, ["c"], FailApproval("a", 0)) == FAILED_ONCE
  {
    assert {("a", 0)} - {("a", 0)} == {} && [FRESH][0 := LOST] == [LOST];
  }

  lemma FailOnce()
    ensures Run(NEW_MISSION, STALE_PLAN, ["c"], FAIL_ONCE, 4) == FAILED_ONCE
  {
    CreateA();
    assert Run(NEW_MISSION, STALE_PLAN, ["c"], FAIL_ONCE, 3) == A_CREATED.(inflight := {("a", 0)});
    LoseA();
  }

  lemma RetryIt()
    ensures Run(FAILED_ONCE, STALE_PLAN, ["c"], RETRY_IT, 3) == RETRIED
  {
    var m1 := FAILED_ONCE.(attempts := map["a" := [LOST, FRESH]]);
    assert [LOST] + [FRESH] == [LOST, FRESH];
    assert Run(FAILED_ONCE, STALE_PLAN, ["c"], RETRY_IT, 1) == m1;
    var m2 := m1.(inflight := {("a", 1)});
    assert Run(FAILED_ONCE, STALE_PLAN, ["c"], RETRY_IT, 2) == m2;
    assert m2.inflight - {("a", 1)} == {};
    assert [LOST, FRESH][1 := AT_WORK] == [LOST, AT_WORK];
  }

  lemma CompleteIt()
    ensures Run(RETRIED, STALE_PLAN, ["c"], COMPLETE_IT, 2) == ADone([], {})
  {
    var m1 := RETRIED.(evidence := {"a"});
    assert Run(RETRIED, STALE_PLAN, ["c"], COMPLETE_IT, 1) == m1;
    assert Of(m1, "a")[1 := DONE] == [LOST, DONE];
  }

  lemma CreateB()
    ensures Next(ADone([], {}), STALE_PLAN, ["c"], CreateAttempt("b")) == ADone([FRESH], {})
  {
    var m := ADone([], {});
    assert Of(m, "a")[1].state == Completed;
    ReadyIff(m, STALE_PLAN, "b", false);
    assert [] + [FRESH] == [FRESH];
  }

  lemma RunOfThree(m: Mission, plan: Plan, terminals: seq<string>, a: Action, b: Action, c: Action)
    ensures Run(m, plan, terminals, [a, b, c], 3) == Next(Next(Next(m, plan, terminals, a), plan, terminals, b), plan, terminals, c)
  {
    assert Run(m, plan, terminals, [a, b, c], 1) == Next(m, plan, terminals, a);
    assert Run(m, plan, terminals, [a, b, c], 2) == Next(Run(m, plan, terminals, [a, b, c], 1), plan, terminals, b);
  }

  lemma GateB()
    ensures Next(ADone([FRESH], {}), STALE_PLAN, ["c"], Schedule("b", 0, WithGate)) == ADone([FRESH.(state := WaitingHuman)], {})
  {
    assert [FRESH][0 := FRESH.(state := WaitingHuman)] == [FRESH.(state := WaitingHuman)];
  }

  lemma ApproveB()
    ensures Next(ADone([FRESH.(state := WaitingHuman)], {}), STALE_PLAN, ["c"], BeginApproval("b", 0))
            == ADone([FRESH.(state := WaitingHuman)], {("b", 0)})
  {
  }

  lemma StartB()
    ensures Run(ADone([], {}), STALE_PLAN, ["c"], START_B, 3) == ADone([FRESH.(state := WaitingHuman)], {("b", 0)})
  {
    CreateB();
    GateB();
    ApproveB();
    RunOfThree(ADone([], {}), STALE_PLAN, ["c"], CreateAttempt("b"), Schedule("b", 0, WithGate), BeginApproval("b", 0));
  }

  /** Step b waits with its approval in flight, whatever has become of a. */
  predicate AwaitsB(m: Mission) {
    Of(m, "b") == [FRESH.(state := WaitingHuman)] && m.inflight == {("b", 0)}
  }

  lemma ObserveB(m: Mission)
    requires AwaitsB(m)
    ensures Next(m, STALE_PLAN, ["c"], ObserveResult("b", 0))
      == m.(attempts := m.attempts["b" := [AT_WORK]], inflight := {})
  {
    assert {("b", 0)} - {("b", 0)} == {};
    assert [FRESH.(state := WaitingHuman)][0 := AT_WORK] == [AT_WORK];
  }

  lemma FinishB(m: Mission)
    requires Of(m, "b") == [AT_WORK] && "b" in m.evidence
    ensures Next(m, STALE_PLAN, ["c"], Finish("b", 0)) == m.(attempts := m.attempts["b" := [DONE]])
  {
    assert [AT_WORK][0 := DONE] == [DONE];
  }

  lemma CompleteB(m: Mission)
    requires AwaitsB(m)
    ensures Run(m, STALE_PLAN, ["c"], COMPLETE_B, 3)
      == m.(attempts := m.attempts["b" := [DONE]], evidence := m.evidence + {"b"}, inflight := {})
  {
    ObserveB(m);
    var m2 := m.(attempts := m.attempts["b" := [AT_WORK]], evidence := m.evidence + {"b"}, inflight := {});
    FinishB(m2);
    assert m2.attempts["b" := [DONE]] == m.attempts["b" := [DONE]];
    RunOfThree(m, STALE_PLAN, ["c"], ObserveResult("b", 0), RecordEvidence("b", 0), Finish("b", 0));
  }

  lemma OpeningAwaitsB()
    ensures Run(NEW_MISSION, STALE_PLAN, ["c"], OPENING, 12) == ADone([FRESH.(state := WaitingHuman)], {("b", 0)})
  {
    FailOnce();
    RetryIt();
    CompleteIt();
    StartB();
    RunConcat(NEW_MISSION, STALE_PLAN, ["c"], FAIL_ONCE, RETRY_IT, 3);
    RunConcat(NEW_MISSION, STALE_PLAN, ["c"], FAIL_ONCE + RETRY_IT, COMPLETE_IT, 2);
    RunConcat(NEW_MISSION, STALE_PLAN, ["c"], FAIL_ONCE + RETRY_IT + COMPLETE_IT, START_B, 3);
  }

  lemma StaleRetry(m: Mission)
    requires m.run == Running && Of(m, "a") == [LOST, DONE]
    ensures Undoes(m, Retry("a", 0))
    ensures Next(m, STALE_PLAN, ["c"], Retry("a", 0)) == m.(attempts := m.attempts["a" := [LOST, FRESH]])
  {
    assert [LOST, DONE][1 := FRESH] == [LOST, FRESH];
  }

  lemma {:induction false} UnfinishedUntil(plan: Plan, terminals: seq<string>, acts: seq<Action>, step: string, n: nat)
    requires n <= |acts| && forall i :: 0 <= i < n ==> !(acts[i].Finish? && acts[i].step == step)
    ensures !IsCompleted(Run(NEW_MISSION, plan, terminals, acts, n), step)
  {
    if n > 0 {
      UnfinishedUntil(plan, terminals, acts, step, n - 1);
      CompletedAfter(Run(NEW_MISSION, plan, terminals, acts, n - 1), plan, terminals, acts[n - 1], step);
    }
  }

  /** Sixteen actions from the start: the source accepts a second reviewed retry of the first attempt, which overwrites
      the completed second one, and step b is left completed whose dependency is not. */
  lemma StaleRetryBreaksClosure()
    ensures |STALE_RUN| == 16
    ensures var before := Run(NEW_MISSION, STALE_PLAN, ["c"], STALE_RUN, 15); Undercuts(before, STALE_PLAN, STALE_RUN[15])
    ensures var after := Run(NEW_MISSION, STALE_PLAN, ["c"], STALE_RUN, 16);
      IsCompleted(after, "b") && "a" in STALE_PLAN["b"].dependsOn && !IsCompleted(after, "a")
  {
    OpeningAwaitsB();
    var m := ADone([FRESH.(state := WaitingHuman)], {("b", 0)});
    CompleteB(m);
    RunConcat(NEW_MISSION, STALE_PLAN, ["c"], OPENING, COMPLETE_B, 3);
    RunPrefix(NEW_MISSION, STALE_PLAN, ["c"], OPENING + COMPLETE_B, STALE_RUN, 15);
    var before := Run(NEW_MISSION, STALE_PLAN, ["c"], STALE_RUN, 15);
    StaleRetry(before);
    assert STALE_RUN[15] == Retry("a", 0);
    assert Of(before, "b")[0].state == Completed;
    UndoneStep(before, STALE_PLAN, ["c"], Retry("a", 0), "a");
    UndoneStep(before, STALE_PLAN, ["c"], Retry("a", 0), "b");
  }

  lemma OnlyBDepends(m: Mission, act: Action)
    requires !IsCompleted(m, "b")
    ensures Closed(m, STALE_PLAN) && !Undercuts(m, STALE_PLAN, act)
  {
  }

  /** The same actions with the retry before b is finished: nothing undercuts a completed step, every state but the last
      is closed, and b is finished ahead of its dependency. */
  lemma EarlyFinishBreaksClosure()
    ensures |EARLY_RUN| == 16
    ensures forall i :: 0 <= i < 16 ==> ClosedAt(STALE_PLAN, ["c"], EARLY_RUN, i)
    ensures forall i :: 0 <= i < 16 ==> !Undercuts(Run(NEW_MISSION, STALE_PLAN, ["c"], EARLY_RUN, i), STALE_PLAN, EARLY_RUN[i])
    ensures FinishesEarly(Run(NEW_MISSION, STALE_PLAN, ["c"], EARLY_RUN, 15), STALE_PLAN, EARLY_RUN[15])
    ensures var after := Run(NEW_MISSION, STALE_PLAN, ["c"], EARLY_RUN, 16);
      IsCompleted(after, "b") && "a" in STALE_PLAN["b"].dependsOn && !IsCompleted(after, "a")
  {
    EarlyRunUncompletes();
    assert forall i :: 0 <= i < 15 ==> !(EARLY_RUN[i].Finish? && EARLY_RUN[i].step == "b");
    forall i | 0 <= i < 16
      ensures ClosedAt(STALE_PLAN, ["c"], EARLY_RUN, i)
      ensures !Undercuts(Run(NEW_MISSION, STALE_PLAN, ["c"], EARLY_RUN, i), STALE_PLAN, EARLY_RUN[i])
    {
      UnfinishedUntil(STALE_PLAN, ["c"], EARLY_RUN, "b", i);
      OnlyBDepends(Run(NEW_MISSION, STALE_PLAN, ["c"], EARLY_RUN, i), EARLY_RUN[i]);
    }
    assert ClosedAt(STALE_PLAN, ["c"], EARLY_RUN, 15);
    ClosedStepIff(Run(NEW_MISSION, STALE_PLAN, ["c"], EARLY_RUN, 15), STALE_PLAN, ["c"], EARLY_RUN[15]);
  }

  lemma EarlyRunUncompletes()
    ensures |EARLY_RUN| == 16
    ensures var after := Run(NEW_MISSION, STALE_PLAN, ["c"], EARLY_RUN, 16); IsCompleted(after, "b") && !IsCompleted(after, "a")
  {
    OpeningAwaitsB();
    var m := ADone([FRESH.(state := WaitingHuman)], {("b", 0)});
    StaleRetry(m);
    RunConcat(NEW_MISSION, STALE_PLAN, ["c"], OPENING, [Retry("a", 0)], 1);
    var retried := Run(NEW_MISSION, STALE_PLAN, ["c"], OPENING + [Retry("a", 0)], 13);
    assert Run(m, STALE_PLAN, ["c"], [Retry("a", 0)], 1) == Next(m, STALE_PLAN, ["c"], Retry("a", 0));
    CompleteB(retried);
    RunConcat(NEW_MISSION, STALE_PLAN, ["c"], OPENING + [Retry("a", 0)], COMPLETE_B, 3);
    var after := Run(NEW_MISSION, STALE_PLAN, ["c"], EARLY_RUN, 16);
    assert Of(after, "b")[0].state == Completed && Of(after, "a") == [LOST, FRESH];
  }
}
