/** What an operator's commands and the recovery after a restart do to a mission, state by state. */
module MissionControl {
  import opened Common
  import opened Mission

  // ---------------------------------------------------------------- the run

  /** Pausing stops a running mission and no other. */
  lemma PauseEffect(m: Mission, plan: Plan, terminals: seq<string>)
    ensures Next(m, plan, terminals, Pause) == if m.run == Running then m.(run := Paused) else m
  {
  }

  /** Resuming sets a paused mission going again, and one that was not started or that waits for recovery. */
  lemma ResumeEffect(m: Mission, plan: Plan, terminals: seq<string>)
    ensures Next(m, plan, terminals, Resume) == if m.run in {Created, Paused, NeedsRecovery} then m.(run := Running) else m
  {
  }

  /** Every mission that has not ended can be cancelled, and ends so. */
  lemma CancelEffect(m: Mission, plan: Plan, terminals: seq<string>)
    ensures Next(m, plan, terminals, CancelRun)
      == if m.run in {Created, Running, Paused, NeedsRecovery} then m.(run := RunCancelled) else m
  {
  }

  lemma StartEffect(m: Mission, plan: Plan, terminals: seq<string>)
    ensures Next(m, plan, terminals, StartRun) == if m.run == Created then m.(run := Running) else m
    ensures Next(m, plan, terminals, RecoverRun) == if m.run == Running then m.(run := NeedsRecovery) else m
  {
  }

  /** A mission ends as completed exactly when it is running and every terminal step is completed with evidence. */
  lemma CompleteEffect(m: Mission, plan: Plan, terminals: seq<string>)
    ensures Next(m, plan, terminals, CompleteRun) ==
      if m.run == Running && forall t :: t in terminals ==> IsCompleted(m, t) && t in m.evidence then m.(run := RunCompleted) else m
  {
  }

  /** A pause takes nothing away: nothing is ready during it, and after it every step of a running mission is judged as before. */
  lemma PauseIsUndone(m: Mission, plan: Plan, terminals: seq<string>, step: string, conflict: bool)
    requires m.run == Running && step in plan
    ensures var paused := Next(m, plan, terminals, Pause);
      && Judge(paused, plan, step, conflict) != ReadyNow
      && Next(paused, plan, terminals, Resume) == m
      && (Judge(Next(paused, plan, terminals, Resume), plan, step, conflict) == ReadyNow <==>
            && Of(m, step) == [] && !conflict && DepsCompleted(m, plan, step) && InputsRecorded(m, plan, step))
  {
    ReadyIff(Next(m, plan, terminals, Pause), plan, step, conflict);
    ReadyIff(m, plan, step, conflict);
  }

  // ---------------------------------------------------------------- single attempts

  /** The one attempt has become `b`, and nothing else has changed. */
  ghost predicate Becomes(m: Mission, next: Mission, step: string, n: nat, b: Attempt) {
    && n < |Of(m, step)| && Of(next, step) == Of(m, step)[n := b] && (forall s :: s != step ==> Of(next, s) == Of(m, s))
    && next.run == m.run && next.evidence == m.evidence && next.handoffs == m.handoffs && next.inflight == m.inflight
  }

  /** An attempt is begun exactly for a step that was never attempted and has all it needs in a running mission; it is the
      first of its step, ready and not started. */
  lemma CreateAttemptEffect(m: Mission, plan: Plan, terminals: seq<string>, step: string)
    ensures Next(m, plan, terminals, CreateAttempt(step)) ==
      if && step in plan && m.run == Running && Of(m, step) == []
         && (forall d :: d in plan[step].dependsOn ==> IsCompleted(m, d)) && InputsRecorded(m, plan, step)
      then m.(attempts := m.attempts[step := [Attempt(Ready, false, false)]]) else m
  {
    if step in plan {
      ReadyIff(m, plan, step, false);
      assert [] + [FRESH] == [FRESH];
    }
  }

  /** A crash loses the approvals that are under way, and nothing that was saved. */
  lemma CrashEffect(m: Mission, plan: Plan, terminals: seq<string>)
    ensures Next(m, plan, terminals, Crash) == m.(inflight := {})
  {
  }

  /** Cancelling an attempt contains active work for review and withdraws what has not begun; what has ended stays. */
  lemma CancelAttemptEffect(m: Mission, plan: Plan, terminals: seq<string>, step: string, n: nat)
    requires n < |Of(m, step)|
    ensures var a := Of(m, step)[n]; var next := Next(m, plan, terminals, CancelAttempt(step, n));
      && (m.run != RunCancelled && a.state == Active ==> Becomes(m, next, step, n, Attempt(RecoveryRequired, a.started, true)))
      && (m.run != RunCancelled && a.state in {Ready, WaitingHuman, Blocked, RecoveryRequired} ==>
            Becomes(m, next, step, n, Attempt(Cancelled, a.started, a.recovered)))
      && (m.run == RunCancelled || a.state in {Completed, Failed, Cancelled} ==> next == m)
  {
  }

  /** After a restart exactly the active attempts are contained for review. */
  lemma RecoverAttemptEffect(m: Mission, plan: Plan, terminals: seq<string>, step: string, n: nat)
    requires n < |Of(m, step)|
    ensures var a := Of(m, step)[n]; var next := Next(m, plan, terminals, RecoverAttempt(step, n));
      && (a.state == Active && m.inflight == {} ==> Becomes(m, next, step, n, Attempt(RecoveryRequired, a.started, true)))
      && (a.state != Active || m.inflight != {} ==> next == m)
  {
  }

  /** A rejected gate withdraws the attempt that waited for it. */
  lemma RejectGateEffect(m: Mission, plan: Plan, terminals: seq<string>, step: string, n: nat)
    requires n < |Of(m, step)|
    ensures var a := Of(m, step)[n]; var next := Next(m, plan, terminals, RejectGate(step, n));
      && (a.state == WaitingHuman ==> Becomes(m, next, step, n, Attempt(Cancelled, a.started, a.recovered)))
      && (a.state != WaitingHuman ==> next == m)
  {
  }

  /** An external step waits for its gate or is blocked; a local one starts at once, as far as the table of states allows. */
  lemma ScheduleEffect(m: Mission, plan: Plan, terminals: seq<string>, step: string, n: nat)
    requires n < |Of(m, step)| && step in plan
    ensures var a := Of(m, step)[n];
      var gated := Next(m, plan, terminals, Schedule(step, n, WithGate));
      var blocked := Next(m, plan, terminals, Schedule(step, n, AsBlocked));
      var started := Next(m, plan, terminals, StartLocal(step, n));
      && (a.state == Ready && !plan[step].local ==>
            && Becomes(m, gated, step, n, Attempt(WaitingHuman, a.started, a.recovered))
            && Becomes(m, blocked, step, n, Attempt(Blocked, a.started, a.recovered)))
      && (a.state != Ready || plan[step].local ==> gated == m && blocked == m)
      && (a.state in {Ready, WaitingHuman} && plan[step].local ==> Becomes(m, started, step, n, Attempt(Active, a.started, a.recovered)))
      && (a.state !in {Ready, WaitingHuman} || !plan[step].local ==> started == m)
  {
  }

  /** An approval goes out exactly outside pause and cancellation, for an attempt that is not contained. */
  lemma ApprovalEffect(m: Mission, plan: Plan, terminals: seq<string>, step: string, n: nat)
    ensures Next(m, plan, terminals, BeginApproval(step, n)) ==
      if && n < |Of(m, step)| && m.run !in {Paused, RunCancelled}
         && !Of(m, step)[n].recovered && Of(m, step)[n].state != RecoveryRequired
      then m.(inflight := m.inflight + {(step, n)}) else m
  {
  }

  /** The result of an approval starts the attempt once: whatever has begun already, or is contained, is left to the error path. */
  lemma ResultEffect(m: Mission, plan: Plan, terminals: seq<string>, step: string, n: nat)
    requires n < |Of(m, step)| && (step, n) in m.inflight
    ensures var a := Of(m, step)[n]; var done := m.(inflight := m.inflight - {(step, n)});
      var observed := Next(m, plan, terminals, ObserveResult(step, n));
      var failed := Next(m, plan, terminals, FailApproval(step, n));
      && (a.state == Completed ==> observed == done)
      && (a.state in {Ready, WaitingHuman} && !a.started ==> Becomes(done, observed, step, n, Attempt(Active, true, a.recovered)))
      && (a.state !in {Completed, Ready, WaitingHuman} || (a.state != Completed && a.started) ==> observed == m)
      && (a.state in {Completed, RecoveryRequired} ==> failed == done)
      && (a.state !in {Completed, RecoveryRequired} ==> Becomes(done, failed, step, n, Attempt(RecoveryRequired, true, true)))
  {
  }

  /** A reviewed retry follows an attempt that ended without success or is contained, puts a fresh attempt after it, and sets
      the mission going. */
  lemma RetryEffect(m: Mission, plan: Plan, terminals: seq<string>, step: string, n: nat)
    requires n < |Of(m, step)|
    ensures var a := Of(m, step)[n]; var next := Next(m, plan, terminals, Retry(step, n)); var all := Of(m, step);
      if && m.run in {Running, NeedsRecovery}
         && (a.state in {RecoveryRequired, Failed, Cancelled} || (a.state == WaitingHuman && a.recovered))
      then
        && next.run == Running && next.evidence == m.evidence && next.handoffs == m.handoffs && next.inflight == m.inflight
        && Of(next, step) == all[..n + 1] + [Attempt(Ready, false, false)] + (if n + 2 <= |all| then all[n + 2..] else [])
        && forall s :: s != step ==> Of(next, s) == Of(m, s)
      else next == m
  {
  }

  /** Evidence is recorded while the attempt is active; with evidence it is finished; once its step is completed, every input
      that names one of its outputs is handed over to the steps that depend on it. */
  lemma FinishEffect(m: Mission, plan: Plan, terminals: seq<string>, step: string, n: nat)
    requires n < |Of(m, step)|
    ensures var a := Of(m, step)[n];
      && Next(m, plan, terminals, RecordEvidence(step, n)) == (if a.state == Active then m.(evidence := m.evidence + {step}) else m)
      && (a.state == Active && step in m.evidence ==>
            Becomes(m, Next(m, plan, terminals, Finish(step, n)), step, n, Attempt(Completed, a.started, a.recovered)))
      && (a.state != Active || step !in m.evidence ==> Next(m, plan, terminals, Finish(step, n)) == m)
  {
  }

  /** The input of the target names an output of the source, on which the target depends. */
  predicate Links(plan: Plan, source: string, target: string, name: string) {
    && source in plan && target in plan && source in plan[target].dependsOn
    && exists i :: 0 <= i < |plan[target].inputs| && plan[target].inputs[i].name == name
         && plan[target].inputs[i].source.Some? && plan[target].inputs[i].source.value.0 == source
         && plan[target].inputs[i].source.value.1 in plan[source].outputs
  }

  lemma HandoffEffect(m: Mission, plan: Plan, terminals: seq<string>, step: string)
    ensures var next := Next(m, plan, terminals, RecordHandoffs(step));
      && next == m.(handoffs := next.handoffs)
      && forall target, name :: (target, name) in next.handoffs <==>
           (target, name) in m.handoffs || (IsCompleted(m, step) && Links(plan, step, target, name))
  {
    if step in plan {
      forall target, name ensures (target, name) in HandoffsFrom(plan, step) <==> Links(plan, step, target, name) {
      }
    }
  }

  // ---------------------------------------------------------------- cancelling a whole mission

  /** The attempts are cancelled one after the other. */
  function CancelFirst(m: Mission, plan: Plan, terminals: seq<string>, todo: seq<(string, nat)>, n: nat): Mission
    requires n <= |todo|
  {
    if n == 0 then m
    else Next(CancelFirst(m, plan, terminals, todo, n - 1), plan, terminals, CancelAttempt(todo[n - 1].0, todo[n - 1].1))
  }

  function CancelMission(m: Mission, plan: Plan, terminals: seq<string>, todo: seq<(string, nat)>): Mission {
    Next(CancelFirst(m, plan, terminals, todo, |todo|), plan, terminals, CancelRun)
  }

  /** What an attempt has come to once cancelling has passed it. */
  predicate Withdrawn(a: Attempt, b: Attempt) {
    match a.state
    case Completed => b == a
    case Failed => b == a
    case Cancelled => b == a
    case Active => b.state in {RecoveryRequired, Cancelled} && b.recovered && b.started == a.started
    case _ => b.state == Cancelled && b.started == a.started
  }

  /** Each attempt is as it was, or withdrawn; those listed so far are withdrawn. */
  ghost predicate CancelledUpTo(m: Mission, now: Mission, todo: seq<(string, nat)>, n: nat, step: string, k: nat)
    requires n <= |todo|
  {
    k < |Of(m, step)| ==>
      && k < |Of(now, step)|
      && (Of(now, step)[k] == Of(m, step)[k] || Withdrawn(Of(m, step)[k], Of(now, step)[k]))
      && ((step, k) in todo[..n] ==> Withdrawn(Of(m, step)[k], Of(now, step)[k]))
  }

  lemma CancelOne(m: Mission, plan: Plan, terminals: seq<string>, s: string, i: nat, step: string, k: nat)
    requires m.run != RunCancelled
    ensures var next := Next(m, plan, terminals, CancelAttempt(s, i));
      && next == m.(attempts := next.attempts) && |Of(next, step)| == |Of(m, step)|
      && (k < |Of(m, step)| ==>
            if (s, i) == (step, k) then Withdrawn(Of(m, step)[k], Of(next, step)[k]) else Of(next, step)[k] == Of(m, step)[k])
  {
    if i < |Of(m, s)| {
      CancelAttemptEffect(m, plan, terminals, s, i);
    }
  }

  lemma {:induction false} CancelFirstWithdraws(
    m: Mission, plan: Plan, terminals: seq<string>, todo: seq<(string, nat)>, n: nat, step: string, k: nat)
    requires n <= |todo| && m.run != RunCancelled
    ensures var now := CancelFirst(m, plan, terminals, todo, n);
      && CancelledUpTo(m, now, todo, n, step, k)
      && now == m.(attempts := now.attempts) && |Of(now, step)| == |Of(m, step)|
  {
    if n > 0 {
      CancelFirstWithdraws(m, plan, terminals, todo, n - 1, step, k);
      var before := CancelFirst(m, plan, terminals, todo, n - 1);
      CancelOne(before, plan, terminals, todo[n - 1].0, todo[n - 1].1, step, k);
      assert todo[..n] == todo[..n - 1] + [todo[n - 1]];
    }
  }

  /**
   Cancelling a mission that has not ended: it ends as cancelled; every attempt that is listed is withdrawn, active work
   is contained for review and nothing else is lost; and whatever is done afterwards starts nothing.
   */
  lemma CancelledMissionStops(
    m: Mission, plan: Plan, terminals: seq<string>, todo: seq<(string, nat)>, later: seq<Action>, step: string, k: nat)
    requires m.run in {Created, Running, Paused, NeedsRecovery} && k < |Of(m, step)| && (step, k) in todo
    ensures var stopped := CancelMission(m, plan, terminals, todo); var end := Run(stopped, plan, terminals, later, |later|);
      && stopped.run == RunCancelled && end.run == RunCancelled
      && k < |Of(stopped, step)| && Withdrawn(Of(m, step)[k], Of(stopped, step)[k])
      && stopped.evidence == m.evidence && stopped.handoffs == m.handoffs
      && |Of(end, step)| <= |Of(m, step)| && end.inflight <= m.inflight
  {
    CancelFirstWithdraws(m, plan, terminals, todo, |todo|, step, k);
    assert todo[..|todo|] == todo;
    CancelEffect(CancelFirst(m, plan, terminals, todo, |todo|), plan, terminals);
    CancelledForever(CancelMission(m, plan, terminals, todo), plan, terminals, later, |later|);
  }

  // ---------------------------------------------------------------- tables and verdicts

  /** From where each state of an attempt can be reached: only active work ends with a result, only what has not begun can
      begin, and nothing leaves completion, failure or cancellation. */
  lemma AttemptTable(a: AttemptState)
    ensures AttemptMay(a, Ready) <==> a == Blocked
    ensures AttemptMay(a, WaitingHuman) <==> a in {Ready, Active}
    ensures AttemptMay(a, Active) <==> a in {Ready, WaitingHuman}
    ensures AttemptMay(a, Blocked) <==> a == Ready
    ensures AttemptMay(a, Completed) <==> a == Active
    ensures AttemptMay(a, Failed) <==> a == Active
    ensures AttemptMay(a, Cancelled) <==> a in {Ready, WaitingHuman, Blocked, RecoveryRequired}
    ensures AttemptMay(a, RecoveryRequired) <==> a in {WaitingHuman, Active}
  {
  }

  /** The same for missions: a completed, failed or cancelled one goes nowhere. */
  lemma RunTable(r: RunState)
    ensures !RunMay(r, Created)
    ensures RunMay(r, Running) <==> r in {Created, Paused, NeedsRecovery}
    ensures RunMay(r, Paused) <==> r == Running
    ensures RunMay(r, NeedsRecovery) <==> r == Running
    ensures RunMay(r, RunCompleted) <==> r == Running
    ensures RunMay(r, RunFailed) <==> r in {Running, NeedsRecovery}
    ensures RunMay(r, RunCancelled) <==> r in {Created, Running, Paused, NeedsRecovery}
  {
  }

  lemma {:induction false} DependencyBlockersAre(m: Mission, deps: seq<string>, n: nat, b: Blocker)
    requires n <= |deps|
    ensures b in DependencyBlockers(m, deps, n) <==> b.DependencyUnsatisfied? && b.step in deps[..n] && !IsCompleted(m, b.step)
  {
    if n > 0 {
      DependencyBlockersAre(m, deps, n - 1, b);
      assert deps[..n] == deps[..n - 1] + [deps[n - 1]];
    }
  }

  /** An input is missing. */
  predicate Missing(m: Mission, step: string, inputs: seq<Input>, n: nat, name: string)
    requires n <= |inputs|
  {
    exists i :: 0 <= i < n && inputs[i].name == name && (step, name) !in m.handoffs
  }

  lemma {:induction false} InputBlockersAre(m: Mission, step: string, inputs: seq<Input>, n: nat, b: Blocker)
    requires n <= |inputs|
    ensures b in InputBlockers(m, step, inputs, n) <==> b.StepOutputMissing? && Missing(m, step, inputs, n, b.input)
  {
    if n > 0 {
      InputBlockersAre(m, step, inputs, n - 1, b);
    }
  }

  /** The verdict is settled exactly when the step is completed or its latest attempt is still open. */
  lemma SettledIff(m: Mission, plan: Plan, step: string, conflict: bool)
    requires step in plan
    ensures Judge(m, plan, step, conflict) == Settled <==>
      || IsCompleted(m, step)
      || (Of(m, step) != [] && Of(m, step)[|Of(m, step)| - 1].state in {Ready, WaitingHuman, Active, Blocked, RecoveryRequired})
  {
    var last := |Of(m, step)| - 1;
    if Of(m, step) != [] && Of(m, step)[last].state == Completed {
      assert IsCompleted(m, step);
    }
  }

  /** A step that has to wait is told every reason, and no other: a review if it was attempted before, the state of the mission,
      each dependency that is not completed, each input that nobody has handed over, and a resource conflict. */
  lemma BlockersAre(m: Mission, plan: Plan, step: string, conflict: bool, b: Blocker)
    requires step in plan && Judge(m, plan, step, conflict).Waiting?
    ensures b in Judge(m, plan, step, conflict).blockers <==>
      match b
      case RecoveryRequiresReview => Of(m, step) != []
      case MissionPaused => m.run == Paused
      case MissionCancelled => m.run == RunCancelled
      case MissionNotRunning => m.run !in {Running, Paused, RunCancelled}
      case DependencyUnsatisfied(d) => d in plan[step].dependsOn && !IsCompleted(m, d)
      case StepOutputMissing(name) => Missing(m, step, plan[step].inputs, |plan[step].inputs|, name)
      case ResourceConflict => conflict
  {
    var deps := plan[step].dependsOn;
    DependencyBlockersAre(m, deps, |deps|, b);
    assert deps[..|deps|] == deps;
    InputBlockersAre(m, step, plan[step].inputs, |plan[step].inputs|, b);
  }
}
