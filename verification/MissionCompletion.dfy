/**
 Missions finish: a round takes one step that can move, local or external, to completion by the mission's own
 actions, and a running mission needs no more rounds than its plan has steps.
 */
module MissionCompletion {
  import opened Common
  import opened Acyclicity
  import opened Mission
  import opened MissionProgress

  // ---------------------------------------------------------------- one round

  /** The attempt can still be completed: external work has not begun and nobody contained it, or it is under way. */
  predicate CanFinish(a: Attempt) {
    a.state == Active || (a.state in {Ready, WaitingHuman} && !a.started && !a.recovered)
  }

  predicate Underway(m: Mission, step: string) {
    Of(m, step) != [] && !IsCompleted(m, step) && CanFinish(Of(m, step)[|Of(m, step)| - 1])
  }

  /** The step is ready, or its latest attempt can be completed. */
  predicate CanMove(m: Mission, plan: Plan, step: string)
    requires step in plan
  {
    Judge(m, plan, step, false) == ReadyNow || Underway(m, step)
  }

  /** The attempt a round ends with; approval of external work marks it as started. */
  function Done(a: Attempt, local: bool): Attempt {
    a.(state := Completed, started := a.started || (!local && a.state != Active))
  }

  /** One round: the step's latest attempt, or its first one, is completed with evidence and handoffs. */
  function Round(m: Mission, plan: Plan, step: string): Mission
    requires step in plan
  {
    var known := if Of(m, step) == [] then [FRESH] else Of(m, step);
    var n := |known| - 1;
    m.(attempts := m.attempts[step := known[n := Done(known[n], plan[step].local)]],
       evidence := m.evidence + {step}, handoffs := m.handoffs + HandoffsFrom(plan, step),
       inflight := if plan[step].local || known[n].state == Active then m.inflight else m.inflight - {(step, n)})
  }

  /** A round completes its step and touches no other step. */
  lemma RoundLaw(m: Mission, plan: Plan, step: string)
    requires step in plan && CanMove(m, plan, step)
    ensures var next := Round(m, plan, step);
      (forall s :: s != step ==> Of(next, s) == Of(m, s)) && !IsCompleted(m, step) && IsCompleted(next, step)
  {
    ReadyIff(m, plan, step, false);
    var next := Round(m, plan, step);
    assert Of(next, step)[|Of(next, step)| - 1].state == Completed;
  }

  // ---------------------------------------------------------------- a round, action by action

  /** The first attempt of a ready step; an external one is handed to the kernel, which may ask for a gate. */
  function Begin(m: Mission, plan: Plan, terminals: seq<string>, step: string, gated: bool): Mission {
    if Of(m, step) != [] then m
    else
      Next(Next(m, plan, terminals, CreateAttempt(step)), plan, terminals, Schedule(step, 0, if gated then WithGate else WithoutGate))
  }

  /** A local attempt is started; an external one is approved and its result observed. */
  function Activate(m: Mission, plan: Plan, terminals: seq<string>, step: string, n: nat): Mission {
    if Exists(m, step, n) && Of(m, step)[n].state == Active then m
    else if step in plan && plan[step].local then Next(m, plan, terminals, StartLocal(step, n))
    else Next(Next(m, plan, terminals, BeginApproval(step, n)), plan, terminals, ObserveResult(step, n))
  }

  function Close(m: Mission, plan: Plan, terminals: seq<string>, step: string, n: nat): Mission {
    Next(Next(Next(m, plan, terminals, RecordEvidence(step, n)), plan, terminals, Finish(step, n)), plan, terminals, RecordHandoffs(step))
  }

  function SetLast(m: Mission, step: string, a: Attempt): Mission
    requires Of(m, step) != []
  {
    m.(attempts := m.attempts[step := Of(m, step)[|Of(m, step)| - 1 := a]])
  }

  lemma BeginLaw(m: Mission, plan: Plan, terminals: seq<string>, step: string, gated: bool)
    requires step in plan && Judge(m, plan, step, false) == ReadyNow
    ensures Begin(m, plan, terminals, step, gated)
      == m.(attempts := m.attempts[step := [FRESH.(state := if plan[step].local || !gated then Ready else WaitingHuman)]])
  {
    ReadyIff(m, plan, step, false);
    var created := Next(m, plan, terminals, CreateAttempt(step));
    assert [] + [FRESH] == [FRESH] && Of(created, step) == [FRESH];
    assert [FRESH][0 := FRESH.(state := WaitingHuman)] == [FRESH.(state := WaitingHuman)];
  }

  lemma ActivateLaw(m: Mission, plan: Plan, terminals: seq<string>, step: string)
    requires step in plan && m.run == Running && Underway(m, step)
    ensures var n := |Of(m, step)| - 1; var a := Of(m, step)[n];
      Activate(m, plan, terminals, step, n)
        == if a.state == Active then m
           else if plan[step].local then SetLast(m, step, a.(state := Active))
           else SetLast(m, step, a.(state := Active, started := true)).(inflight := m.inflight - {(step, n)})
  {
    var n := |Of(m, step)| - 1;
    assert m.inflight + {(step, n)} - {(step, n)} == m.inflight - {(step, n)};
  }

  lemma CloseLaw(m: Mission, plan: Plan, terminals: seq<string>, step: string)
    requires step in plan && Of(m, step) != [] && Of(m, step)[|Of(m, step)| - 1].state == Active
    ensures var n := |Of(m, step)| - 1;
      Close(m, plan, terminals, step, n) == SetLast(m, step, Of(m, step)[n].(state := Completed))
        .(evidence := m.evidence + {step}, handoffs := m.handoffs + HandoffsFrom(plan, step))
  {
    var n := |Of(m, step)| - 1;
    var finished := Next(Next(m, plan, terminals, RecordEvidence(step, n)), plan, terminals, Finish(step, n));
    assert Of(finished, step)[n].state == Completed;
  }

  /** The rest of a round, from an attempt that is under way. */
  lemma UnderwayRound(m: Mission, plan: Plan, terminals: seq<string>, step: string)
    requires step in plan && m.run == Running && Underway(m, step)
    ensures var n := |Of(m, step)| - 1;
      Close(Activate(m, plan, terminals, step, n), plan, terminals, step, n) == Round(m, plan, step)
  {
    var n := |Of(m, step)| - 1;
    ActivateLaw(m, plan, terminals, step);
    var active := Activate(m, plan, terminals, step, n);
    CloseLaw(active, plan, terminals, step);
    assert Of(active, step) == Of(m, step)[n := Of(active, step)[n]];
    assert Of(active, step)[n := Done(Of(m, step)[n], plan[step].local)] == Of(m, step)[n := Done(Of(m, step)[n], plan[step].local)];
  }

  lemma BegunRound(m: Mission, plan: Plan, terminals: seq<string>, step: string, gated: bool)
    requires step in plan && Judge(m, plan, step, false) == ReadyNow
    ensures var begun := Begin(m, plan, terminals, step, gated);
      begun.run == Running && Underway(begun, step) && Round(begun, plan, step) == Round(m, plan, step)
  {
    ReadyIff(m, plan, step, false);
    BeginLaw(m, plan, terminals, step, gated);
    var begun := Begin(m, plan, terminals, step, gated);
    var first := FRESH.(state := if plan[step].local || !gated then Ready else WaitingHuman);
    assert Of(begun, step) == [first];
    assert [first][0 := Done(first, plan[step].local)] == [FRESH][0 := Done(FRESH, plan[step].local)];
    assert Round(begun, plan, step).attempts == Round(m, plan, step).attempts;
  }

  // ---------------------------------------------------------------- rounds are runs

  lemma {:induction false} RunAgrees(m: Mission, plan: Plan, terminals: seq<string>, acts: seq<Action>, more: seq<Action>, n: nat)
    requires n <= |acts| && acts <= more
    ensures Run(m, plan, terminals, more, n) == Run(m, plan, terminals, acts, n)
  {
    if n > 0 {
      RunAgrees(m, plan, terminals, acts, more, n - 1);
    }
  }

  function Do(m: Mission, plan: Plan, terminals: seq<string>, acts: seq<Action>): Mission {
    Run(m, plan, terminals, acts, |acts|)
  }

  lemma DoOneMore(m: Mission, plan: Plan, terminals: seq<string>, acts: seq<Action>, act: Action)
    ensures Do(m, plan, terminals, acts + [act]) == Next(Do(m, plan, terminals, acts), plan, terminals, act)
  {
    RunAgrees(m, plan, terminals, acts, acts + [act], |acts|);
  }

  lemma {:induction false} DoBoth(m: Mission, plan: Plan, terminals: seq<string>, acts: seq<Action>, more: seq<Action>)
    ensures Do(m, plan, terminals, acts + more) == Do(Do(m, plan, terminals, acts), plan, terminals, more)
  {
    if more == [] {
      assert acts + more == acts;
    } else {
      var n := |more| - 1;
      DoBoth(m, plan, terminals, acts, more[..n]);
      assert acts + more == (acts + more[..n]) + [more[n]] && more == more[..n] + [more[n]];
      DoOneMore(m, plan, terminals, acts + more[..n], more[n]);
      DoOneMore(Do(m, plan, terminals, acts), plan, terminals, more[..n], more[n]);
    }
  }

  lemma BeginIsRun(m: Mission, plan: Plan, terminals: seq<string>, step: string, gated: bool) returns (acts: seq<Action>)
    ensures Do(m, plan, terminals, acts) == Begin(m, plan, terminals, step, gated)
  {
    acts := [];
    if Of(m, step) == [] {
      var handed := Schedule(step, 0, if gated then WithGate else WithoutGate);
      DoOneMore(m, plan, terminals, acts, CreateAttempt(step));
      DoOneMore(m, plan, terminals, acts + [CreateAttempt(step)], handed);
      acts := acts + [CreateAttempt(step)] + [handed];
    }
  }

  /** Every round is a run of the mission's actions, whether or not the kernel asks for a gate. */
  lemma RoundIsRun(m: Mission, plan: Plan, terminals: seq<string>, step: string, gated: bool) returns (acts: seq<Action>)
    requires step in plan && m.run == Running && CanMove(m, plan, step)
    ensures Do(m, plan, terminals, acts) == Round(m, plan, step)
  {
    var opening := BeginIsRun(m, plan, terminals, step, gated);
    var begun := Do(m, plan, terminals, opening);
    ReadyIff(m, plan, step, false);
    if Of(m, step) == [] {
      BegunRound(m, plan, terminals, step, gated);
    }
    UnderwayRound(begun, plan, terminals, step);
    acts := RestIsRun(m, plan, terminals, step, opening);
  }

  lemma RestIsRun(m: Mission, plan: Plan, terminals: seq<string>, step: string, before: seq<Action>) returns (acts: seq<Action>)
    requires Of(Do(m, plan, terminals, before), step) != []
    ensures var begun := Do(m, plan, terminals, before); var n := |Of(begun, step)| - 1;
      Do(m, plan, terminals, acts) == Close(Activate(begun, plan, terminals, step, n), plan, terminals, step, n)
  {
    acts := before;
    var begun := Do(m, plan, terminals, before);
    var n := |Of(begun, step)| - 1;
    if Of(begun, step)[n].state != Active {
      if step in plan && plan[step].local {
        DoOneMore(m, plan, terminals, acts, StartLocal(step, n));
        acts := acts + [StartLocal(step, n)];
      } else {
        DoOneMore(m, plan, terminals, acts, BeginApproval(step, n));
        acts := acts + [BeginApproval(step, n)];
        DoOneMore(m, plan, terminals, acts, ObserveResult(step, n));
        acts := acts + [ObserveResult(step, n)];
      }
    }
    DoOneMore(m, plan, terminals, acts, RecordEvidence(step, n));
    acts := acts + [RecordEvidence(step, n)];
    DoOneMore(m, plan, terminals, acts, Finish(step, n));
    acts := acts + [Finish(step, n)];
    DoOneMore(m, plan, terminals, acts, RecordHandoffs(step));
    acts := acts + [RecordHandoffs(step)];
  }

  // ---------------------------------------------------------------- what rounds keep

  /** No attempt is contained or blocked, inputs of attempted steps and handoffs of completed ones are recorded. */
  predicate Unhindered(m: Mission, plan: Plan, step: string) {
    step in plan && Of(m, step) != [] ==>
      && InputsRecorded(m, plan, step) && (IsCompleted(m, step) || Underway(m, step))
      && (IsCompleted(m, step) ==> HandoffsFrom(plan, step) <= m.handoffs)
  }

  ghost predicate PlanInv(m: Mission, plan: Plan) {
    && (forall s {:trigger Unhindered(m, plan, s)} :: Unhindered(m, plan, s))
    && (forall h :: h in m.handoffs ==> Supplied(plan, h.0, h.1))
  }

  ghost predicate FullySupplied(plan: Plan) {
    forall s :: s in plan ==> AllSupplied(plan, s)
  }

  lemma HandoffsAreSupplied(plan: Plan, source: string)
    requires source in plan
    ensures forall h :: h in HandoffsFrom(plan, source) ==> Supplied(plan, h.0, h.1)
  {
    forall h | h in HandoffsFrom(plan, source) ensures Supplied(plan, h.0, h.1) {
      var i :| 0 <= i < |plan[h.0].inputs| && plan[h.0].inputs[i].name == h.1 && Feeds(plan, h.0, h.1, i);
    }
  }

  lemma RoundKeepsPlanInv(m: Mission, plan: Plan, step: string)
    requires step in plan && CanMove(m, plan, step) && PlanInv(m, plan)
    ensures PlanInv(Round(m, plan, step), plan)
  {
    var next := Round(m, plan, step);
    RoundLaw(m, plan, step);
    ReadyIff(m, plan, step, false);
    HandoffsAreSupplied(plan, step);
    forall s {:trigger Unhindered(next, plan, s)} ensures Unhindered(next, plan, s) {
      assert Unhindered(m, plan, s);
    }
  }

  /** A recorded handoff of every input is what a supplied step needs once its dependencies are completed. */
  lemma SuppliedInputs(m: Mission, plan: Plan, step: string)
    requires PlanInv(m, plan) && step in plan && DepsCompleted(m, plan, step) && AllSupplied(plan, step)
    ensures InputsRecorded(m, plan, step)
  {
    forall i | 0 <= i < |plan[step].inputs| ensures (step, plan[step].inputs[i].name) in m.handoffs {
      var name := plan[step].inputs[i].name;
      assert Supplied(plan, step, name);
      var j :| Feeds(plan, step, name, j);
      var source := plan[step].inputs[j].source.value.0;
      assert Unhindered(m, plan, source) && IsCompleted(m, source);
      assert (step, plan[step].inputs[j].name) in HandoffsFrom(plan, source);
    }
  }

  /** While a step is open, some step can move. */
  lemma OpenPlanMoves(m: Mission, plan: Plan, order: seq<string>, step: string) returns (moves: string)
    requires IsTopological(DependencyGraph(plan), order) && KnownDeps(plan) && FullySupplied(plan)
    requires m.run == Running && PlanInv(m, plan) && step in plan && !IsCompleted(m, step)
    ensures moves in plan && CanMove(m, plan, moves)
  {
    assert step in DependencyGraph(plan);
    var k :| 0 <= k < |order| && order[k] == step;
    moves := FirstOpenStep(m, plan, order, k);
    assert Unhindered(m, plan, moves);
    SuppliedInputs(m, plan, moves);
    ReadyIff(m, plan, moves, false);
  }

  // ---------------------------------------------------------------- all rounds

  /** The rounds of the chosen steps, in order. */
  function Rounds(m: Mission, plan: Plan, picks: seq<string>, n: nat): Mission
    requires n <= |picks|
  {
    if n == 0 then m
    else
      var before := Rounds(m, plan, picks, n - 1);
      if picks[n - 1] in plan then Round(before, plan, picks[n - 1]) else before
  }

  /** The step chosen for round `i` can move when its round comes. */
  predicate Movable(m: Mission, plan: Plan, picks: seq<string>, i: int) {
    0 <= i < |picks| ==> picks[i] in plan && CanMove(Rounds(m, plan, picks, i), plan, picks[i])
  }

  ghost predicate Playable(m: Mission, plan: Plan, picks: seq<string>) {
    forall i {:trigger Movable(m, plan, picks, i)} :: Movable(m, plan, picks, i)
  }

  function OpenSteps(m: Mission, plan: Plan): set<string> {
    set s | s in plan && !IsCompleted(m, s)
  }

  lemma RoundClosesOne(m: Mission, plan: Plan, step: string)
    requires step in plan && CanMove(m, plan, step)
    ensures step in OpenSteps(m, plan) && OpenSteps(Round(m, plan, step), plan) == OpenSteps(m, plan) - {step}
  {
    RoundLaw(m, plan, step);
    var next := Round(m, plan, step);
    assert forall s :: s != step ==> (IsCompleted(next, s) <==> IsCompleted(m, s));
  }

  /** Whatever steps are chosen, every round closes exactly one step, so there are at most as many as open steps. */
  lemma {:induction false} RoundsCount(m: Mission, plan: Plan, picks: seq<string>, n: nat)
    requires m.run == Running && PlanInv(m, plan) && Playable(m, plan, picks) && n <= |picks|
    ensures var after := Rounds(m, plan, picks, n);
      && after.run == Running && PlanInv(after, plan) && OpenSteps(after, plan) <= OpenSteps(m, plan)
      && |OpenSteps(after, plan)| == |OpenSteps(m, plan)| - n
      && after.evidence == m.evidence + (OpenSteps(m, plan) - OpenSteps(after, plan))
  {
    if n > 0 {
      RoundsCount(m, plan, picks, n - 1);
      var before := Rounds(m, plan, picks, n - 1);
      assert Movable(m, plan, picks, n - 1);
      RoundKeepsPlanInv(before, plan, picks[n - 1]);
      RoundClosesOne(before, plan, picks[n - 1]);
    }
  }

  lemma OpenStepsBound(m: Mission, plan: Plan)
    ensures |OpenSteps(m, plan)| <= |plan|
  {
    assert plan.Keys == OpenSteps(m, plan) + (plan.Keys - OpenSteps(m, plan));
    assert |plan.Keys| == |plan|;
  }

  /** Where no step can move any more, every step is completed exactly when every declared input is supplied by a
      dependency. */
  lemma StuckPlanIff(m: Mission, plan: Plan, order: seq<string>)
    requires IsTopological(DependencyGraph(plan), order) && KnownDeps(plan) && m.run == Running && PlanInv(m, plan)
    requires forall s :: s in plan ==> !CanMove(m, plan, s)
    ensures OpenSteps(m, plan) == {} <==> FullySupplied(plan)
  {
    if FullySupplied(plan) {
      forall s | s in plan ensures IsCompleted(m, s) {
        if !IsCompleted(m, s) {
          var moves := OpenPlanMoves(m, plan, order, s);
        }
      }
    }
    if OpenSteps(m, plan) == {} {
      forall s, i | s in plan && 0 <= i < |plan[s].inputs| ensures Supplied(plan, s, plan[s].inputs[i].name) {
        assert s !in OpenSteps(m, plan) && Unhindered(m, plan, s);
        assert (s, plan[s].inputs[i].name) in m.handoffs;
      }
    }
  }

  /** Any choice of movable steps, carried on until none is left, takes at most as many rounds as the plan has
      steps, and has then completed the plan exactly when every declared input is supplied. */
  lemma EveryPlayFinishesIff(m: Mission, plan: Plan, order: seq<string>, picks: seq<string>)
    requires IsTopological(DependencyGraph(plan), order) && KnownDeps(plan)
    requires m.run == Running && PlanInv(m, plan) && Playable(m, plan, picks)
    requires forall s :: s in plan ==> !CanMove(Rounds(m, plan, picks, |picks|), plan, s)
    ensures |picks| <= |plan|
    ensures OpenSteps(Rounds(m, plan, picks, |picks|), plan) == {} <==> FullySupplied(plan)
  {
    RoundsCount(m, plan, picks, |picks|);
    OpenStepsBound(m, plan);
    StuckPlanIff(Rounds(m, plan, picks, |picks|), plan, order);
  }

  lemma {:induction false} RoundsPrefix(m: Mission, plan: Plan, picks: seq<string>, more: seq<string>, n: nat)
    requires n <= |picks| && picks <= more
    ensures Rounds(m, plan, more, n) == Rounds(m, plan, picks, n)
  {
    if n > 0 {
      RoundsPrefix(m, plan, picks, more, n - 1);
    }
  }

  lemma PlayOneMore(m: Mission, plan: Plan, picks: seq<string>, step: string)
    requires Playable(m, plan, picks) && step in plan && CanMove(Rounds(m, plan, picks, |picks|), plan, step)
    ensures Playable(m, plan, picks + [step])
  {
    var more := picks + [step];
    forall i {:trigger Movable(m, plan, more, i)} ensures Movable(m, plan, more, i) {
      assert Movable(m, plan, picks, i);
      if 0 <= i < |more| {
        RoundsPrefix(m, plan, picks, more, i);
      }
    }
  }

  /** A play that is still short of the end can be carried on to one that closes every step. */
  lemma {:induction false} CarryOn(m: Mission, plan: Plan, order: seq<string>, picks: seq<string>) returns (all: seq<string>)
    requires IsTopological(DependencyGraph(plan), order) && KnownDeps(plan) && FullySupplied(plan)
    requires m.run == Running && PlanInv(m, plan) && Playable(m, plan, picks)
    ensures Playable(m, plan, all) && OpenSteps(Rounds(m, plan, all, |all|), plan) == {}
    decreases |OpenSteps(m, plan)| - |picks|
  {
    RoundsCount(m, plan, picks, |picks|);
    var after := Rounds(m, plan, picks, |picks|);
    if step :| step in OpenSteps(after, plan) {
      var moves := OpenPlanMoves(after, plan, order, step);
      PlayOneMore(m, plan, picks, moves);
      RoundsCount(m, plan, picks + [moves], |picks| + 1);
      all := CarryOn(m, plan, order, picks + [moves]);
    } else {
      all := picks;
    }
  }

  lemma {:induction false} RoundsAreRun(
    m: Mission, plan: Plan, terminals: seq<string>, picks: seq<string>, n: nat, gated: string -> bool) returns (acts: seq<Action>)
    requires m.run == Running && PlanInv(m, plan) && Playable(m, plan, picks) && n <= |picks|
    ensures Do(m, plan, terminals, acts) == Rounds(m, plan, picks, n)
  {
    if n == 0 {
      acts := [];
    } else {
      var before := RoundsAreRun(m, plan, terminals, picks, n - 1, gated);
      RoundsCount(m, plan, picks, n - 1);
      assert Movable(m, plan, picks, n - 1);
      var round := RoundIsRun(Rounds(m, plan, picks, n - 1), plan, terminals, picks[n - 1], gated(picks[n - 1]));
      DoBoth(m, plan, terminals, before, round);
      acts := before + round;
    }
  }

  /** From every running state without a contained or blocked attempt: exactly as many rounds as there are open
      steps, at most the size of the plan, complete every step and then the mission; they are a run of its actions. */
  lemma PlanFinishes(m: Mission, plan: Plan, terminals: seq<string>, order: seq<string>, gated: string -> bool)
    returns (picks: seq<string>, acts: seq<Action>)
    requires IsTopological(DependencyGraph(plan), order) && KnownDeps(plan) && FullySupplied(plan)
    requires m.run == Running && PlanInv(m, plan) && (forall s :: EvidenceKept(m, s)) && forall t :: t in terminals ==> t in plan
    ensures Playable(m, plan, picks) && |picks| == |OpenSteps(m, plan)| <= |plan|
    ensures var after := Do(m, plan, terminals, acts);
      && after == Rounds(m, plan, picks, |picks|) && (forall s :: s in plan ==> IsCompleted(after, s))
      && Next(after, plan, terminals, CompleteRun).run == RunCompleted
  {
    assert Playable(m, plan, []);
    picks := CarryOn(m, plan, order, []);
    RoundsCount(m, plan, picks, |picks|);
    OpenStepsBound(m, plan);
    acts := RoundsAreRun(m, plan, terminals, picks, |picks|, gated);
    var after := Rounds(m, plan, picks, |picks|);
    forall s | s in plan ensures IsCompleted(after, s) && s in after.evidence {
      assert s !in OpenSteps(after, plan) && EvidenceKept(m, s);
    }
  }

  // ---------------------------------------------------------------- reachable states

  /** External work that did not begin leaves no mark: an attempt that waits was neither started nor recovered. */
  predicate Unmarked(m: Mission, step: string, n: int) {
    0 <= n < |Of(m, step)| && Of(m, step)[n].state in {Ready, WaitingHuman} ==> CanFinish(Of(m, step)[n])
  }

  predicate InputsKept(m: Mission, plan: Plan, step: string) {
    step in plan && Of(m, step) != [] ==> InputsRecorded(m, plan, step)
  }

  /** What every run leaves behind, unsafe retries and crashes included. */
  ghost predicate Traced(m: Mission, plan: Plan) {
    && (forall s, n {:trigger Unmarked(m, s, n)} :: Unmarked(m, s, n))
    && (forall s {:trigger InputsKept(m, plan, s)} :: InputsKept(m, plan, s))
    && (forall s {:trigger EvidenceKept(m, s)} :: EvidenceKept(m, s))
    && (forall h :: h in m.handoffs ==> Supplied(plan, h.0, h.1))
  }

  lemma NextKeepsUnmarked(m: Mission, plan: Plan, terminals: seq<string>, act: Action, step: string, n: int)
    requires Unmarked(m, step, n)
    ensures Unmarked(Next(m, plan, terminals, act), step, n)
  {
  }

  lemma HandoffsOnlyGrow(m: Mission, plan: Plan, terminals: seq<string>, act: Action)
    ensures m.handoffs <= Next(m, plan, terminals, act).handoffs
    ensures forall h :: h in Next(m, plan, terminals, act).handoffs && h !in m.handoffs ==>
      act.RecordHandoffs? && act.step in plan && h in HandoffsFrom(plan, act.step)
  {
  }

  lemma NextKeepsInputs(m: Mission, plan: Plan, terminals: seq<string>, act: Action, step: string)
    requires InputsKept(m, plan, step)
    ensures InputsKept(Next(m, plan, terminals, act), plan, step)
  {
    var next := Next(m, plan, terminals, act);
    HandoffsOnlyGrow(m, plan, terminals, act);
    if step in plan && Of(m, step) == [] && Of(next, step) != [] {
      AttemptedEarlier(m, plan, terminals, act, step);
      ReadyIff(m, plan, step, false);
    }
  }

  lemma NextKeepsEvidence(m: Mission, plan: Plan, terminals: seq<string>, act: Action, step: string)
    requires EvidenceKept(m, step)
    ensures EvidenceKept(Next(m, plan, terminals, act), step)
  {
    EvidenceGrows(m, plan, terminals, act);
    if !IsCompleted(m, step) && IsCompleted(Next(m, plan, terminals, act), step) {
      CompletedNow(m, plan, terminals, act, step);
    }
  }

  lemma NextKeepsTraced(m: Mission, plan: Plan, terminals: seq<string>, act: Action)
    requires Traced(m, plan)
    ensures Traced(Next(m, plan, terminals, act), plan)
  {
    var next := Next(m, plan, terminals, act);
    forall s, n {:trigger Unmarked(next, s, n)} ensures Unmarked(next, s, n) {
      NextKeepsUnmarked(m, plan, terminals, act, s, n);
    }
    forall s {:trigger InputsKept(next, plan, s)} ensures InputsKept(next, plan, s) {
      NextKeepsInputs(m, plan, terminals, act, s);
    }
    forall s {:trigger EvidenceKept(next, s)} ensures EvidenceKept(next, s) {
      NextKeepsEvidence(m, plan, terminals, act, s);
    }
    HandoffsOnlyGrow(m, plan, terminals, act);
    if act.RecordHandoffs? && act.step in plan {
      HandoffsAreSupplied(plan, act.step);
    }
  }

  lemma {:induction false} RunIsTraced(plan: Plan, terminals: seq<string>, acts: seq<Action>, n: nat)
    requires n <= |acts|
    ensures Traced(Run(NEW_MISSION, plan, terminals, acts, n), plan)
  {
    if n > 0 {
      RunIsTraced(plan, terminals, acts, n - 1);
      NextKeepsTraced(Run(NEW_MISSION, plan, terminals, acts, n - 1), plan, terminals, acts[n - 1]);
    }
  }

  /** Nothing holds the mission up: no attempt is contained or blocked, and no handoff of a completed step is missing. */
  ghost predicate Clear(m: Mission, plan: Plan) {
    forall s :: s in plan && Of(m, s) != [] ==>
      if IsCompleted(m, s) then HandoffsFrom(plan, s) <= m.handoffs
      else Live(m, s) && Of(m, s)[|Of(m, s)| - 1].state != Blocked
  }

  lemma ClearIsUnhindered(m: Mission, plan: Plan)
    requires Traced(m, plan) && Clear(m, plan)
    ensures PlanInv(m, plan)
  {
    forall s {:trigger Unhindered(m, plan, s)} ensures Unhindered(m, plan, s) {
      assert InputsKept(m, plan, s) && Unmarked(m, s, |Of(m, s)| - 1);
    }
  }

  /** After any run whatsoever, a running mission with nothing in its way is finished by as many more rounds as it
      has open steps, at most the size of its plan. */
  lemma MissionFinishes(plan: Plan, terminals: seq<string>, order: seq<string>, before: seq<Action>, gated: string -> bool)
    returns (picks: seq<string>, acts: seq<Action>)
    requires IsTopological(DependencyGraph(plan), order) && KnownDeps(plan) && FullySupplied(plan)
    requires forall t :: t in terminals ==> t in plan
    requires Do(NEW_MISSION, plan, terminals, before).run == Running && Clear(Do(NEW_MISSION, plan, terminals, before), plan)
    ensures var m := Do(NEW_MISSION, plan, terminals, before);
      Playable(m, plan, picks) && |picks| == |OpenSteps(m, plan)| <= |plan|
    ensures var m := Do(NEW_MISSION, plan, terminals, before); var after := Do(NEW_MISSION, plan, terminals, before + acts);
      && after == Rounds(m, plan, picks, |picks|) && (forall s :: s in plan ==> IsCompleted(after, s))
      && Next(after, plan, terminals, CompleteRun).run == RunCompleted
  {
    var m := Do(NEW_MISSION, plan, terminals, before);
    RunIsTraced(plan, terminals, before, |before|);
    ClearIsUnhindered(m, plan);
    picks, acts := PlanFinishes(m, plan, terminals, order, gated);
    DoBoth(NEW_MISSION, plan, terminals, before, acts);
  }

  // ---------------------------------------------------------------- plans of local steps

  /** When nothing is enabled any more, a plan of local steps has finished every step, exactly when every
      declared input is supplied by a dependency. */
  lemma LocalPlanFinishesIff(m: Mission, plan: Plan, order: seq<string>)
    requires IsTopological(DependencyGraph(plan), order) && KnownDeps(plan) && LocalInv(m, plan)
    requires forall s :: s in plan ==> !Enabled(m, plan, s)
    ensures (forall s :: s in plan ==> IsCompleted(m, s)) <==> (forall s :: s in plan ==> AllSupplied(plan, s))
  {
    var running := m.(run := Running);
    RunStateIsIrrelevant(m, running, plan);
    forall s {:trigger Unhindered(running, plan, s)} ensures Unhindered(running, plan, s) {
      assert LocalStep(running, plan, s);
    }
    forall s | s in plan ensures !CanMove(running, plan, s) {
      ReadyIff(running, plan, s, false);
      assert LocalStep(running, plan, s);
    }
    StuckPlanIff(running, plan, order);
    assert OpenSteps(running, plan) == {} <==> forall s :: s in plan ==> s !in OpenSteps(running, plan);
  }
}
