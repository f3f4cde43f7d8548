/** Missions move forward: the evaluation loop of a running mission, and when its plan can finish. */
module MissionProgress {
  import opened Common
  import opened Acyclicity
  import opened Mission

  ghost predicate KnownDeps(plan: Plan) {
    forall s, d :: s in plan && d in plan[s].dependsOn ==> d in plan
  }

  function DependencyGraph(plan: Plan): Graph {
    map s | s in plan :: plan[s].dependsOn
  }

  /** Nothing keeps the step from being attempted, whatever the run state. */
  predicate Enabled(m: Mission, plan: Plan, step: string)
    requires step in plan
  {
    Of(m, step) == [] && DepsCompleted(m, plan, step) && InputsRecorded(m, plan, step)
  }

  predicate Live(m: Mission, step: string) {
    Of(m, step) != [] && Of(m, step)[|Of(m, step)| - 1].state in {Ready, WaitingHuman, Active, Blocked}
  }

  predicate Contained(m: Mission, step: string) {
    Of(m, step) != [] && Of(m, step)[|Of(m, step)| - 1].state in {Failed, Cancelled, RecoveryRequired}
  }

  /** The first step of a topological order that is not completed has all its dependencies completed. */
  lemma {:induction false} FirstOpenStep(m: Mission, plan: Plan, order: seq<string>, k: nat) returns (open: string)
    requires IsTopological(DependencyGraph(plan), order) && KnownDeps(plan)
    requires k < |order| && order[k] in plan && !IsCompleted(m, order[k])
    ensures open in plan && !IsCompleted(m, open) && DepsCompleted(m, plan, open)
    decreases k
  {
    open := order[k];
    if !DepsCompleted(m, plan, open) {
      var d :| d in plan[open].dependsOn && !IsCompleted(m, d);
      assert AfterSuccessorsAt(DependencyGraph(plan), order, k);
      assert d in Successors(DependencyGraph(plan), open);
      var j :| 0 <= j < k && order[j] == d;
      open := FirstOpenStep(m, plan, order, j);
    }
  }

  /** Progress: while a running mission has an uncompleted step, no contained attempt and its handoffs recorded,
      some step is ready or live. */
  lemma SomeStepMoves(m: Mission, plan: Plan, order: seq<string>, step: string) returns (moves: string)
    requires IsTopological(DependencyGraph(plan), order) && KnownDeps(plan)
    requires m.run == Running && step in plan && !IsCompleted(m, step)
    requires forall s :: s in plan ==> !Contained(m, s) && (DepsCompleted(m, plan, s) ==> InputsRecorded(m, plan, s))
    ensures moves in plan && (Judge(m, plan, moves, false) == ReadyNow || Live(m, moves))
  {
    assert step in DependencyGraph(plan);
    var k :| 0 <= k < |order| && order[k] == step;
    moves := FirstOpenStep(m, plan, order, k);
    ReadyIff(m, plan, moves, false);
    if Of(m, moves) != [] {
      assert Of(m, moves)[|Of(m, moves)| - 1].state != Completed;
    }
  }

  // ---------------------------------------------------------------- one step of the evaluation loop

  /** Creating the first attempt of a step and running it at once, or handing it to the execution kernel. */
  function StepOnce(m: Mission, plan: Plan, step: string, outcome: Scheduled): Mission
    requires step in plan && Of(m, step) == []
  {
    if plan[step].local then
      Put(m, step, 0, FRESH.(state := Completed)).(evidence := m.evidence + {step}, handoffs := m.handoffs + HandoffsFrom(plan, step))
    else Put(m, step, 0, FRESH.(state := match outcome case WithGate => WaitingHuman case AsBlocked => Blocked case WithoutGate => Ready))
  }

  function ActionsOf(plan: Plan, step: string, outcome: Scheduled): seq<Action>
    requires step in plan
  {
    if plan[step].local then
      [CreateAttempt(step), StartLocal(step, 0), RecordEvidence(step, 0), Finish(step, 0), RecordHandoffs(step)]
    else [CreateAttempt(step), Schedule(step, 0, outcome)]
  }

  /** From a fresh attempt of a local step, four more saves complete it. */
  lemma LocalSaves(m: Mission, plan: Plan, terminals: seq<string>, step: string)
    requires step in plan && plan[step].local && Of(m, step) == [FRESH]
    ensures var m1 := Next(m, plan, terminals, StartLocal(step, 0));
      var m2 := Next(m1, plan, terminals, RecordEvidence(step, 0));
      var m3 := Next(m2, plan, terminals, Finish(step, 0));
      Next(m3, plan, terminals, RecordHandoffs(step))
        == m.(attempts := m.attempts[step := [FRESH.(state := Completed)]],
              evidence := m.evidence + {step}, handoffs := m.handoffs + HandoffsFrom(plan, step))
  {
    var m1 := Next(m, plan, terminals, StartLocal(step, 0));
    assert Of(m1, step) == [FRESH.(state := Active)];
    var m2 := Next(m1, plan, terminals, RecordEvidence(step, 0));
    var m3 := Next(m2, plan, terminals, Finish(step, 0));
    assert Of(m3, step) == [FRESH.(state := Completed)] && Of(m3, step)[0].state == Completed;
  }

  lemma RunOfFive(m: Mission, plan: Plan, terminals: seq<string>, acts: seq<Action>)
    requires |acts| == 5
    ensures Run(m, plan, terminals, acts, 5) == Next(Next(Next(Next(Next(m, plan, terminals, acts[0]), plan, terminals, acts[1]),
                                                              plan, terminals, acts[2]), plan, terminals, acts[3]), plan, terminals, acts[4])
  {
    assert Run(m, plan, terminals, acts, 1) == Next(m, plan, terminals, acts[0]);
    assert Run(m, plan, terminals, acts, 3) == Next(Run(m, plan, terminals, acts, 2), plan, terminals, acts[2]);
  }

  lemma CreatedOnce(m: Mission, plan: Plan, terminals: seq<string>, step: string)
    requires step in plan && Judge(m, plan, step, false) == ReadyNow
    ensures Of(m, step) == [] && Next(m, plan, terminals, CreateAttempt(step)) == m.(attempts := m.attempts[step := [FRESH]])
  {
    ReadyIff(m, plan, step, false);
    assert [] + [FRESH] == [FRESH];
  }

  lemma LocalOnce(m: Mission, plan: Plan, terminals: seq<string>, step: string)
    requires step in plan && plan[step].local && Judge(m, plan, step, false) == ReadyNow
    ensures Of(m, step) == []
    ensures Run(m, plan, terminals, ActionsOf(plan, step, AsBlocked), 5) == StepOnce(m, plan, step, AsBlocked)
  {
    CreatedOnce(m, plan, terminals, step);
    LocalSaves(Next(m, plan, terminals, CreateAttempt(step)), plan, terminals, step);
    RunOfFive(m, plan, terminals, ActionsOf(plan, step, AsBlocked));
    assert [] + [FRESH.(state := Completed)] == [FRESH.(state := Completed)];
  }

  lemma ScheduledOnce(m: Mission, plan: Plan, terminals: seq<string>, step: string, outcome: Scheduled)
    requires step in plan && !plan[step].local && Of(m, step) == []
    ensures Next(m.(attempts := m.attempts[step := [FRESH]]), plan, terminals, Schedule(step, 0, outcome))
      == StepOnce(m, plan, step, outcome)
  {
    assert [] + [FRESH] == [FRESH] && [FRESH][0 := FRESH.(state := WaitingHuman)] == [] + [FRESH.(state := WaitingHuman)];
    assert [FRESH][0 := FRESH.(state := Blocked)] == [] + [FRESH.(state := Blocked)];
  }

  lemma ExternalOnce(m: Mission, plan: Plan, terminals: seq<string>, step: string, outcome: Scheduled)
    requires step in plan && !plan[step].local && Judge(m, plan, step, false) == ReadyNow
    ensures Of(m, step) == []
    ensures Run(m, plan, terminals, ActionsOf(plan, step, outcome), 2) == StepOnce(m, plan, step, outcome)
  {
    var acts := ActionsOf(plan, step, outcome);
    CreatedOnce(m, plan, terminals, step);
    assert Run(m, plan, terminals, acts, 1) == Next(m, plan, terminals, CreateAttempt(step));
    ScheduledOnce(m, plan, terminals, step, outcome);
  }

  /** Attempting a step is a run of the mission's own actions. */
  lemma StepOnceIsRun(m: Mission, plan: Plan, terminals: seq<string>, step: string, outcome: Scheduled)
    requires step in plan && Judge(m, plan, step, false) == ReadyNow
    ensures Of(m, step) == []
    ensures Run(m, plan, terminals, ActionsOf(plan, step, outcome), |ActionsOf(plan, step, outcome)|) == StepOnce(m, plan, step, outcome)
  {
    if plan[step].local {
      LocalOnce(m, plan, terminals, step);
    } else {
      ExternalOnce(m, plan, terminals, step, outcome);
    }
  }

  /** Running one step changes no other step, completes it exactly when it is local, and enables no other
      step unless it is local. */
  lemma StepOnceFacts(m: Mission, plan: Plan, step: string, outcome: Scheduled, other: string)
    requires step in plan && Of(m, step) == [] && other != step
    ensures var next := StepOnce(m, plan, step, outcome);
      && Of(next, step) != [] && Of(next, other) == Of(m, other)
      && (IsCompleted(next, step) <==> plan[step].local)
      && (IsCompleted(next, other) <==> IsCompleted(m, other))
      && m.handoffs <= next.handoffs && (!plan[step].local ==> next.handoffs == m.handoffs) && next.run == m.run
  {
    var next := StepOnce(m, plan, step, outcome);
    assert Of(next, step) == [Of(next, step)[0]];
    if plan[step].local {
      assert Of(next, step)[0].state == Completed;
    }
  }

  lemma StepOnceKeepsReady(m: Mission, plan: Plan, step: string, outcome: Scheduled, other: string)
    requires step in plan && other in plan && Of(m, step) == [] && other != step
    requires Enabled(m, plan, other)
    ensures Enabled(StepOnce(m, plan, step, outcome), plan, other)
  {
    StepOnceFacts(m, plan, step, outcome, other);
    var next := StepOnce(m, plan, step, outcome);
    forall d | d in plan[other].dependsOn ensures IsCompleted(next, d) {
      assert IsCompleted(m, d);
      StepOnceFacts(m, plan, step, outcome, d);
    }
  }

  lemma ExternalEnablesNothing(m: Mission, plan: Plan, step: string, outcome: Scheduled, other: string)
    requires step in plan && other in plan && Of(m, step) == [] && !plan[step].local
    requires Enabled(StepOnce(m, plan, step, outcome), plan, other)
    ensures Enabled(m, plan, other)
  {
    var next := StepOnce(m, plan, step, outcome);
    assert Of(next, step) != [];
    StepOnceFacts(m, plan, step, outcome, other);
    forall d | d in plan[other].dependsOn ensures IsCompleted(m, d) {
      assert IsCompleted(next, d);
      if d != step {
        StepOnceFacts(m, plan, step, outcome, d);
      }
    }
  }

  // ---------------------------------------------------------------- plans of local steps

  /** Input `j` of the step carries the name and is an output that some dependency declares. */
  predicate Feeds(plan: Plan, step: string, name: string, j: int)
    requires step in plan
  {
    && 0 <= j < |plan[step].inputs| && plan[step].inputs[j].name == name && plan[step].inputs[j].source.Some?
    && var (source, output) := plan[step].inputs[j].source.value;
       source in plan[step].dependsOn && source in plan && output in plan[source].outputs
  }

  ghost predicate Supplied(plan: Plan, step: string, name: string) {
    step in plan && exists j :: Feeds(plan, step, name, j)
  }

  ghost predicate AllSupplied(plan: Plan, step: string)
    requires step in plan
  {
    forall i :: 0 <= i < |plan[step].inputs| ==> Supplied(plan, step, plan[step].inputs[i].name)
  }

  /** An attempted step is completed, its inputs were recorded, and its handoffs are. */
  predicate LocalStep(m: Mission, plan: Plan, step: string) {
    step in plan && Of(m, step) != [] ==>
      IsCompleted(m, step) && InputsRecorded(m, plan, step) && HandoffsFrom(plan, step) <= m.handoffs
  }

  ghost predicate LocalInv(m: Mission, plan: Plan) {
    && (forall s :: s in plan ==> plan[s].local)
    && (forall s {:trigger LocalStep(m, plan, s)} :: LocalStep(m, plan, s))
    && (forall h :: h in m.handoffs ==> Supplied(plan, h.0, h.1))
  }

  lemma StepOnceKeepsLocal(m: Mission, plan: Plan, step: string, outcome: Scheduled)
    requires LocalInv(m, plan) && step in plan && Enabled(m, plan, step)
    ensures LocalInv(StepOnce(m, plan, step, outcome), plan)
  {
    var next := StepOnce(m, plan, step, outcome);
    forall s {:trigger LocalStep(next, plan, s)} ensures LocalStep(next, plan, s) {
      assert LocalStep(m, plan, s);
      if s != step {
        StepOnceFacts(m, plan, step, outcome, s);
      } else {
        StepOnceFacts(m, plan, step, outcome, step + "'");
      }
    }
    forall h | h in next.handoffs && h !in m.handoffs ensures Supplied(plan, h.0, h.1) {
      var i :| 0 <= i < |plan[h.0].inputs| && plan[h.0].inputs[i].name == h.1 && Feeds(plan, h.0, h.1, i);
    }
  }

  /** What the loop needs to know about running one enabled step. */
  lemma StepOnceAll(m: Mission, plan: Plan, step: string, outcome: Scheduled)
    requires step in plan && Enabled(m, plan, step)
    ensures var next := StepOnce(m, plan, step, outcome);
      && Of(next, step) != [] && (forall s :: s != step ==> Of(next, s) == Of(m, s))
      && (forall s :: s in plan && s != step && Enabled(m, plan, s) ==> Enabled(next, plan, s))
      && (!plan[step].local ==> forall s :: s in plan && Enabled(next, plan, s) ==> Enabled(m, plan, s))
      && (LocalInv(m, plan) ==> LocalInv(next, plan))
  {
    var next := StepOnce(m, plan, step, outcome);
    forall s | s != step ensures Of(next, s) == Of(m, s) {
      StepOnceFacts(m, plan, step, outcome, s);
    }
    forall s | s in plan && s != step && Enabled(m, plan, s) ensures Enabled(next, plan, s) {
      StepOnceKeepsReady(m, plan, step, outcome, s);
    }
    if !plan[step].local {
      forall s | s in plan && Enabled(next, plan, s) ensures Enabled(m, plan, s) {
        ExternalEnablesNothing(m, plan, step, outcome, s);
      }
    }
    if LocalInv(m, plan) {
      StepOnceKeepsLocal(m, plan, step, outcome);
    }
  }

  /** A pass that began in `start` has attempted the first `i` of the steps that were ready. */
  ghost predicate MidPass(start: Mission, m: Mission, plan: Plan, ready: seq<string>, i: nat, progressed: bool) {
    && i <= |ready| && m.run == Running
    && (forall s :: Of(start, s) != [] ==> Of(m, s) == Of(start, s))
    && (forall j :: 0 <= j < i ==> Of(m, ready[j]) != [])
    && (forall j :: i <= j < |ready| ==> ready[j] in plan && Enabled(m, plan, ready[j]))
    && (progressed ==> i > 0)
    && (!progressed ==> forall s :: s in plan && Enabled(m, plan, s) ==> Enabled(start, plan, s))
    && (LocalInv(start, plan) ==> LocalInv(m, plan))
  }

  lemma MidPassStep(start: Mission, m: Mission, plan: Plan, ready: seq<string>, i: nat, progressed: bool, outcome: Scheduled)
    requires MidPass(start, m, plan, ready, i, progressed) && i < |ready| && Distinct(ready)
    ensures MidPass(start, StepOnce(m, plan, ready[i], outcome), plan, ready, i + 1, progressed || plan[ready[i]].local)
  {
    StepOnceAll(m, plan, ready[i], outcome);
    forall j | i < j < |ready| ensures ready[j] != ready[i] {
      assert DifferAt(ready, i, j);
    }
  }

  lemma RunStateIsIrrelevant(m: Mission, next: Mission, plan: Plan)
    requires next == m.(run := next.run)
    ensures forall s :: Of(next, s) == Of(m, s) && (IsCompleted(next, s) <==> IsCompleted(m, s))
    ensures forall s :: s in plan ==> (Enabled(next, plan, s) <==> Enabled(m, plan, s))
    ensures LocalInv(m, plan) ==> LocalInv(next, plan)
  {
    if LocalInv(m, plan) {
      forall s {:trigger LocalStep(next, plan, s)} ensures LocalStep(next, plan, s) {
        assert LocalStep(m, plan, s);
      }
    }
  }

  // ---------------------------------------------------------------- the evaluation loop

  class Evaluator {
    const plan: Plan
    const stepIds: seq<string>
    const terminals: seq<string>
    var run: RunState
    var attempts: map<string, seq<Attempt>>
    var evidence: set<string>
    var handoffs: set<(string, string)>

    ghost function Value(): Mission
      reads this
    {
      Mission(run, attempts, evidence, handoffs, {})
    }

    ghost function Untouched(): set<string>
      reads this
    {
      set s | s in plan && Of(Value(), s) == []
    }

    /** The plan's step ids, each once. */
    ghost predicate Valid() {
      (forall s :: s in plan <==> s in stepIds) && Distinct(stepIds)
    }

    constructor (plan: Plan, stepIds: seq<string>, terminals: seq<string>, run: RunState)
      requires (forall s :: s in plan <==> s in stepIds) && Distinct(stepIds)
      ensures Valid() && this.plan == plan && this.terminals == terminals && Value() == NEW_MISSION.(run := run)
    {
      this.plan, this.stepIds, this.terminals, this.run := plan, stepIds, terminals, run;
      attempts, evidence, handoffs := map[], {}, {};
    }

    method DeriveReady() returns (ready: seq<string>)
      requires Valid()
      ensures forall s :: s in ready <==> s in plan && Judge(Value(), plan, s, false) == ReadyNow
      ensures Distinct(ready)
    {
      ready := [];
      for i := 0 to |stepIds|
        invariant forall s :: s in ready <==> s in stepIds[..i] && s in plan && Judge(Value(), plan, s, false) == ReadyNow
        invariant Distinct(ready)
      {
        DistinctPrefix(stepIds, i);
        assert stepIds[..i + 1] == stepIds[..i] + [stepIds[i]];
        if Judge(Mission(run, attempts, evidence, handoffs, {}), plan, stepIds[i], false) == ReadyNow {
          DistinctExtends(ready, stepIds[i]);
          ready := ready + [stepIds[i]];
        }
      }
      assert stepIds[..|stepIds|] == stepIds;
    }

    /** Attempts one ready step, as the loop body does. */
    method AttemptStep(step: string, outcome: Scheduled)
      requires step in plan && Of(Value(), step) == []
      modifies this
      ensures Value() == StepOnce(old(Value()), plan, step, outcome)
    {
      if plan[step].local {
        evidence := evidence + {step};
        attempts := attempts[step := [] + [FRESH.(state := Completed)]];
        handoffs := handoffs + HandoffsFrom(plan, step);
      } else {
        var state := match outcome case WithGate => WaitingHuman case AsBlocked => Blocked case WithoutGate => Ready;
        attempts := attempts[step := [] + [FRESH.(state := state)]];
      }
    }

    /** One pass over the ready steps. */
    method Pass(kernel: string -> Scheduled) returns (progressed: bool)
      requires Valid() && run == Running
      modifies this
      ensures run == Running
      ensures forall s :: Of(old(Value()), s) != [] ==> Of(Value(), s) == Of(old(Value()), s)
      ensures progressed ==> exists s :: s in plan && Of(old(Value()), s) == [] && Of(Value(), s) != []
      ensures !progressed ==> forall s :: s in plan ==> !Enabled(Value(), plan, s)
      ensures old(LocalInv(Value(), plan)) ==> LocalInv(Value(), plan)
    {
      ghost var start := Value();
      var ready := DeriveReady();
      forall s | s in plan ensures s in ready <==> Enabled(start, plan, s) {
        ReadyIff(start, plan, s, false);
      }
      progressed := false;
      for i := 0 to |ready|
        invariant MidPass(start, Value(), plan, ready, i, progressed)
      {
        MidPassStep(start, Value(), plan, ready, i, progressed, kernel(ready[i]));
        AttemptStep(ready[i], kernel(ready[i]));
        progressed := progressed || plan[ready[i]].local;
      }
      if progressed {
        assert ready[0] in ready && Of(start, ready[0]) == [];
      }
    }

    /** Evaluation repeats passes until none runs a local step, and then completes the mission if it is done.
        It ends, touches no attempt that existed, and leaves no step enabled. */
    method EvaluateRun(kernel: string -> Scheduled)
      requires Valid()
      modifies this
      ensures old(run) != Running ==> Value() == old(Value())
      ensures forall s :: Of(old(Value()), s) != [] ==> Of(Value(), s) == Of(old(Value()), s)
      ensures old(run) == Running ==> forall s :: s in plan ==> !Enabled(Value(), plan, s)
      ensures old(run) == Running ==> run == if MissionDone(Value(), terminals) then RunCompleted else Running
      ensures old(LocalInv(Value(), plan)) ==> LocalInv(Value(), plan)
    {
      if run != Running {
        return;
      }
      var progressed := true;
      while progressed
        invariant run == Running
        invariant forall s :: Of(old(Value()), s) != [] ==> Of(Value(), s) == Of(old(Value()), s)
        invariant !progressed ==> forall s :: s in plan ==> !Enabled(Value(), plan, s)
        invariant old(LocalInv(Value(), plan)) ==> LocalInv(Value(), plan)
        decreases Untouched(), progressed
      {
        ghost var before, untouched := Value(), Untouched();
        progressed := Pass(kernel);
        assert forall s :: s in Untouched() ==> Of(before, s) == [];
        if progressed {
          ghost var s :| s in plan && Of(before, s) == [] && Of(Value(), s) != [];
          assert s in untouched && s !in Untouched();
        }
      }
      var value := Mission(run, attempts, evidence, handoffs, {});
      if MissionDone(value, terminals) {
        run := RunCompleted;
      }
      RunStateIsIrrelevant(value, Value(), plan);
    }
  }
}
