/**
 The scheduling loop of one mission run: it repeatedly computes a decision over the ranked candidates of
 the whole workspace, and turns it into an attempt and a worker reservation of this run.

 How mission state yields ready steps and ranked candidates is a parameter (`Missions`).
 */
module SchedulingLoop {
  import opened Common
  import Policy = SchedulingPolicy

  datatype Candidate = Candidate(
    runId: string, stepId: string, key: Policy.Key,
    requiredWorker: Option<string>, channel: Option<string>, resources: set<string>, providerOk: bool)

  datatype Worker = Worker(id: string, available: bool, channel: string)

  /** `workers` are in id order, which is the order of the source: workers that can be compatible hold no
      assignment and have a reusable session. */
  datatype Config = Config(
    workspaceId: string, runId: string, globalMax: nat, workspaceMax: nat, workers: seq<Worker>)

  /** `locks` are the reserved workers with the workspace of the reservation; `blocked` all locked resources. */
  datatype State = State(locks: map<string, string>, blocked: set<string>, attempted: set<(string, string)>)

  /** What the mission side supplies: ready steps of this run, ranked candidates of the workspace, and the kernel's answer. */
  datatype Missions = Missions(
    ready: set<(string, string)> -> set<string>, queue: set<(string, string)> -> seq<Candidate>,
    isLocal: string -> bool, kernelReserves: (string, string) -> bool, surface: string -> string)

  /** Ready steps were not attempted, steps come from a finite plan, and the queue is ranked. */
  ghost predicate Sound(cfg: Config, ms: Missions, plan: set<string>) {
    && (forall a, s :: s in ms.ready(a) ==> s in plan && (cfg.runId, s) !in a)
    && (forall a, i, j :: 0 <= i < j < |ms.queue(a)| ==> Policy.Less(ms.queue(a)[i].key, ms.queue(a)[j].key))
  }

  // ---------------------------------------------------------------- capacity and choice

  function WorkspaceLocks(locks: map<string, string>, workspaceId: string): set<string> {
    set w | w in locks && locks[w] == workspaceId
  }

  predicate HasRoom(cfg: Config, s: State) {
    |s.locks.Keys| < cfg.globalMax && |WorkspaceLocks(s.locks, cfg.workspaceId)| < cfg.workspaceMax
  }

  predicate Compatible(s: State, c: Candidate, w: Worker) {
    && w.available && w.id !in s.locks
    && (c.channel.Some? ==> c.channel.value == w.channel)
    && (c.requiredWorker.Some? ==> c.requiredWorker.value == w.id)
    && c.resources !! s.blocked
  }

  /** Worker `j` is compatible and none from `i` on before it is. */
  predicate IsFirstWorker(cfg: Config, s: State, c: Candidate, i: int, j: int) {
    && 0 <= i <= j < |cfg.workers| && Compatible(s, c, cfg.workers[j])
    && forall k :: i <= k < j ==> !Compatible(s, c, cfg.workers[k])
  }

  function FirstWorker(cfg: Config, s: State, c: Candidate, i: nat): (r: Option<nat>)
    requires i <= |cfg.workers|
    ensures r.Some? ==> i <= r.value < |cfg.workers| && IsFirstWorker(cfg, s, c, i, r.value)
    ensures r.None? ==> forall j :: i <= j < |cfg.workers| ==> !Compatible(s, c, cfg.workers[j])
    decreases |cfg.workers| - i
  {
    if i == |cfg.workers| then None
    else if Compatible(s, c, cfg.workers[i]) then Some(i)
    else FirstWorker(cfg, s, c, i + 1)
  }

  /** A candidate is eligible when there is room, its provider has capacity and some worker fits it. */
  predicate Eligible(cfg: Config, s: State, c: Candidate) {
    HasRoom(cfg, s) && c.providerOk && exists j :: 0 <= j < |cfg.workers| && Compatible(s, c, cfg.workers[j])
  }

  /** The decision: the first eligible candidate in rank order. */
  function FirstEligible(cfg: Config, s: State, q: seq<Candidate>, i: nat): (r: Option<nat>)
    requires i <= |q|
    ensures r.Some? ==> i <= r.value < |q| && Eligible(cfg, s, q[r.value]) && forall j :: i <= j < r.value ==> !Eligible(cfg, s, q[j])
    ensures r.None? ==> forall j :: i <= j < |q| ==> !Eligible(cfg, s, q[j])
    decreases |q| - i
  {
    if i == |q| then None else if Eligible(cfg, s, q[i]) then Some(i) else FirstEligible(cfg, s, q, i + 1)
  }

  /** The worker can take the candidate's step: it is available and not reserved, it is the one that is asked for and serves the
      channel that is asked for, if any, and nothing the step needs is locked. */
  predicate CanTake(s: State, c: Candidate, w: Worker) {
    && w.available && w.id !in s.locks
    && (c.requiredWorker == None || c.requiredWorker == Some(w.id))
    && (c.channel == None || c.channel == Some(w.channel))
    && forall r :: r in c.resources ==> r !in s.blocked
  }

  /** Worker `j` can take it, and none before it can. */
  predicate IsFirstTaker(cfg: Config, s: State, c: Candidate, j: int) {
    0 <= j < |cfg.workers| && CanTake(s, c, cfg.workers[j]) && forall k :: 0 <= k < j ==> !CanTake(s, c, cfg.workers[k])
  }

  /** A candidate is eligible exactly when both limits leave room, its provider has capacity, and some worker can take it. */
  lemma EligibleIff(cfg: Config, s: State, c: Candidate)
    ensures Eligible(cfg, s, c) <==>
      && |s.locks.Keys| < cfg.globalMax && |set w | w in s.locks && s.locks[w] == cfg.workspaceId| < cfg.workspaceMax
      && c.providerOk && exists j :: 0 <= j < |cfg.workers| && CanTake(s, c, cfg.workers[j])
  {
    assert WorkspaceLocks(s.locks, cfg.workspaceId) == set w | w in s.locks && s.locks[w] == cfg.workspaceId;
    forall j | 0 <= j < |cfg.workers| ensures Compatible(s, c, cfg.workers[j]) <==> CanTake(s, c, cfg.workers[j]) {
    }
  }

  /** What an assignment leaves: this run's step is attempted; unless it is a local one, or the kernel refuses, the worker is
      reserved for the workspace, and the worker and the step's surface are locked. */
  ghost predicate LeavesAssignment(cfg: Config, ms: Missions, s: State, next: State, stepId: string, worker: string) {
    && next.attempted == s.attempted + {(cfg.runId, stepId)}
    && (if !ms.isLocal(stepId) && ms.kernelReserves(worker, stepId)
        then next.locks == s.locks[worker := cfg.workspaceId] && next.blocked == s.blocked + {worker, ms.surface(stepId)}
        else next.locks == s.locks && next.blocked == s.blocked)
  }

  /** One pass of the loop: which candidate was chosen, which worker it was given, and the step that was attempted. */
  datatype Assignment = Assignment(before: State, chosen: Candidate, worker: string, stepId: string)

  function Reserve(cfg: Config, ms: Missions, s: State, stepId: string, worker: string): State {
    var next := s.(attempted := s.attempted + {(cfg.runId, stepId)});
    if ms.isLocal(stepId) || !ms.kernelReserves(worker, stepId) then next
    else next.(locks := s.locks[worker := cfg.workspaceId], blocked := s.blocked + {worker, ms.surface(stepId)})
  }

  ghost predicate Justified(cfg: Config, ms: Missions, a: Assignment) {
    var q := ms.queue(a.before.attempted);
    && a.chosen in q && Eligible(cfg, a.before, a.chosen) && a.stepId == a.chosen.stepId
    && a.stepId in ms.ready(a.before.attempted)
    && (forall d :: d in q && Eligible(cfg, a.before, d) && d != a.chosen ==> Policy.Less(a.chosen.key, d.key))
    && exists j :: IsFirstWorker(cfg, a.before, a.chosen, 0, j) && cfg.workers[j].id == a.worker
  }

  /** Every assignment gives the chosen step to the first worker, in the order of the configuration, that can take it. */
  lemma AssignedWorkerCanTake(cfg: Config, ms: Missions, a: Assignment)
    requires Justified(cfg, ms, a)
    ensures |a.before.locks.Keys| < cfg.globalMax && a.chosen.providerOk
    ensures exists j :: IsFirstTaker(cfg, a.before, a.chosen, j) && cfg.workers[j].id == a.worker
  {
    var j :| IsFirstWorker(cfg, a.before, a.chosen, 0, j) && cfg.workers[j].id == a.worker;
    forall k | 0 <= k <= j ensures Compatible(a.before, a.chosen, cfg.workers[k]) <==> CanTake(a.before, a.chosen, cfg.workers[k]) {
    }
    assert IsFirstTaker(cfg, a.before, a.chosen, j);
  }

  /** The assignment was justified when made, and its worker was free. */
  ghost predicate Sensible(cfg: Config, ms: Missions, a: Assignment) {
    Justified(cfg, ms, a) && a.worker !in a.before.locks
  }

  /** Every assignment is sensible, and no step was attempted twice or before. */
  ghost predicate GoodTrace(cfg: Config, ms: Missions, trace: seq<Assignment>, was: set<(string, string)>, now: set<(string, string)>) {
    && (forall i :: 0 <= i < |trace| ==> Sensible(cfg, ms, trace[i]) && (cfg.runId, trace[i].stepId) in now - was)
    && forall i, j :: 0 <= i < j < |trace| ==> trace[i].stepId != trace[j].stepId
  }

  lemma GoodTraceGrows(
    cfg: Config, ms: Missions, trace: seq<Assignment>, was: set<(string, string)>, now: set<(string, string)>, a: Assignment)
    requires GoodTrace(cfg, ms, trace, was, now) && was <= now && Sensible(cfg, ms, a) && (cfg.runId, a.stepId) !in now
    ensures GoodTrace(cfg, ms, trace + [a], was, now + {(cfg.runId, a.stepId)})
  {
  }

  /** Why the loop stopped: nothing of this run is ready, nothing is eligible, or the first eligible candidate
      names a step that is not ready in this run. */
  predicate Stopped(cfg: Config, ms: Missions, s: State) {
    var q := ms.queue(s.attempted);
    var first := FirstEligible(cfg, s, q, 0);
    ms.ready(s.attempted) == {} || first.None? || q[first.value].stepId !in ms.ready(s.attempted)
  }

  predicate WithinLimits(cfg: Config, s: State) {
    |s.locks.Keys| <= cfg.globalMax && |WorkspaceLocks(s.locks, cfg.workspaceId)| <= cfg.workspaceMax
  }

  predicate LocksKept(locks: map<string, string>, next: map<string, string>) {
    forall w :: w in locks ==> w in next && next[w] == locks[w]
  }

  lemma ReserveKeepsLimits(cfg: Config, ms: Missions, s: State, stepId: string, worker: string)
    requires HasRoom(cfg, s) && worker !in s.locks
    ensures WithinLimits(cfg, Reserve(cfg, ms, s, stepId, worker))
    ensures LocksKept(s.locks, Reserve(cfg, ms, s, stepId, worker).locks)
  {
    var next := Reserve(cfg, ms, s, stepId, worker);
    if next.locks != s.locks {
      assert next.locks.Keys == s.locks.Keys + {worker};
      assert WorkspaceLocks(next.locks, cfg.workspaceId) == WorkspaceLocks(s.locks, cfg.workspaceId) + {worker};
    }
  }

  /** One pass of the loop: the assignment it makes, or none when it stops. */
  function Decide(cfg: Config, ms: Missions, s: State): Option<Assignment> {
    var q := ms.queue(s.attempted);
    var first := FirstEligible(cfg, s, q, 0);
    if Stopped(cfg, ms, s) then None
    else
      var chosen := q[first.value];
      var worker := FirstWorker(cfg, s, chosen, 0);
      if worker.None? then None else Some(Assignment(s, chosen, cfg.workers[worker.value].id, chosen.stepId))
  }

  ghost function OpenSteps(cfg: Config, plan: set<string>, attempted: set<(string, string)>): set<string> {
    set s | s in plan && (cfg.runId, s) !in attempted
  }

  lemma DecideProgresses(cfg: Config, ms: Missions, plan: set<string>, s: State)
    requires Sound(cfg, ms, plan) && Decide(cfg, ms, s).Some?
    ensures var a := Decide(cfg, ms, s).value; var next := Reserve(cfg, ms, s, a.stepId, a.worker);
      && a.before == s && Justified(cfg, ms, a) && a.worker !in s.locks && (cfg.runId, a.stepId) !in s.attempted
      && a.stepId in OpenSteps(cfg, plan, s.attempted)
      && OpenSteps(cfg, plan, next.attempted) == OpenSteps(cfg, plan, s.attempted) - {a.stepId}
  {
    var first := FirstEligible(cfg, s, ms.queue(s.attempted), 0);
    FirstIsBest(cfg, ms, plan, s, first.value);
  }

  /** The state an assignment leaves behind. */
  function After(cfg: Config, ms: Missions, a: Assignment): State {
    Reserve(cfg, ms, a.before, a.stepId, a.worker)
  }

  ghost predicate DecidedAt(cfg: Config, ms: Missions, trace: seq<Assignment>, i: int)
    requires 0 <= i < |trace|
  {
    Decide(cfg, ms, trace[i].before) == Some(trace[i]) && (i + 1 < |trace| ==> trace[i + 1].before == After(cfg, ms, trace[i]))
  }

  /** The trace is what the loop does from `s`, pass by pass, and `end` is the state it has come to. */
  ghost predicate Passes(cfg: Config, ms: Missions, s: State, trace: seq<Assignment>, end: State) {
    && (forall i {:trigger DecidedAt(cfg, ms, trace, i)} :: 0 <= i < |trace| ==> DecidedAt(cfg, ms, trace, i))
    && (if trace == [] then end == s else trace[0].before == s && end == After(cfg, ms, trace[|trace| - 1]))
  }

  lemma PassOnce(cfg: Config, ms: Missions, s: State, trace: seq<Assignment>, now: State, a: Assignment)
    requires Passes(cfg, ms, s, trace, now) && Decide(cfg, ms, now) == Some(a)
    ensures Passes(cfg, ms, s, trace + [a], After(cfg, ms, a))
  {
    var more := trace + [a];
    forall i {:trigger DecidedAt(cfg, ms, more, i)} | 0 <= i < |more| ensures DecidedAt(cfg, ms, more, i) {
      if i < |trace| {
        assert DecidedAt(cfg, ms, trace, i) && more[i] == trace[i];
      }
    }
  }

  lemma NextIsDetermined(cfg: Config, ms: Missions, x: Assignment, y: Assignment)
    requires x.before == y.before && Decide(cfg, ms, x.before) == Some(x) && Decide(cfg, ms, y.before) == Some(y)
    ensures x == y
  {
  }

  /** The loop has one outcome: two traces of it from one state agree as far as both go. */
  lemma {:induction false} PassesAgree(
    cfg: Config, ms: Missions, s: State, a: seq<Assignment>, x: State, b: seq<Assignment>, y: State, i: nat)
    requires Passes(cfg, ms, s, a, x) && Passes(cfg, ms, s, b, y) && i < |a| && i < |b|
    ensures a[i] == b[i]
  {
    assert DecidedAt(cfg, ms, a, i) && DecidedAt(cfg, ms, b, i);
    if i > 0 {
      PassesAgree(cfg, ms, s, a, x, b, y, i - 1);
      BeforeOf(cfg, ms, s, a, x, i - 1);
      BeforeOf(cfg, ms, s, b, y, i - 1);
    }
    NextIsDetermined(cfg, ms, a[i], b[i]);
  }

  lemma BeforeOf(cfg: Config, ms: Missions, s: State, a: seq<Assignment>, x: State, i: nat)
    requires Passes(cfg, ms, s, a, x) && i + 1 < |a|
    ensures a[i + 1].before == After(cfg, ms, a[i])
  {
    assert DecidedAt(cfg, ms, a, i);
  }

  class Scheduler {
    const cfg: Config
    var locks: map<string, string>
    var blocked: set<string>
    var attempted: set<(string, string)>

    constructor (cfg: Config, s: State)
      ensures this.cfg == cfg && Value() == s
    {
      this.cfg := cfg;
      locks, blocked, attempted := s.locks, s.blocked, s.attempted;
    }

    function Value(): State
      reads this
    {
      State(locks, blocked, attempted)
    }

    /** One pass: decide, and turn the decision into an attempt and a reservation, or stop. */
    method AssignNext(ms: Missions, ghost plan: set<string>) returns (a: Option<Assignment>)
      requires Sound(cfg, ms, plan) && WithinLimits(cfg, Value())
      modifies this
      ensures a == Decide(cfg, ms, old(Value()))
      ensures a.None? ==> Value() == old(Value()) && Stopped(cfg, ms, Value())
      ensures a.Some? ==>
        && a.value.before == old(Value()) && Justified(cfg, ms, a.value) && a.value.worker !in old(locks)
        && Value() == Reserve(cfg, ms, old(Value()), a.value.stepId, a.value.worker)
        && LeavesAssignment(cfg, ms, old(Value()), Value(), a.value.stepId, a.value.worker)
        && WithinLimits(cfg, Value()) && LocksKept(old(locks), locks)
    {
      if ms.ready(attempted) == {} {
        return None;
      }
      var queue := ms.queue(attempted);
      var first := FirstEligible(cfg, Value(), queue, 0);
      if first.None? || queue[first.value].stepId !in ms.ready(attempted) {
        return None;
      }
      var chosen := queue[first.value];
      var j := FirstWorker(cfg, Value(), chosen, 0);
      var worker := cfg.workers[j.value].id;
      FirstIsBest(cfg, ms, plan, Value(), first.value);
      ReserveKeepsLimits(cfg, ms, Value(), chosen.stepId, worker);
      a := Some(Assignment(Value(), chosen, worker, chosen.stepId));
      attempted := attempted + {(cfg.runId, chosen.stepId)};
      if !ms.isLocal(chosen.stepId) && ms.kernelReserves(worker, chosen.stepId) {
        locks := locks[worker := cfg.workspaceId];
        blocked := blocked + {worker, ms.surface(chosen.stepId)};
      }
    }

    /** The loop ends; it never exceeds a limit, never gives away a reserved worker, attempts no step twice, and
        every assignment goes to the first ranked eligible candidate and its first compatible worker. */
    method EvaluateRun(ms: Missions, ghost plan: set<string>) returns (trace: seq<Assignment>)
      requires Sound(cfg, ms, plan) && WithinLimits(cfg, Value())
      modifies this
      ensures WithinLimits(cfg, Value()) && Stopped(cfg, ms, Value())
      ensures LocksKept(old(locks), locks) && old(attempted) <= attempted
      ensures GoodTrace(cfg, ms, trace, old(attempted), attempted)
      ensures Passes(cfg, ms, old(Value()), trace, Value()) && Decide(cfg, ms, Value()).None?
    {
      trace := [];
      var going := true;
      while going
        invariant WithinLimits(cfg, Value()) && LocksKept(old(locks), locks) && old(attempted) <= attempted
        invariant going || Stopped(cfg, ms, Value())
        invariant GoodTrace(cfg, ms, trace, old(attempted), attempted)
        invariant going || Decide(cfg, ms, Value()).None?
        invariant Passes(cfg, ms, old(Value()), trace, Value())
        decreases OpenSteps(cfg, plan, attempted), going
      {
        ghost var before, was := attempted, Value();
        var a := AssignNext(ms, plan);
        if a.None? {
          going := false;
        } else {
          DecideProgresses(cfg, ms, plan, was);
          GoodTraceGrows(cfg, ms, trace, old(attempted), before, a.value);
          PassOnce(cfg, ms, old(Value()), trace, was, a.value);
          trace := trace + [a.value];
        }
      }
    }
  }

  lemma FirstIsBest(cfg: Config, ms: Missions, plan: set<string>, s: State, i: nat)
    requires Sound(cfg, ms, plan)
    requires var q := ms.queue(s.attempted); FirstEligible(cfg, s, q, 0) == Some(i)
    ensures var q := ms.queue(s.attempted);
      && i < |q|
      && forall d :: d in q && Eligible(cfg, s, d) && d != q[i] ==> Policy.Less(q[i].key, d.key)
  {
    var q := ms.queue(s.attempted);
    forall d | d in q && Eligible(cfg, s, d) && d != q[i] ensures Policy.Less(q[i].key, d.key) {
      var j :| 0 <= j < |q| && q[j] == d;
    }
  }

  // ---------------------------------------------------------------- other runs in the same workspace

  predicate OwnEligible(cfg: Config, ms: Missions, s: State, c: Candidate) {
    c in ms.queue(s.attempted) && c.runId == cfg.runId && c.stepId in ms.ready(s.attempted) && Eligible(cfg, s, c)
  }

  /** The loop stops with eligible work of its own left over exactly when the first eligible candidate of the
      workspace names a step that is not ready in this run. */
  lemma LeavesOwnWorkIff(cfg: Config, ms: Missions, s: State, own: Candidate)
    requires OwnEligible(cfg, ms, s, own)
    ensures Stopped(cfg, ms, s) <==>
      var q := ms.queue(s.attempted); var first := FirstEligible(cfg, s, q, 0);
      first.Some? && q[first.value].stepId !in ms.ready(s.attempted)
  {
    var q := ms.queue(s.attempted);
    var i :| 0 <= i < |q| && q[i] == own;
  }

  /** When all candidates of the workspace are ready steps of this run, it stops only when none is eligible. */
  lemma AloneStopsWhenNothingEligible(cfg: Config, ms: Missions, s: State)
    requires Stopped(cfg, ms, s)
    requires forall c :: c in ms.queue(s.attempted) ==> c.runId == cfg.runId && c.stepId in ms.ready(s.attempted)
    ensures forall c :: c in ms.queue(s.attempted) ==> !Eligible(cfg, s, c)
  {
    var q := ms.queue(s.attempted);
    forall c | c in q ensures !Eligible(cfg, s, c) {
      var i :| 0 <= i < |q| && q[i] == c;
    }
  }

  /** Steps are looked up by id only. The attempt that an assignment creates is the chosen candidate's own exactly
      when that candidate belongs to this run; otherwise this run's step of the same id is attempted with a worker
      that was chosen for the other run. */
  lemma AttemptsChosenIff(cfg: Config, ms: Missions, a: Assignment)
    requires Justified(cfg, ms, a) && forall c :: c in ms.queue(a.before.attempted) ==> (c.runId, c.stepId) !in a.before.attempted
    ensures var next := Reserve(cfg, ms, a.before, a.stepId, a.worker);
      && ((a.chosen.runId, a.chosen.stepId) in next.attempted <==> a.chosen.runId == cfg.runId)
      && next.attempted == a.before.attempted + {(cfg.runId, a.chosen.stepId)}
  {
  }

  // ---------------------------------------------------------------- the failing runs

  const TWO_WORKERS := [Worker("w1", true, "chrome"), Worker("w2", true, "chrome")]

  const RUN_A := Config("ws", "a", 2, 2, TWO_WORKERS)

  const IDLE := State(map[], {}, {})

  /** Run "a" has one step, which asks for worker "w2"; run "b" is ahead with a step that asks for worker "w1". */
  function Ours(): Candidate {
    Candidate("a", "step", Policy.Key(1, 0, 0, 0, 0, "a"), Some("w2"), None, {}, true)
  }

  function Theirs(stepId: string): Candidate {
    Candidate("b", stepId, Policy.Key(0, 0, 0, 0, 0, "b"), Some("w1"), None, {}, true)
  }

  function TwoRuns(theirStep: string): Missions {
    Missions(
      attempted => if ("a", "step") in attempted then {} else {"step"},
      attempted => if ("a", "step") in attempted then [Theirs(theirStep)] else [Theirs(theirStep), Ours()],
      step => false, (worker, step) => true, step => "surface")
  }

  lemma TwoRunsAreSound(theirStep: string)
    ensures Sound(RUN_A, TwoRuns(theirStep), {"step"})
    ensures FirstEligible(RUN_A, IDLE, [Theirs(theirStep), Ours()], 0) == Some(0)
    ensures FirstWorker(RUN_A, IDLE, Theirs(theirStep), 0) == Some(0) && Eligible(RUN_A, IDLE, Ours())
    ensures !Compatible(IDLE, Ours(), TWO_WORKERS[0])
  {
    assert WorkspaceLocks(IDLE.locks, "ws") == {} && IDLE.locks.Keys == {};
    assert Compatible(IDLE, Theirs(theirStep), TWO_WORKERS[0]) && Compatible(IDLE, Ours(), TWO_WORKERS[1]);
  }

  function Reserved(): State {
    State(map["w1" := "ws"], {"w1", "surface"}, {("a", "step")})
  }

  function OnTheirWorker(): Assignment {
    Assignment(IDLE, Theirs("step"), "w1", "step")
  }

  lemma WrongWorkerPass()
    ensures Decide(RUN_A, TwoRuns("step"), IDLE) == Some(OnTheirWorker())
  {
    TwoRunsAreSound("step");
  }

  lemma WrongWorkerReserves()
    ensures After(RUN_A, TwoRuns("step"), OnTheirWorker()) == Reserved()
  {
  }

  lemma NothingLeft()
    ensures Decide(RUN_A, TwoRuns("step"), Reserved()).None?
  {
    assert TwoRuns("step").ready(Reserved().attempted) == {};
  }

  /** With a step of the same id in both runs, the loop of run "a" attempts its own step on worker "w1", which was
      chosen for run "b" and is not compatible with it, and then ends. */
  lemma WrongWorkerExample()
    ensures Sound(RUN_A, TwoRuns("step"), {"step"})
    ensures Passes(RUN_A, TwoRuns("step"), IDLE, [OnTheirWorker()], Reserved())
    ensures Decide(RUN_A, TwoRuns("step"), Reserved()).None? && !Compatible(IDLE, Ours(), TWO_WORKERS[0])
  {
    TwoRunsAreSound("step");
    WrongWorkerPass();
    WrongWorkerReserves();
    NothingLeft();
    PassOnce(RUN_A, TwoRuns("step"), IDLE, [], IDLE, OnTheirWorker());
    assert [] + [OnTheirWorker()] == [OnTheirWorker()];
  }

  /** With another step ahead in run "b", the loop of run "a" stops at once, although its own step is eligible. */
  lemma StopsWithOwnWork()
    ensures Sound(RUN_A, TwoRuns("other"), {"step"})
    ensures Passes(RUN_A, TwoRuns("other"), IDLE, [], IDLE) && Decide(RUN_A, TwoRuns("other"), IDLE).None?
    ensures OwnEligible(RUN_A, TwoRuns("other"), IDLE, Ours())
  {
    TwoRunsAreSound("other");
    assert Ours() == [Theirs("other"), Ours()][1];
  }
}
