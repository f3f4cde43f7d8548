/**
 The scheduling loop over real missions: what is ready is what the mission orchestrator judges ready, and the queue
 is the ranking of the ready steps of every running mission of the workspace.
 */
module SchedulingMissions {
  import opened Common
  import opened Lists
  import opened M = Mission
  import opened MissionProgress
  import Policy = SchedulingPolicy
  import Loop = SchedulingLoop

  /** One mission as the loop finds it. */
  datatype View = View(plan: Plan, state: M.Mission, since: int)

  /** What a step asks of a worker; `admitted` sums up the authority and resource checks of candidate derivation. */
  datatype Wish = Wish(
    priority: Policy.Priority, worker: Option<string>, channel: Option<string>, resources: set<string>,
    providerOk: bool, admitted: bool)

  /** `pairs` lists every run with every step of its plan; candidate ids are derived from run and step, and `source`
      finds the record of an id. */
  datatype Workspace = Workspace(
    id: string, policy: Policy.Policy, now: int, activeCount: nat, views: map<string, View>,
    pairs: seq<(string, string)>, wish: (string, string) -> Wish, candidateId: (string, string) -> string,
    source: string -> (string, string), kernelReserves: (string, string) -> bool, surface: string -> string)

  ghost predicate Consistent(w: Workspace) {
    && Policy.ValidPolicy(w.policy)
    && (forall i :: 0 <= i < |w.pairs| ==> w.pairs[i].0 in w.views && w.pairs[i].1 in w.views[w.pairs[i].0].plan)
    && (forall i, j :: 0 <= i < j < |w.pairs| ==> w.pairs[i] != w.pairs[j])
    && (forall run, step :: w.source(w.candidateId(run, step)) == (run, step))
  }

  // ---------------------------------------------------------------- missions while the loop works

  predicate CompletedAt(v: View, run: string, attempted: set<(string, string)>, step: string) {
    IsCompleted(v.state, step) || (step in v.plan && v.plan[step].local && Fresh(v, run, attempted, step))
  }

  /** The step's first attempt is one that the loop made. */
  predicate Fresh(v: View, run: string, attempted: set<(string, string)>, step: string) {
    Of(v.state, step) == [] && (run, step) in attempted
  }

  predicate HandedAt(v: View, run: string, attempted: set<(string, string)>, h: (string, string)) {
    h in v.state.handoffs || exists s :: s in v.plan && v.plan[s].local && Fresh(v, run, attempted, s) && h in HandoffsFrom(v.plan, s)
  }

  /** The mission is the one the loop found, with the first attempts of the given steps made since. */
  ghost predicate Reflects(m: M.Mission, v: View, run: string, attempted: set<(string, string)>) {
    && m.run == v.state.run
    && (forall s :: s in v.plan ==> (Of(m, s) == [] <==> Of(v.state, s) == [] && (run, s) !in attempted))
    && (forall s {:trigger IsCompleted(m, s)} :: IsCompleted(m, s) <==> CompletedAt(v, run, attempted, s))
    && (forall h {:trigger h in m.handoffs} :: h in m.handoffs <==> HandedAt(v, run, attempted, h))
  }

  /** A step of the mission is ready after the given attempts. */
  predicate ReadyAt(v: View, run: string, attempted: set<(string, string)>, step: string)
    requires step in v.plan
  {
    && v.state.run == Running && Of(v.state, step) == [] && (run, step) !in attempted
    && (forall d :: d in v.plan[step].dependsOn ==> CompletedAt(v, run, attempted, d))
    && forall i :: 0 <= i < |v.plan[step].inputs| ==> HandedAt(v, run, attempted, (step, v.plan[step].inputs[i].name))
  }

  /** That is exactly what the orchestrator judges of the mission at that moment. */
  lemma ReadyAtIsJudged(m: M.Mission, v: View, run: string, attempted: set<(string, string)>, step: string)
    requires Reflects(m, v, run, attempted) && step in v.plan
    ensures ReadyAt(v, run, attempted, step) <==> Judge(m, v.plan, step, false) == ReadyNow
  {
    ReadyIff(m, v.plan, step, false);
  }

  lemma FoundReflects(v: View, run: string, attempted: set<(string, string)>)
    requires forall s :: s in v.plan && (run, s) in attempted ==> Of(v.state, s) != []
    ensures Reflects(v.state, v, run, attempted)
  {
  }

  /** Attempting a ready step, as the mission does it, keeps the two in step. */
  lemma AttemptReflects(m: M.Mission, v: View, run: string, attempted: set<(string, string)>, step: string, outcome: Scheduled)
    requires Reflects(m, v, run, attempted) && step in v.plan && ReadyAt(v, run, attempted, step)
    ensures Of(m, step) == [] && Reflects(StepOnce(m, v.plan, step, outcome), v, run, attempted + {(run, step)})
  {
    var next := StepOnce(m, v.plan, step, outcome);
    var more := attempted + {(run, step)};
    forall s ensures IsCompleted(next, s) <==> CompletedAt(v, run, more, s) {
      if s != step {
        StepOnceFacts(m, v.plan, step, outcome, s);
      } else {
        StepOnceFacts(m, v.plan, step, outcome, step + "'");
      }
      assert IsCompleted(m, s) <==> CompletedAt(v, run, attempted, s);
    }
    forall s | s in v.plan ensures Of(next, s) == [] <==> Of(v.state, s) == [] && (run, s) !in more {
      if s != step {
        StepOnceFacts(m, v.plan, step, outcome, s);
      } else {
        StepOnceFacts(m, v.plan, step, outcome, step + "'");
      }
    }
    forall h ensures h in next.handoffs <==> HandedAt(v, run, more, h) {
      HandoffsAfter(m, v, run, attempted, step, outcome, h);
    }
  }

  lemma HandoffsAfter(
    m: M.Mission, v: View, run: string, attempted: set<(string, string)>, step: string, outcome: Scheduled, h: (string, string))
    requires Reflects(m, v, run, attempted) && step in v.plan && ReadyAt(v, run, attempted, step)
    ensures Of(m, step) == []
    ensures h in StepOnce(m, v.plan, step, outcome).handoffs <==> HandedAt(v, run, attempted + {(run, step)}, h)
  {
    var more := attempted + {(run, step)};
    assert h in m.handoffs <==> HandedAt(v, run, attempted, h);
    forall s ensures Fresh(v, run, more, s) <==> Fresh(v, run, attempted, s) || s == step {
    }
  }

  lemma OthersReflect(m: M.Mission, v: View, run: string, attempted: set<(string, string)>, pair: (string, string))
    requires Reflects(m, v, run, attempted) && pair.0 != run
    ensures Reflects(m, v, run, attempted + {pair})
  {
    var more := attempted + {pair};
    assert forall s :: Fresh(v, run, more, s) <==> Fresh(v, run, attempted, s);
    forall s ensures IsCompleted(m, s) <==> CompletedAt(v, run, more, s) {
      assert IsCompleted(m, s) <==> CompletedAt(v, run, attempted, s);
    }
    forall h ensures h in m.handoffs <==> HandedAt(v, run, more, h) {
      assert h in m.handoffs <==> HandedAt(v, run, attempted, h);
    }
  }

  // ---------------------------------------------------------------- the queue

  predicate Offered(w: Workspace, attempted: set<(string, string)>, pair: (string, string)) {
    && pair.0 in w.views && pair.1 in w.views[pair.0].plan
    && ReadyAt(w.views[pair.0], pair.0, attempted, pair.1) && w.wish(pair.0, pair.1).admitted
  }

  function CandidateOf(w: Workspace, pair: (string, string)): Policy.Candidate {
    Policy.Candidate(w.candidateId(pair.0, pair.1), w.id, true, w.wish(pair.0, pair.1).priority,
                     if pair.0 in w.views then w.views[pair.0].since else 0, false)
  }

  function OfferedPairs(w: Workspace, attempted: set<(string, string)>): seq<(string, string)> {
    Keep(w.pairs, pair => Offered(w, attempted, pair))
  }

  function Candidates(w: Workspace, attempted: set<(string, string)>): seq<Policy.Candidate> {
    var pairs := OfferedPairs(w, attempted);
    seq(|pairs|, i requires 0 <= i < |pairs| => CandidateOf(w, pairs[i]))
  }

  /** A ranked candidate with what its source record says about workers. */
  function Queued(w: Workspace, e: Policy.Entry): Loop.Candidate {
    var (run, step) := w.source(e.candidate.id);
    var wish := w.wish(run, step);
    Loop.Candidate(run, step, e.key, wish.worker, wish.channel, wish.resources, wish.providerOk)
  }

  function Queue(w: Workspace, attempted: set<(string, string)>): seq<Loop.Candidate>
    requires Policy.ValidPolicy(w.policy)
  {
    var ranked := Policy.Ranked(w.policy, Candidates(w, attempted), w.now, w.activeCount);
    seq(|ranked|, i requires 0 <= i < |ranked| => Queued(w, ranked[i]))
  }

  function ReadySteps(w: Workspace, run: string, attempted: set<(string, string)>): set<string> {
    if run !in w.views then {}
    else set s | s in w.views[run].plan && ReadyAt(w.views[run], run, attempted, s)
  }

  function MissionsOf(w: Workspace, run: string): Loop.Missions
    requires Policy.ValidPolicy(w.policy)
  {
    Loop.Missions(
      attempted => ReadySteps(w, run, attempted), attempted => Queue(w, attempted),
      step => run in w.views && step in w.views[run].plan && w.views[run].plan[step].local, w.kernelReserves, w.surface)
  }

  lemma CandidatesAreDistinct(w: Workspace, attempted: set<(string, string)>)
    requires Consistent(w)
    ensures var cs := Candidates(w, attempted); forall i, j :: 0 <= i < j < |cs| ==> cs[i].id != cs[j].id
  {
    var pairs := OfferedPairs(w, attempted);
    var keep := (pair: (string, string)) => Offered(w, attempted, pair);
    forall i, j | 0 <= i < j < |pairs| ensures CandidateOf(w, pairs[i]).id != CandidateOf(w, pairs[j]).id {
      var a := KeptFrom(w.pairs, |w.pairs|, keep, i);
      var b := KeptFrom(w.pairs, |w.pairs|, keep, j);
      assert a != b;
      assert w.source(w.candidateId(pairs[i].0, pairs[i].1)) == (pairs[i].0, pairs[i].1);
      assert w.source(w.candidateId(pairs[j].0, pairs[j].1)) == (pairs[j].0, pairs[j].1);
      assert w.pairs[a] != w.pairs[b];
    }
  }

  /** What stands in the queue is offered, and its key is the one the ranking policy gives it. */
  lemma QueuedIsOffered(w: Workspace, attempted: set<(string, string)>, c: Loop.Candidate)
    requires Consistent(w) && c in Queue(w, attempted)
    ensures (c.runId, c.stepId) in w.pairs && Offered(w, attempted, (c.runId, c.stepId))
    ensures c.key == Policy.KeyOf(w.policy, CandidateOf(w, (c.runId, c.stepId)), w.now, w.activeCount)
  {
    var cs := Candidates(w, attempted);
    var ranked := Policy.Ranked(w.policy, cs, w.now, w.activeCount);
    var keep := (pair: (string, string)) => Offered(w, attempted, pair);
    CandidatesAreDistinct(w, attempted);
    Policy.RankedIsTheRanking(w.policy, cs, w.now, w.activeCount);
    var k :| 0 <= k < |ranked| && Queued(w, ranked[k]) == c;
    assert ranked[k] in ranked;
    var i :| 0 <= i < |cs| && ranked[k] == Policy.EntryOf(w.policy, cs[i], w.now, w.activeCount);
    var pair := OfferedPairs(w, attempted)[i];
    KeepHolds(w.pairs, keep);
    assert pair in OfferedPairs(w, attempted);
    assert w.source(w.candidateId(pair.0, pair.1)) == (pair.0, pair.1);
  }

  /** Everything that is offered stands in the queue. */
  lemma OfferedIsQueued(w: Workspace, attempted: set<(string, string)>, pair: (string, string)) returns (c: Loop.Candidate)
    requires Consistent(w) && pair in w.pairs && Offered(w, attempted, pair)
    ensures c in Queue(w, attempted) && (c.runId, c.stepId) == pair
  {
    var cs := Candidates(w, attempted);
    var ranked := Policy.Ranked(w.policy, cs, w.now, w.activeCount);
    var keep := (p: (string, string)) => Offered(w, attempted, p);
    CandidatesAreDistinct(w, attempted);
    Policy.RankedIsTheRanking(w.policy, cs, w.now, w.activeCount);
    KeepHolds(w.pairs, keep);
    var i :| 0 <= i < |OfferedPairs(w, attempted)| && OfferedPairs(w, attempted)[i] == pair;
    var e := Policy.EntryOf(w.policy, cs[i], w.now, w.activeCount);
    assert e in ranked;
    var k :| 0 <= k < |ranked| && ranked[k] == e;
    assert w.source(w.candidateId(pair.0, pair.1)) == (pair.0, pair.1);
    c := Queue(w, attempted)[k];
  }

  /** Real missions and the real ranking meet what the scheduling loop asks of them. */
  lemma MissionsAreSound(w: Workspace, cfg: Loop.Config)
    requires Consistent(w)
    ensures Loop.Sound(cfg, MissionsOf(w, cfg.runId), if cfg.runId in w.views then w.views[cfg.runId].plan.Keys else {})
  {
    var ms := MissionsOf(w, cfg.runId);
    forall attempted, i, j | 0 <= i < j < |ms.queue(attempted)|
      ensures Policy.Less(ms.queue(attempted)[i].key, ms.queue(attempted)[j].key) {
      CandidatesAreDistinct(w, attempted);
      Policy.RankedIsTheRanking(w.policy, Candidates(w, attempted), w.now, w.activeCount);
    }
  }

  /** A step of the workspace stands in the queue exactly when the orchestrator judges it ready and it is admitted. */
  lemma QueueHoldsIff(w: Workspace, run: string, m: M.Mission, attempted: set<(string, string)>, step: string)
    requires Consistent(w) && (run, step) in w.pairs && run in w.views && step in w.views[run].plan
    requires Reflects(m, w.views[run], run, attempted)
    ensures (exists c :: c in Queue(w, attempted) && (c.runId, c.stepId) == (run, step)) <==>
      Judge(m, w.views[run].plan, step, false) == ReadyNow && w.wish(run, step).admitted
  {
    ReadyAtIsJudged(m, w.views[run], run, attempted, step);
    if Offered(w, attempted, (run, step)) {
      var c := OfferedIsQueued(w, attempted, (run, step));
    }
    forall c | c in Queue(w, attempted) ensures Offered(w, attempted, (c.runId, c.stepId)) {
      QueuedIsOffered(w, attempted, c);
    }
  }

  /** What the loop asks of its own mission is what the orchestrator says of it: which steps are ready, and which are local. */
  lemma LoopAsksMission(w: Workspace, run: string, m: M.Mission, attempted: set<(string, string)>, step: string)
    requires Consistent(w) && run in w.views && Reflects(m, w.views[run], run, attempted)
    ensures var ms := MissionsOf(w, run); var plan := w.views[run].plan;
      && (step in ms.ready(attempted) <==> step in plan && Judge(m, plan, step, false) == ReadyNow)
      && (ms.isLocal(step) <==> step in plan && plan[step].local)
      && ms.queue(attempted) == Queue(w, attempted)
  {
    if step in w.views[run].plan {
      ReadyAtIsJudged(m, w.views[run], run, attempted, step);
    }
  }

  /** Every assignment of the loop goes to a step that the orchestrator judges ready, in its mission as it is at that
      moment, and that the ranking policy puts before every other offered and eligible step of the workspace. */
  lemma AssignmentIsFirst(w: Workspace, cfg: Loop.Config, a: Loop.Assignment, m: M.Mission, other: (string, string))
    requires Consistent(w) && Loop.Justified(cfg, MissionsOf(w, cfg.runId), a) && a.chosen.runId in w.views
    requires Reflects(m, w.views[a.chosen.runId], a.chosen.runId, a.before.attempted)
    ensures a.chosen.stepId in w.views[a.chosen.runId].plan
    ensures Judge(m, w.views[a.chosen.runId].plan, a.chosen.stepId, false) == ReadyNow
    ensures other in w.pairs && Offered(w, a.before.attempted, other) && other != (a.chosen.runId, a.chosen.stepId) ==>
      var mine := Policy.KeyOf(w.policy, CandidateOf(w, (a.chosen.runId, a.chosen.stepId)), w.now, w.activeCount);
      var theirs := Policy.KeyOf(w.policy, CandidateOf(w, other), w.now, w.activeCount);
      Policy.Less(mine, theirs) || forall c :: c in Queue(w, a.before.attempted) && (c.runId, c.stepId) == other ==> !Loop.Eligible(cfg, a.before, c)
  {
    QueuedIsOffered(w, a.before.attempted, a.chosen);
    ReadyAtIsJudged(m, w.views[a.chosen.runId], a.chosen.runId, a.before.attempted, a.chosen.stepId);
    forall c | c in Queue(w, a.before.attempted) && (c.runId, c.stepId) == other
      ensures c.key == Policy.KeyOf(w.policy, CandidateOf(w, other), w.now, w.activeCount) {
      QueuedIsOffered(w, a.before.attempted, c);
    }
  }

  /** Missions and loop stay in step: after an assignment, every mission of the workspace, moved on by its own attempt
      of the assigned step if it is the loop's mission, is again what the loop reckons with. */
  lemma AssignmentReflects(w: Workspace, cfg: Loop.Config, a: Loop.Assignment, run: string, m: M.Mission, outcome: Scheduled)
    requires Consistent(w) && Loop.Justified(cfg, MissionsOf(w, cfg.runId), a) && run in w.views
    requires Reflects(m, w.views[run], run, a.before.attempted)
    ensures var next := Loop.Reserve(cfg, MissionsOf(w, cfg.runId), a.before, a.stepId, a.worker).attempted; var v := w.views[run];
      if run == cfg.runId then a.stepId in v.plan && Of(m, a.stepId) == [] && Reflects(StepOnce(m, v.plan, a.stepId, outcome), v, run, next)
      else Reflects(m, v, run, next)
  {
    if run == cfg.runId {
      AttemptReflects(m, w.views[run], run, a.before.attempted, a.stepId, outcome);
    } else {
      OthersReflect(m, w.views[run], run, a.before.attempted, (cfg.runId, a.stepId));
    }
  }

  /** What the policy compares of a step: the id derived for it, its priority, and since when its mission has run. */
  ghost predicate Asks(w: Workspace, c: Loop.Candidate, e: Policy.Candidate) {
    && e.id == w.candidateId(c.runId, c.stepId) && e.priority == w.wish(c.runId, c.stepId).priority
    && c.runId in w.views && e.readySince == w.views[c.runId].since && !e.reusable
  }

  /** The queue stands in the order that the policy names, and each entry asks for what the record of its step asks for. */
  lemma QueueIsRanked(w: Workspace, attempted: set<(string, string)>, i: nat, j: nat) returns (a: Policy.Candidate, b: Policy.Candidate)
    requires Consistent(w) && i < j < |Queue(w, attempted)|
    ensures Asks(w, Queue(w, attempted)[i], a) && Asks(w, Queue(w, attempted)[j], b) && Policy.Precedes(w.policy, a, b, w.now)
    ensures var c := Queue(w, attempted)[i]; var wish := w.wish(c.runId, c.stepId);
      c.requiredWorker == wish.worker && c.channel == wish.channel && c.resources == wish.resources && c.providerOk == wish.providerOk
  {
    var cs := Candidates(w, attempted);
    var ranked := Policy.Ranked(w.policy, cs, w.now, w.activeCount);
    CandidatesAreDistinct(w, attempted);
    Policy.RankedIsTheRanking(w.policy, cs, w.now, w.activeCount);
    Policy.RankedPrecede(w.policy, cs, w.now, w.activeCount, ranked);
    a := AskedBy(w, attempted, i);
    b := AskedBy(w, attempted, j);
  }

  lemma AskedBy(w: Workspace, attempted: set<(string, string)>, i: nat) returns (e: Policy.Candidate)
    requires Consistent(w) && i < |Queue(w, attempted)|
    ensures e == Policy.Ranked(w.policy, Candidates(w, attempted), w.now, w.activeCount)[i].candidate
    ensures Asks(w, Queue(w, attempted)[i], e)
  {
    var cs := Candidates(w, attempted);
    var ranked := Policy.Ranked(w.policy, cs, w.now, w.activeCount);
    CandidatesAreDistinct(w, attempted);
    Policy.RankedIsTheRanking(w.policy, cs, w.now, w.activeCount);
    e := ranked[i].candidate;
    assert ranked[i] in ranked;
    var k :| 0 <= k < |cs| && ranked[i] == Policy.EntryOf(w.policy, cs[k], w.now, w.activeCount);
    var pair := OfferedPairs(w, attempted)[k];
    KeepHolds(w.pairs, (p: (string, string)) => Offered(w, attempted, p));
    assert pair in OfferedPairs(w, attempted);
    assert w.source(w.candidateId(pair.0, pair.1)) == (pair.0, pair.1);
  }
}
