/**
 The execution kernel: runs that reserve resources, human gates that approve them, and one external
 submission per approved run. Every save is its own action; a crash loses the lock table and whatever
 the service was doing, and a restart rebuilds the locks from the event log and contains active runs.
 */
module Kernel {
  import opened Common
  import opened ResourceLocks

  datatype RunState = Blocked | WaitingHuman | Active | ResultObserved | Cancelled

  /** `recovery` marks a run that carries a recovery reason. */
  datatype RunRecord = RunRecord(state: RunState, resources: seq<Resource>, recovery: bool)

  datatype GateState = Requested | Approved | Rejected

  datatype Gate = Gate(runId: string, state: GateState)

  /** What the service is in the middle of for one run. */
  datatype Stage = NeedReserve | NeedGate | Consumed | Started | Submitted | Cancelling | Releasing

  /** `reserved` and `released` are the run ids of the corresponding events in the log. */
  datatype Kernel = Kernel(
    locks: Table, runs: map<string, RunRecord>, gates: map<string, Gate>,
    reserved: seq<string>, released: set<string>, submissions: seq<string>, stage: map<string, Stage>)

  datatype Action =
    | SaveRun(runId: string, resources: seq<Resource>, ready: bool)
    | RecordReserve(runId: string)
    | RequestGate(runId: string, gateId: string)
    | ConsumeApproval(gateId: string, providerValid: bool)
    | Activate(runId: string)
    | Submit(runId: string)
    | ObserveResult(runId: string)
    | FailExecution(runId: string)
    | Reject(gateId: string)
    | CancelRun(runId: string)
    | Release(runId: string)
    | ReviewedRelease(runId: string)
    | CrashAndRestart

  const NEW_KERNEL := Kernel(map[], map[], map[], [], {}, [], map[])

  predicate Finished(s: RunState) {
    s == ResultObserved || s == Cancelled
  }

  function StageOf(k: Kernel, runId: string): Option<Stage> {
    if runId in k.stage then Some(k.stage[runId]) else None
  }

  function SetRun(k: Kernel, runId: string, r: RunRecord, stage: Option<Stage>): Kernel {
    k.(runs := k.runs[runId := r], stage := if stage.Some? then k.stage[runId := stage.value] else k.stage - {runId})
  }

  /** The human decision: deciding the same way again changes nothing, deciding differently is refused. */
  function Decide(g: Gate, decision: GateState): Option<Gate> {
    if g.state == decision then Some(g)
    else if g.state == Requested then Some(g.(state := decision))
    else None
  }

  /** Locks are taken again for every reserved run that was neither released nor finished. */
  function Rehydrate(k: Kernel, n: nat): Table
    requires n <= |k.reserved|
  {
    if n == 0 then map[]
    else
      var table := Rehydrate(k, n - 1);
      var id := k.reserved[n - 1];
      if id in k.released || id in table.Values || id !in k.runs || Finished(k.runs[id].state) then table
      else if Refusal(table, id, k.runs[id].resources).Some? then table
      else Taken(table, id, FileKeys(k.runs[id].resources, |k.runs[id].resources|))
  }

  function Recover(r: RunRecord): RunRecord {
    if r.state == Active then r.(state := WaitingHuman, recovery := true) else r
  }

  /** The coordinator alone approves any waiting run; the application service refuses one that was recovered. */
  predicate MayConsume(k: Kernel, gateId: string, providerValid: bool, guarded: bool) {
    && gateId in k.gates && k.gates[gateId].runId in k.runs && k.gates[gateId].runId !in k.stage
    && k.runs[k.gates[gateId].runId].state == WaitingHuman
    && !(guarded && k.runs[k.gates[gateId].runId].recovery)
    && providerValid && Decide(k.gates[gateId], Approved).Some?
  }

  /** One action; an action that is not enabled changes nothing. */
  function Next(k: Kernel, guarded: bool, act: Action): Kernel {
    match act
    case SaveRun(id, rs, ready) =>
      if id in k.runs || id in k.stage || Invalid(rs) then k
      else if Held(k.locks, rs) || !ready then k.(runs := k.runs[id := RunRecord(Blocked, rs, false)])
      else if Refusal(k.locks, id, rs).Some? then k
      else SetRun(k, id, RunRecord(WaitingHuman, rs, false), Some(NeedReserve)).(locks := Taken(k.locks, id, FileKeys(rs, |rs|)))
    case RecordReserve(id) =>
      if StageOf(k, id) != Some(NeedReserve) then k
      else k.(reserved := k.reserved + [id], stage := k.stage[id := NeedGate])
    case RequestGate(id, gateId) =>
      if StageOf(k, id) != Some(NeedGate) then k
      else if gateId in k.gates then k.(stage := k.stage - {id})
      else k.(gates := k.gates[gateId := Gate(id, Requested)], stage := k.stage - {id})
    case ConsumeApproval(gateId, providerValid) =>
      if !MayConsume(k, gateId, providerValid, guarded) then k
      else k.(gates := k.gates[gateId := k.gates[gateId].(state := Approved)], stage := k.stage[k.gates[gateId].runId := Consumed])
    case Activate(id) =>
      if StageOf(k, id) != Some(Consumed) || id !in k.runs then k
      else SetRun(k, id, k.runs[id].(state := Active), Some(Started))
    case Submit(id) =>
      if StageOf(k, id) != Some(Started) then k
      else k.(submissions := k.submissions + [id], stage := k.stage[id := Submitted])
    case ObserveResult(id) =>
      if StageOf(k, id) != Some(Submitted) || id !in k.runs then k
      else SetRun(k, id, k.runs[id].(state := ResultObserved), Some(Releasing))
    case FailExecution(id) =>
      if StageOf(k, id) !in {Some(Started), Some(Submitted)} || id !in k.runs then k
      else SetRun(k, id, k.runs[id].(state := WaitingHuman, recovery := true), None)
    case Reject(gateId) =>
      if gateId !in k.gates || k.gates[gateId].state != Requested || k.gates[gateId].runId in k.stage then k
      else k.(gates := k.gates[gateId := k.gates[gateId].(state := Rejected)], stage := k.stage[k.gates[gateId].runId := Cancelling])
    case CancelRun(id) =>
      if StageOf(k, id) != Some(Cancelling) || id !in k.runs then k
      else SetRun(k, id, k.runs[id].(state := Cancelled), Some(Releasing))
    case Release(id) =>
      if StageOf(k, id) != Some(Releasing) then k
      else k.(locks := Freed(k.locks, id), released := k.released + {id}, stage := k.stage - {id})
    case ReviewedRelease(id) =>
      if id !in k.runs || id in k.stage || !(k.runs[id].recovery || k.runs[id].state == Cancelled) then k
      else SetRun(k, id, k.runs[id].(state := Cancelled, recovery := true), None)
             .(locks := Freed(k.locks, id), released := k.released + {id})
    case CrashAndRestart =>
      k.(locks := Rehydrate(k, |k.reserved|), stage := map[], runs := map id | id in k.runs :: Recover(k.runs[id]))
  }

  function Run(k: Kernel, guarded: bool, acts: seq<Action>, n: nat): Kernel
    requires n <= |acts|
  {
    if n == 0 then k else Next(Run(k, guarded, acts, n - 1), guarded, acts[n - 1])
  }

  // ---------------------------------------------------------------- the invariant

  /** The run holds every resource it asked for. */
  predicate HoldsAll(locks: Table, id: string, rs: seq<Resource>) {
    forall i :: 0 <= i < |rs| ==> FileKey(rs[i]) in locks && locks[FileKey(rs[i])] == id
  }

  /** The run's reservation is in force: taken by this service, or written to the log and not ended since. */
  predicate InForce(k: Kernel, id: string) {
    id in k.runs && !Finished(k.runs[id].state) && (id in k.reserved || StageOf(k, id) == Some(NeedReserve))
  }

  ghost predicate RunInv(k: Kernel, id: string) {
    && (id in k.stage || id in k.reserved || id in k.released || id in k.submissions ==> id in k.runs)
    && (id in k.runs && k.runs[id].state != Blocked ==> Refusal(map[], id, k.runs[id].resources).None?)
    && (id in k.released ==> Finished(k.runs[id].state))
    && (InForce(k, id) ==> HoldsAll(k.locks, id, k.runs[id].resources))
    && StageInv(k, id)
  }

  ghost predicate StageInv(k: Kernel, id: string) {
    id in k.runs ==>
      && (k.runs[id].state == Active <==> StageOf(k, id) in {Some(Started), Some(Submitted)})
      && (StageOf(k, id) in {Some(NeedReserve), Some(NeedGate), Some(Consumed), Some(Cancelling)} ==> k.runs[id].state == WaitingHuman)
      && (StageOf(k, id) in {Some(NeedReserve), Some(NeedGate)} ==> !k.runs[id].recovery)
      && (StageOf(k, id) == Some(Releasing) ==> Finished(k.runs[id].state))
      && (StageOf(k, id) in {Some(NeedGate), Some(Consumed), Some(Started), Some(Submitted), Some(Cancelling)} ==> id in k.reserved)
      && (k.runs[id].state == Blocked ==> id !in k.reserved && id !in k.stage && !k.runs[id].recovery)
  }

  ghost predicate LockInv(k: Kernel, key: string) {
    key in k.locks ==>
      && k.locks[key] in k.runs && key in FileKeys(k.runs[k.locks[key]].resources, |k.runs[k.locks[key]].resources|)
      && (InForce(k, k.locks[key]) || StageOf(k, k.locks[key]) == Some(Releasing))
  }

  /** A gate is asked for after the reservation is on record, and an undecided one belongs to a run that just waits. */
  ghost predicate GateInv(k: Kernel, gateId: string) {
    gateId in k.gates ==>
      var g := k.gates[gateId];
      && g.runId in k.runs && g.runId in k.reserved && StageOf(k, g.runId) !in {Some(NeedReserve), Some(NeedGate)}
      && (g.state == Requested ==> k.runs[g.runId] == RunRecord(WaitingHuman, k.runs[g.runId].resources, false) && g.runId !in k.stage)
  }

  ghost predicate GatesApart(k: Kernel, g: string, h: string) {
    g in k.gates && h in k.gates && g != h ==> k.gates[g].runId != k.gates[h].runId
  }

  ghost predicate Inv(k: Kernel) {
    && (forall id {:trigger RunInv(k, id)} :: RunInv(k, id))
    && (forall key {:trigger LockInv(k, key)} :: LockInv(k, key))
    && (forall g {:trigger GateInv(k, g)} :: GateInv(k, g))
    && (forall g, h {:trigger GatesApart(k, g, h)} :: GatesApart(k, g, h))
  }

  // ---------------------------------------------------------------- every action keeps it

  predicate SameRun(k: Kernel, next: Kernel, id: string) {
    && (id in next.runs <==> id in k.runs) && (id in k.runs ==> next.runs[id] == k.runs[id])
    && StageOf(next, id) == StageOf(k, id)
    && (id in next.reserved <==> id in k.reserved) && (id in next.released <==> id in k.released)
    && (id in next.submissions <==> id in k.submissions)
  }

  /** Locks of other runs than `id` are neither added nor dropped. */
  ghost predicate SameLocks(k: Kernel, next: Kernel, id: string) {
    && (forall key :: key in k.locks && k.locks[key] != id ==> key in next.locks && next.locks[key] == k.locks[key])
    && (forall key :: key in next.locks && next.locks[key] != id ==> key in k.locks && next.locks[key] == k.locks[key])
  }

  /** A gate of another run is as it was, and gates of `id` stand well. */
  ghost predicate GateCarries(k: Kernel, next: Kernel, id: string, g: string) {
    g in next.gates ==>
      if next.gates[g].runId == id then GateInv(next, g) && (g in k.gates ==> k.gates[g].runId == id)
      else g in k.gates && next.gates[g] == k.gates[g]
  }

  lemma OthersKeepInv(k: Kernel, next: Kernel, id: string)
    requires Inv(k) && SameLocks(k, next, id)
    requires forall o :: o != id ==> SameRun(k, next, o)
    requires RunInv(next, id) && forall key :: key in next.locks && next.locks[key] == id ==> LockInv(next, key)
    requires forall g {:trigger GateCarries(k, next, id, g)} :: GateCarries(k, next, id, g)
    requires forall g, h :: g in next.gates && h in next.gates && g != h && next.gates[g].runId == id ==> next.gates[h].runId != id
    ensures Inv(next)
  {
    forall o {:trigger RunInv(next, o)} ensures RunInv(next, o) {
      assert RunInv(k, o);
      if o != id {
        assert SameRun(k, next, o);
      }
    }
    forall key {:trigger LockInv(next, key)} ensures LockInv(next, key) {
      assert LockInv(k, key);
      if key in next.locks && next.locks[key] != id {
        assert SameRun(k, next, next.locks[key]);
      }
    }
    forall g {:trigger GateInv(next, g)} ensures GateInv(next, g) {
      assert GateInv(k, g) && GateCarries(k, next, id, g);
      if g in next.gates && next.gates[g].runId != id {
        assert SameRun(k, next, next.gates[g].runId);
      }
    }
    forall g, h {:trigger GatesApart(next, g, h)} ensures GatesApart(next, g, h) {
      assert GatesApart(k, g, h) && GateCarries(k, next, id, g) && GateCarries(k, next, id, h);
    }
  }

  /** A step of a run that touches no gate: its own gates, if any, are already decided. */
  lemma GatesCarry(k: Kernel, next: Kernel, id: string)
    requires Inv(k) && next.gates == k.gates
    requires id in k.runs ==> id in next.runs && (id in k.reserved ==> id in next.reserved)
    requires id !in k.runs || StageOf(next, id) !in {Some(NeedReserve), Some(NeedGate)} || StageOf(k, id) == Some(NeedReserve)
    requires id in k.runs ==> id in k.stage || k.runs[id].recovery || k.runs[id].state == Cancelled
    ensures forall g {:trigger GateCarries(k, next, id, g)} :: GateCarries(k, next, id, g)
    ensures forall g, h :: g in next.gates && h in next.gates && g != h && next.gates[g].runId == id ==> next.gates[h].runId != id
  {
    forall g {:trigger GateCarries(k, next, id, g)} ensures GateCarries(k, next, id, g) {
      assert GateInv(k, g);
    }
    forall g, h | g in next.gates && h in next.gates && g != h && next.gates[g].runId == id ensures next.gates[h].runId != id {
      assert GatesApart(k, g, h);
    }
  }

  /** The steps of one run that touch no lock. */
  lemma LocklessKeepsInv(k: Kernel, guarded: bool, act: Action, id: string)
    requires Inv(k)
    requires act in {RecordReserve(id), Activate(id), Submit(id), ObserveResult(id), FailExecution(id), CancelRun(id)}
    ensures Inv(Next(k, guarded, act))
  {
    var next := Next(k, guarded, act);
    if next != k {
      assert RunInv(k, id);
      GatesCarry(k, next, id);
      forall key | key in next.locks && next.locks[key] == id ensures LockInv(next, key) {
        assert LockInv(k, key);
      }
      OthersKeepInv(k, next, id);
    }
  }

  lemma AskKeepsInv(k: Kernel, guarded: bool, act: Action)
    requires Inv(k) && act.RequestGate?
    ensures Inv(Next(k, guarded, act))
  {
    var next := Next(k, guarded, act);
    if next != k {
      var id := act.runId;
      assert RunInv(k, id) && GateInv(k, act.gateId);
      forall g {:trigger GateCarries(k, next, id, g)} ensures GateCarries(k, next, id, g) {
        assert GateInv(k, g) && GatesApart(k, g, act.gateId);
      }
      forall g, h | g in next.gates && h in next.gates && g != h && next.gates[g].runId == id ensures next.gates[h].runId != id {
        assert GateInv(k, g) && GateInv(k, h) && GatesApart(k, g, h);
      }
      forall key | key in next.locks && next.locks[key] == id ensures LockInv(next, key) {
        assert LockInv(k, key);
      }
      OthersKeepInv(k, next, id);
    }
  }

  lemma ConsumeKeepsInv(k: Kernel, guarded: bool, act: Action)
    requires Inv(k) && act.ConsumeApproval?
    ensures Inv(Next(k, guarded, act))
  {
    var next := Next(k, guarded, act);
    if next != k {
      var id := k.gates[act.gateId].runId;
      assert RunInv(k, id) && GateInv(k, act.gateId);
      forall g {:trigger GateCarries(k, next, id, g)} ensures GateCarries(k, next, id, g) {
        assert GateInv(k, g) && GatesApart(k, g, act.gateId);
      }
      forall g, h | g in next.gates && h in next.gates && g != h && next.gates[g].runId == id ensures next.gates[h].runId != id {
        assert GateInv(k, g) && GateInv(k, h) && GatesApart(k, g, h);
      }
      forall key | key in next.locks && next.locks[key] == id ensures LockInv(next, key) {
        assert LockInv(k, key);
      }
      OthersKeepInv(k, next, id);
    }
  }

  lemma TurnDownKeepsInv(k: Kernel, guarded: bool, act: Action)
    requires Inv(k) && act.Reject?
    ensures Inv(Next(k, guarded, act))
  {
    var next := Next(k, guarded, act);
    if next != k {
      var id := k.gates[act.gateId].runId;
      assert RunInv(k, id) && GateInv(k, act.gateId);
      forall g {:trigger GateCarries(k, next, id, g)} ensures GateCarries(k, next, id, g) {
        assert GateInv(k, g) && GatesApart(k, g, act.gateId);
      }
      forall g, h | g in next.gates && h in next.gates && g != h && next.gates[g].runId == id ensures next.gates[h].runId != id {
        assert GateInv(k, g) && GateInv(k, h) && GatesApart(k, g, h);
      }
      forall key | key in next.locks && next.locks[key] == id ensures LockInv(next, key) {
        assert LockInv(k, key);
      }
      OthersKeepInv(k, next, id);
    }
  }

  lemma SaveRunKeepsInv(k: Kernel, guarded: bool, id: string, rs: seq<Resource>, ready: bool)
    requires Inv(k)
    ensures Inv(Next(k, guarded, SaveRun(id, rs, ready)))
  {
    var next := Next(k, guarded, SaveRun(id, rs, ready));
    if next != k {
      assert RunInv(k, id);
      forall key ensures key in k.locks ==> k.locks[key] != id {
        assert LockInv(k, key);
      }
      if next.locks != k.locks {
        AcquireLaw(k.locks, id, rs);
      }
      GatesCarry(k, next, id);
      OthersKeepInv(k, next, id);
    }
  }

  lemma ReleaseKeepsInv(k: Kernel, guarded: bool, act: Action, id: string)
    requires Inv(k) && (act == Release(id) || act == ReviewedRelease(id))
    ensures Inv(Next(k, guarded, act))
  {
    var next := Next(k, guarded, act);
    if next != k {
      assert RunInv(k, id);
      GatesCarry(k, next, id);
      OthersKeepInv(k, next, id);
    }
  }

  /** Rebuilding the table gives every reservation in force its resources back, and takes nothing else. */
  lemma {:induction false} RehydrateHolds(k: Kernel, n: nat)
    requires Inv(k) && n <= |k.reserved|
    ensures forall i :: 0 <= i < n && InForce(k, k.reserved[i]) ==> HoldsAll(Rehydrate(k, n), k.reserved[i], k.runs[k.reserved[i]].resources)
    ensures forall key :: key in Rehydrate(k, n) ==>
      var id := Rehydrate(k, n)[key];
      InForce(k, id) && key in FileKeys(k.runs[id].resources, |k.runs[id].resources|) && exists i :: 0 <= i < n && k.reserved[i] == id
  {
    if n > 0 {
      RehydrateHolds(k, n - 1);
      var table := Rehydrate(k, n - 1);
      var id := k.reserved[n - 1];
      assert RunInv(k, id);
      if id in table.Values {
        var key :| key in table && table[key] == id;
      } else if InForce(k, id) {
        NoRehydrateConflict(k, table, id);
        AcquireLaw(table, id, k.runs[id].resources);
      }
    }
  }

  lemma NoRehydrateConflict(k: Kernel, table: Table, id: string)
    requires Inv(k) && InForce(k, id)
    requires forall key :: key in table ==>
      InForce(k, table[key]) && key in FileKeys(k.runs[table[key]].resources, |k.runs[table[key]].resources|)
    ensures Refusal(table, id, k.runs[id].resources).None?
  {
    var rs := k.runs[id].resources;
    assert RunInv(k, id);
    forall i | 0 <= i < |rs| ensures !HeldByOther(table, id, FileKey(rs[i])) {
      var key := FileKey(rs[i]);
      if key in table {
        var other := table[key];
        assert RunInv(k, other);
        var j := FileKeysOnly(k.runs[other].resources, |k.runs[other].resources|, key);
      }
    }
  }

  lemma RestartKeepsInv(k: Kernel, guarded: bool)
    requires Inv(k)
    ensures Inv(Next(k, guarded, CrashAndRestart))
  {
    var next := Next(k, guarded, CrashAndRestart);
    RehydrateHolds(k, |k.reserved|);
    forall id {:trigger RunInv(next, id)} ensures RunInv(next, id) {
      assert RunInv(k, id);
    }
    forall key {:trigger LockInv(next, key)} ensures LockInv(next, key) {
    }
    forall g {:trigger GateInv(next, g)} ensures GateInv(next, g) {
      assert GateInv(k, g);
    }
    forall g, h {:trigger GatesApart(next, g, h)} ensures GatesApart(next, g, h) {
      assert GatesApart(k, g, h);
    }
  }

  lemma NextKeepsInv(k: Kernel, guarded: bool, act: Action)
    requires Inv(k)
    ensures Inv(Next(k, guarded, act))
  {
    match act
    case SaveRun(id, rs, ready) => SaveRunKeepsInv(k, guarded, id, rs, ready);
    case Release(id) => ReleaseKeepsInv(k, guarded, act, id);
    case ReviewedRelease(id) => ReleaseKeepsInv(k, guarded, act, id);
    case CrashAndRestart => RestartKeepsInv(k, guarded);
    case RequestGate(_, _) => AskKeepsInv(k, guarded, act);
    case ConsumeApproval(_, _) => ConsumeKeepsInv(k, guarded, act);
    case Reject(_) => TurnDownKeepsInv(k, guarded, act);
    case _ => LocklessKeepsInv(k, guarded, act, act.runId);
  }

  lemma NewKernelInv()
    ensures Inv(NEW_KERNEL)
  {
  }

  lemma {:induction false} RunKeepsInv(guarded: bool, acts: seq<Action>, n: nat)
    requires n <= |acts|
    ensures Inv(Run(NEW_KERNEL, guarded, acts, n))
  {
    if n == 0 {
      NewKernelInv();
    } else {
      RunKeepsInv(guarded, acts, n - 1);
      NextKeepsInv(Run(NEW_KERNEL, guarded, acts, n - 1), guarded, acts[n - 1]);
    }
  }

  /** In every run of the kernel, guarded or not: work in progress never shares a resource, work in progress
      holds what it reserved, and a finished run that is not just being released holds nothing. */
  lemma ResourcesAreExclusive(guarded: bool, acts: seq<Action>, a: string, b: string)
    requires var k := Run(NEW_KERNEL, guarded, acts, |acts|);
      a != b && a in k.runs && b in k.runs && k.runs[a].state == Active && k.runs[b].state == Active
    ensures var k := Run(NEW_KERNEL, guarded, acts, |acts|);
      && HoldsAll(k.locks, a, k.runs[a].resources)
      && forall i, j :: 0 <= i < |k.runs[a].resources| && 0 <= j < |k.runs[b].resources| ==>
           FileKey(k.runs[a].resources[i]) != FileKey(k.runs[b].resources[j])
  {
    RunKeepsInv(guarded, acts, |acts|);
    var k := Run(NEW_KERNEL, guarded, acts, |acts|);
    assert RunInv(k, a) && RunInv(k, b);
  }

  lemma FinishedHoldsNothing(guarded: bool, acts: seq<Action>, id: string, key: string)
    requires var k := Run(NEW_KERNEL, guarded, acts, |acts|);
      id in k.runs && Finished(k.runs[id].state) && StageOf(k, id) != Some(Releasing)
    ensures var k := Run(NEW_KERNEL, guarded, acts, |acts|); key in k.locks ==> k.locks[key] != id
  {
    RunKeepsInv(guarded, acts, |acts|);
    assert LockInv(Run(NEW_KERNEL, guarded, acts, |acts|), key);
  }

  // ---------------------------------------------------------------- one submission per run

  /** A run that was submitted is still being watched, has its result, or carries a recovery reason. */
  ghost predicate Submission(k: Kernel, id: string) {
    id in k.submissions ==>
      id in k.runs && (StageOf(k, id) == Some(Submitted) || k.runs[id].state == ResultObserved || k.runs[id].recovery)
  }

  ghost predicate Submissions(k: Kernel) {
    Inv(k) && forall id {:trigger Submission(k, id)} :: Submission(k, id)
  }

  ghost predicate Unsubmitted(k: Kernel, id: string) {
    StageOf(k, id) in {Some(Consumed), Some(Started)} ==> id !in k.submissions
  }

  ghost predicate Once(k: Kernel) {
    && Submissions(k) && (forall id {:trigger Unsubmitted(k, id)} :: Unsubmitted(k, id))
    && forall i, j :: 0 <= i < j < |k.submissions| ==> k.submissions[i] != k.submissions[j]
  }

  lemma NextKeepsSubmissions(k: Kernel, guarded: bool, act: Action)
    requires Submissions(k)
    ensures Submissions(Next(k, guarded, act))
  {
    NextKeepsInv(k, guarded, act);
    var next := Next(k, guarded, act);
    forall id {:trigger Submission(next, id)} ensures Submission(next, id) {
      assert Submission(k, id) && RunInv(k, id) && RunInv(next, id);
    }
  }

  lemma NextKeepsOnce(k: Kernel, act: Action)
    requires Once(k)
    ensures Once(Next(k, true, act))
  {
    NextKeepsSubmissions(k, true, act);
    var next := Next(k, true, act);
    forall id {:trigger Unsubmitted(next, id)} ensures Unsubmitted(next, id) {
      assert Unsubmitted(k, id) && Submission(k, id) && RunInv(k, id);
    }
    if act.Submit? {
      assert Unsubmitted(k, act.runId);
    }
  }

  /** With the application's guard, no run is submitted twice, through repeated approval, failure and restart. */
  lemma {:induction false} SubmittedOnce(acts: seq<Action>, n: nat)
    requires n <= |acts|
    ensures Once(Run(NEW_KERNEL, true, acts, n))
  {
    if n == 0 {
      NewKernelInv();
    } else {
      SubmittedOnce(acts, n - 1);
      NextKeepsOnce(Run(NEW_KERNEL, true, acts, n - 1), acts[n - 1]);
    }
  }

  /** Approval, activation and submission of the run behind one gate. */
  function ApproveThrough(k: Kernel, guarded: bool, gateId: string, id: string): Kernel {
    Next(Next(Next(k, guarded, ConsumeApproval(gateId, true)), guarded, Activate(id)), guarded, Submit(id))
  }

  /** An approval that the coordinator alone lets through submits its run, so a run that was submitted before is then
      submitted twice. Every such run carries a recovery reason, and that is exactly what the application's guard
      refuses. */
  lemma ResubmissionIff(k: Kernel, gateId: string)
    requires Submissions(k) && MayConsume(k, gateId, true, false)
    ensures var id := k.gates[gateId].runId;
      && ApproveThrough(k, false, gateId, id).submissions == k.submissions + [id]
      && (multiset(ApproveThrough(k, false, gateId, id).submissions)[id] >= 2 <==> id in k.submissions)
      && (id in k.submissions ==> k.runs[id].recovery)
      && (ApproveThrough(k, true, gateId, id).submissions == k.submissions + [id] <==> !k.runs[id].recovery)
      && (id in k.submissions ==> ApproveThrough(k, true, gateId, id) == k)
  {
    var id := k.gates[gateId].runId;
    assert GateInv(k, gateId) && RunInv(k, id) && Submission(k, id);
  }

  /** A failed execution followed by a second approval: the coordinator alone submits twice, the guard does not. */
  lemma FailureThenApproval(k: Kernel, gateId: string, id: string)
    requires Once(k) && gateId in k.gates && k.gates[gateId] == Gate(id, Approved) && StageOf(k, id) == Some(Submitted)
    requires id in k.submissions
    ensures ApproveThrough(Next(k, false, FailExecution(id)), false, gateId, id).submissions == k.submissions + [id]
    ensures ApproveThrough(Next(k, true, FailExecution(id)), true, gateId, id).submissions == k.submissions
  {
    assert GateInv(k, gateId) && RunInv(k, id);
    var failed := Next(k, false, FailExecution(id));
    NextKeepsSubmissions(k, false, FailExecution(id));
    assert MayConsume(failed, gateId, true, false);
    ResubmissionIff(failed, gateId);
  }

  /** A crash between deciding a rejection and cancelling the run leaves the run waiting, with its resources: the gate
      is decided, and repeating the rejection changes nothing. */
  lemma RejectionLostInCrash(k: Kernel, guarded: bool, gateId: string)
    requires Inv(k) && gateId in k.gates && k.gates[gateId].state == Requested
    ensures var id := k.gates[gateId].runId;
      var after := Next(Next(k, guarded, Reject(gateId)), guarded, CrashAndRestart);
      && Inv(after) && id in after.runs && after.runs[id].state == WaitingHuman && HoldsAll(after.locks, id, after.runs[id].resources)
      && Next(after, guarded, Reject(gateId)) == after && !MayConsume(after, gateId, true, guarded)
      && !(after.runs[id].recovery || after.runs[id].state == Cancelled)
  {
    var id := k.gates[gateId].runId;
    assert GateInv(k, gateId);
    var rejected := Next(k, guarded, Reject(gateId));
    NextKeepsInv(k, guarded, Reject(gateId));
    NextKeepsInv(rejected, guarded, CrashAndRestart);
    var after := Next(rejected, guarded, CrashAndRestart);
    assert RunInv(after, id);
  }
}
