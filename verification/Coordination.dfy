/**
 The execution coordinator as an object: run and gate repositories, the reservation events and the lock
 manager, changed in place. Every undisturbed call is a short run of the kernel's own actions, so all that
 holds over runs of the kernel holds over every sequence of calls.
 */
module Coordination {
  import opened Common
  import opened ResourceLocks
  import opened K = Kernel

  /** What the runtime does with a submitted step. */
  datatype Execution = Returns | ThrowsBeforeEffect | ThrowsAfterEffect

  datatype Answer = Refused | Unchanged | Changed | UncertainExecution

  /** A request as three actions: save the run, record the reservation, ask for the gate. */
  function RequestThrough(k: K.Kernel, guarded: bool, id: string, rs: seq<Resource>, ready: bool, gateId: string): K.Kernel {
    Next(Next(Next(k, guarded, SaveRun(id, rs, ready)), guarded, RecordReserve(id)), guarded, RequestGate(id, gateId))
  }

  function RejectThrough(k: K.Kernel, guarded: bool, gateId: string, id: string): K.Kernel {
    Next(Next(Next(k, guarded, Action.Reject(gateId)), guarded, CancelRun(id)), guarded, Release(id))
  }

  /** An approval whose execution returns, or throws before or after the external effect. */
  function ExecuteThrough(k: K.Kernel, guarded: bool, gateId: string, id: string, execution: Execution): K.Kernel {
    match execution
    case Returns => Next(Next(ApproveThrough(k, guarded, gateId, id), guarded, ObserveResult(id)), guarded, Release(id))
    case ThrowsAfterEffect => Next(ApproveThrough(k, guarded, gateId, id), guarded, FailExecution(id))
    case ThrowsBeforeEffect =>
      Next(Next(Next(k, guarded, ConsumeApproval(gateId, true)), guarded, Activate(id)), guarded, FailExecution(id))
  }

  function After(r: RunRecord, execution: Execution): RunRecord {
    if execution == Returns then r.(state := ResultObserved) else r.(state := WaitingHuman, recovery := true)
  }

  /** The whole effect of an approval that goes through, seen from a kernel at rest. */
  lemma ExecuteOutcome(k: K.Kernel, guarded: bool, gateId: string, execution: Execution)
    requires MayConsume(k, gateId, true, guarded) && k.stage == map[]
    ensures var id := k.gates[gateId].runId; var done := ExecuteThrough(k, guarded, gateId, id, execution);
      && done.gates == k.gates[gateId := k.gates[gateId].(state := Approved)]
      && done.runs == k.runs[id := After(k.runs[id], execution)]
      && done.submissions == (if execution == ThrowsBeforeEffect then k.submissions else k.submissions + [id])
      && done.locks == (if execution == Returns then Freed(k.locks, id) else k.locks)
      && done.released == (if execution == Returns then k.released + {id} else k.released)
      && done.reserved == k.reserved && done.stage == map[]
  {
    var id := k.gates[gateId].runId;
    var consumed := Next(k, guarded, ConsumeApproval(gateId, true));
    var active := Next(consumed, guarded, Activate(id));
    assert StageOf(consumed, id) == Some(Consumed) && StageOf(active, id) == Some(Started);
    assert active.runs == k.runs[id := k.runs[id].(state := Active)] && active.gates == consumed.gates;
  }

  /** The whole effect of a rejection, seen from a kernel at rest. */
  lemma RejectOutcome(k: K.Kernel, guarded: bool, gateId: string)
    requires gateId in k.gates && k.gates[gateId].state == Requested && k.gates[gateId].runId in k.runs && k.stage == map[]
    ensures var id := k.gates[gateId].runId;
      RejectThrough(k, guarded, gateId, id) == k.(
        gates := k.gates[gateId := k.gates[gateId].(state := Rejected)], runs := k.runs[id := k.runs[id].(state := Cancelled)],
        locks := Freed(k.locks, id), released := k.released + {id})
  {
    var id := k.gates[gateId].runId;
    var rejected := Next(k, guarded, Action.Reject(gateId));
    var cancelled := Next(rejected, guarded, CancelRun(id));
    assert StageOf(rejected, id) == Some(Cancelling) && StageOf(cancelled, id) == Some(Releasing);
    assert cancelled.stage - {id} == map[];
  }

  // ---------------------------------------------------------------- what each call answers and leaves

  /** Some resource names no kind or no key. */
  predicate Unnamed(rs: seq<Resource>) {
    exists i :: 0 <= i < |rs| && (rs[i].kind == "" || rs[i].key == "")
  }

  /** Some resource is held, by any run. */
  predicate SomeHeld(locks: Table, rs: seq<Resource>) {
    exists i :: 0 <= i < |rs| && FileKey(rs[i]) in locks
  }

  predicate SomeTwice(rs: seq<Resource>) {
    exists i, j :: 0 <= i < j < |rs| && FileKey(rs[i]) == FileKey(rs[j])
  }

  /** The run has every resource it asked for, every other lock is as it was, and there is no further one. */
  ghost predicate TakesAll(locks: Table, next: Table, id: string, rs: seq<Resource>) {
    && (forall i :: 0 <= i < |rs| ==> FileKey(rs[i]) in next && next[FileKey(rs[i])] == id)
    && (forall key :: key in locks ==> key in next && next[key] == locks[key])
    && (forall key :: key in next && key !in locks ==> exists i :: 0 <= i < |rs| && FileKey(rs[i]) == key)
  }

  /** A known run is left alone; a resource without a name, or one that a ready run would lock twice, is refused. */
  ghost function Reply(k: K.Kernel, id: string, rs: seq<Resource>, ready: bool): Answer {
    if id in k.runs then Unchanged
    else if Unnamed(rs) || (ready && !SomeHeld(k.locks, rs) && SomeTwice(rs)) then Answer.Refused
    else Changed
  }

  /**
   What a request leaves. Unless it is answered as changed, everything as it was. A run that is not ready, or one of whose
   resources is held, is saved as blocked and gets nothing. Any other run waits for a decision, holds all its resources, is
   reserved, and asks for its gate.
   */
  ghost predicate LeavesRequest(k: K.Kernel, next: K.Kernel, id: string, rs: seq<Resource>, ready: bool, gateId: string) {
    if Reply(k, id, rs, ready) != Changed then next == k
    else if !ready || SomeHeld(k.locks, rs) then next == k.(runs := k.runs[id := RunRecord(Blocked, rs, false)])
    else Reserves(k, next, id, rs, gateId)
  }

  ghost predicate Reserves(k: K.Kernel, next: K.Kernel, id: string, rs: seq<Resource>, gateId: string) {
    && next.runs == k.runs[id := RunRecord(WaitingHuman, rs, false)] && next.reserved == k.reserved + [id]
    && next.gates == (if gateId in k.gates then k.gates else k.gates[gateId := Gate(id, Requested)])
    && TakesAll(k.locks, next.locks, id, rs)
    && next.released == k.released && next.submissions == k.submissions && next.stage == k.stage
  }

  lemma TakenTakesAll(locks: Table, id: string, rs: seq<Resource>)
    requires Refusal(locks, id, rs).None?
    ensures TakesAll(locks, Taken(locks, id, FileKeys(rs, |rs|)), id, rs)
  {
    AcquireLaw(locks, id, rs);
    var next := Taken(locks, id, FileKeys(rs, |rs|));
    forall key | key in next && key !in locks ensures exists i :: 0 <= i < |rs| && FileKey(rs[i]) == key {
      var i := FileKeysOnly(rs, |rs|, key);
    }
  }

  /** The checks of the code, in their order, find what is named here. */
  lemma ReplyByChecks(k: K.Kernel, id: string, rs: seq<Resource>, ready: bool)
    ensures Invalid(rs) <==> Unnamed(rs)
    ensures Held(k.locks, rs) <==> SomeHeld(k.locks, rs)
    ensures HasDuplicates(rs) <==> SomeTwice(rs)
    ensures !Invalid(rs) && !Held(k.locks, rs) ==> (Refusal(k.locks, id, rs).Some? <==> SomeTwice(rs))
  {
  }

  lemma SaveIsNext(k: K.Kernel, guarded: bool, id: string, rs: seq<Resource>)
    requires k.stage == map[] && id !in k.runs && !Invalid(rs) && !Held(k.locks, rs) && Refusal(k.locks, id, rs).None?
    ensures Next(k, guarded, SaveRun(id, rs, true)) == k.(
      runs := k.runs[id := RunRecord(WaitingHuman, rs, false)], stage := map[id := NeedReserve],
      locks := Taken(k.locks, id, FileKeys(rs, |rs|)))
  {
  }

  lemma ReserveIsNext(k: K.Kernel, guarded: bool, id: string, gateId: string)
    requires k.stage == map[id := NeedReserve]
    ensures Next(Next(k, guarded, RecordReserve(id)), guarded, RequestGate(id, gateId)) == k.(
      reserved := k.reserved + [id], stage := map[],
      gates := if gateId in k.gates then k.gates else k.gates[gateId := Gate(id, Requested)])
  {
    var recorded := Next(k, guarded, RecordReserve(id));
    assert recorded == k.(reserved := k.reserved + [id], stage := map[id := NeedGate]);
    assert map[id := NeedGate] - {id} == map[];
  }

  lemma RefusedSave(k: K.Kernel, guarded: bool, id: string, rs: seq<Resource>, ready: bool, gateId: string)
    requires k.stage == map[] && Reply(k, id, rs, ready) != Changed
    ensures RequestThrough(k, guarded, id, rs, ready, gateId) == k
  {
    if SomeTwice(rs) {
      assert HasDuplicates(rs);
    }
    assert Next(k, guarded, SaveRun(id, rs, ready)) == k;
  }

  lemma BlockedSave(k: K.Kernel, guarded: bool, id: string, rs: seq<Resource>, ready: bool, gateId: string)
    requires k.stage == map[] && id !in k.runs && !Unnamed(rs) && (!ready || SomeHeld(k.locks, rs))
    ensures RequestThrough(k, guarded, id, rs, ready, gateId) == k.(runs := k.runs[id := RunRecord(Blocked, rs, false)])
  {
    var saved := Next(k, guarded, SaveRun(id, rs, ready));
    assert saved == k.(runs := k.runs[id := RunRecord(Blocked, rs, false)]);
  }

  /** The store after a request. */
  ghost function RequestOutcome(k: K.Kernel, id: string, rs: seq<Resource>, ready: bool, gateId: string): K.Kernel {
    if Reply(k, id, rs, ready) != Changed then k
    else if !ready || SomeHeld(k.locks, rs) then k.(runs := k.runs[id := RunRecord(Blocked, rs, false)])
    else k.(runs := k.runs[id := RunRecord(WaitingHuman, rs, false)], reserved := k.reserved + [id],
            gates := if gateId in k.gates then k.gates else k.gates[gateId := Gate(id, Requested)],
            locks := Taken(k.locks, id, FileKeys(rs, |rs|)))
  }

  /** A request is a run of the kernel's own actions, and leaves what is promised. */
  lemma RequestIsRun(k: K.Kernel, guarded: bool, id: string, rs: seq<Resource>, ready: bool, gateId: string)
    requires k.stage == map[]
    ensures RequestThrough(k, guarded, id, rs, ready, gateId) == RequestOutcome(k, id, rs, ready, gateId)
    ensures LeavesRequest(k, RequestOutcome(k, id, rs, ready, gateId), id, rs, ready, gateId)
  {
    if Reply(k, id, rs, ready) != Changed {
      RefusedSave(k, guarded, id, rs, ready, gateId);
    } else if !ready || SomeHeld(k.locks, rs) {
      BlockedSave(k, guarded, id, rs, ready, gateId);
    } else {
      ReplyByChecks(k, id, rs, ready);
      SaveIsNext(k, guarded, id, rs);
      ReserveIsNext(Next(k, guarded, SaveRun(id, rs, true)), guarded, id, gateId);
      TakenTakesAll(k.locks, id, rs);
    }
  }

  lemma OutcomeKeepsInv(k: K.Kernel, id: string, rs: seq<Resource>, ready: bool, gateId: string)
    requires Inv(k) && k.stage == map[]
    ensures Inv(RequestOutcome(k, id, rs, ready, gateId))
    ensures LeavesRequest(k, RequestOutcome(k, id, rs, ready, gateId), id, rs, ready, gateId)
  {
    RequestKeepsInv(k, false, id, rs, ready, gateId);
    RequestIsRun(k, false, id, rs, ready, gateId);
  }

  /** The run behind the gate may be started: it waits, the provider still qualifies, the gate was not rejected, and a service
      that refuses recovered runs finds no recovery reason. */
  predicate Approvable(k: K.Kernel, gateId: string, providerValid: bool, guarded: bool) {
    && gateId in k.gates && k.gates[gateId].runId in k.runs && k.gates[gateId].state in {Requested, Approved}
    && var r := k.runs[k.gates[gateId].runId];
       r.state == WaitingHuman && providerValid && !(guarded && r.recovery)
  }

  /** An approval that goes through: the gate is approved and the step submitted unless the runtime failed before; a result
      frees the run's resources and no others; a failure leaves the run waiting for review with all it holds. */
  ghost predicate LeavesApproval(k: K.Kernel, next: K.Kernel, gateId: string, execution: Execution)
    requires gateId in k.gates && k.gates[gateId].runId in k.runs
  {
    var id := k.gates[gateId].runId;
    var r := k.runs[id];
    && next.gates == k.gates[gateId := Gate(id, Approved)] && next.reserved == k.reserved && next.stage == k.stage
    && match execution
       case Returns =>
         && next.runs == k.runs[id := RunRecord(ResultObserved, r.resources, r.recovery)]
         && next.submissions == k.submissions + [id] && next.released == k.released + {id} && FreesAll(k.locks, next.locks, id)
       case ThrowsAfterEffect =>
         && next.runs == k.runs[id := RunRecord(WaitingHuman, r.resources, true)]
         && next.submissions == k.submissions + [id] && next.released == k.released && next.locks == k.locks
       case ThrowsBeforeEffect =>
         && next.runs == k.runs[id := RunRecord(WaitingHuman, r.resources, true)]
         && next.submissions == k.submissions && next.released == k.released && next.locks == k.locks
  }

  /** The run holds nothing any more, and every other lock is as it was. */
  ghost predicate FreesAll(locks: Table, next: Table, id: string) {
    && (forall key :: key in next <==> key in locks && locks[key] != id)
    && (forall key :: key in next ==> next[key] == locks[key])
  }

  lemma ApprovalLeaves(k: K.Kernel, guarded: bool, gateId: string, providerValid: bool, execution: Execution)
    requires k.stage == map[]
    ensures MayConsume(k, gateId, providerValid, guarded) <==> Approvable(k, gateId, providerValid, guarded)
    ensures Approvable(k, gateId, providerValid, guarded) ==>
      LeavesApproval(k, ExecuteThrough(k, guarded, gateId, k.gates[gateId].runId, execution), gateId, execution)
  {
    if Approvable(k, gateId, providerValid, guarded) {
      ExecuteOutcome(k, guarded, gateId, execution);
    }
  }

  /** A rejection that is decided: the run is cancelled and frees its resources, and no others. */
  ghost predicate LeavesRejection(k: K.Kernel, next: K.Kernel, gateId: string)
    requires gateId in k.gates && k.gates[gateId].runId in k.runs
  {
    var id := k.gates[gateId].runId;
    && next.gates == k.gates[gateId := Gate(id, Rejected)]
    && next.runs == k.runs[id := RunRecord(Cancelled, k.runs[id].resources, k.runs[id].recovery)]
    && FreesAll(k.locks, next.locks, id) && next.released == k.released + {id}
    && next.reserved == k.reserved && next.submissions == k.submissions && next.stage == k.stage
  }

  lemma RejectionLeaves(k: K.Kernel, guarded: bool, gateId: string)
    requires gateId in k.gates && k.gates[gateId].state == Requested && k.gates[gateId].runId in k.runs && k.stage == map[]
    ensures LeavesRejection(k, RejectThrough(k, guarded, gateId, k.gates[gateId].runId), gateId)
  {
    RejectOutcome(k, guarded, gateId);
  }

  /** After a restart exactly the active runs wait again, with a recovery reason. */
  ghost predicate ContainsActive(runs: map<string, RunRecord>, next: map<string, RunRecord>) {
    && next.Keys == runs.Keys
    && forall id :: id in runs ==>
         next[id] == if runs[id].state == Active then RunRecord(WaitingHuman, runs[id].resources, true) else runs[id]
  }

  /** A restart loses nothing that was saved: runs are contained, and gates, reservations, releases and submissions stay. */
  lemma RestartLeaves(k: K.Kernel, guarded: bool)
    ensures var next := Next(k, guarded, CrashAndRestart);
      && ContainsActive(k.runs, next.runs) && next.gates == k.gates && next.reserved == k.reserved
      && next.released == k.released && next.submissions == k.submissions && next.stage == map[]
  {
  }

  /** A reviewed release ends a run that was cancelled or awaits review, and frees its resources. */
  lemma ReviewedReleaseLeaves(k: K.Kernel, guarded: bool, id: string)
    requires id !in k.stage
    ensures var next := Next(k, guarded, ReviewedRelease(id));
      if id in k.runs && (k.runs[id].recovery || k.runs[id].state == Cancelled) then
        && next.runs == k.runs[id := RunRecord(Cancelled, k.runs[id].resources, true)] && FreesAll(k.locks, next.locks, id)
        && next.released == k.released + {id} && next.gates == k.gates && next.reserved == k.reserved
        && next.submissions == k.submissions && next.stage == k.stage
      else next == k
  {
    assert id !in k.stage ==> k.stage - {id} == k.stage;
  }

  class Coordinator {
    const manager: LockManager
    /** Whether approvals pass through the application service, which refuses recovered runs. */
    const guarded: bool
    var runs: map<string, RunRecord>
    var gates: map<string, Gate>
    var reserved: seq<string>
    var released: set<string>
    var submissions: seq<string>

    ghost function Value(): K.Kernel
      reads this, manager
    {
      K.Kernel(manager.locks, runs, gates, reserved, released, submissions, map[])
    }

    constructor (guarded: bool)
      ensures Value() == NEW_KERNEL && Inv(Value()) && this.guarded == guarded && fresh(manager)
    {
      manager := new LockManager();
      this.guarded := guarded;
      runs, gates, reserved, released, submissions := map[], map[], [], {}, [];
      new;
      NewKernelInv();
    }

    /** Readiness is judged by the caller; a blocked run is saved without locks, an invalid request saves nothing. */
    method Request(id: string, rs: seq<Resource>, ready: bool, gateId: string) returns (a: Answer)
      requires Inv(Value())
      modifies this, manager
      ensures Inv(Value())
      ensures Value() == RequestOutcome(old(Value()), id, rs, ready, gateId)
      ensures a == Reply(old(Value()), id, rs, ready)
      ensures LeavesRequest(old(Value()), Value(), id, rs, ready, gateId)
    {
      ghost var k := Value();
      OutcomeKeepsInv(k, id, rs, ready, gateId);
      ReplyByChecks(k, id, rs, ready);
      if id in runs {
        return Unchanged;
      }
      if Invalid(rs) {
        return Refused;
      }
      if Held(manager.locks, rs) || !ready {
        runs := runs[id := RunRecord(Blocked, rs, false)];
        return Changed;
      }
      var refusal := manager.AcquireAll(id, rs);
      if refusal.Some? {
        return Refused;
      }
      runs := runs[id := RunRecord(WaitingHuman, rs, false)];
      reserved := reserved + [id];
      if gateId !in gates {
        gates := gates[gateId := Gate(id, Requested)];
      }
      a := Changed;
    }

    /** Decides a gate once; the same decision again changes nothing and another one is refused. */
    method DecideGate(gateId: string, decision: GateState) returns (a: Answer)
      modifies this`gates
      ensures gateId !in old(gates) || Decide(old(gates)[gateId], decision).None? ==> a == Refused && gates == old(gates)
      ensures gateId in old(gates) && old(gates)[gateId].state == decision ==> a == Unchanged && gates == old(gates)
      ensures gateId in old(gates) && old(gates)[gateId].state == Requested && decision != Requested ==>
        a == Changed && gates == old(gates)[gateId := old(gates)[gateId].(state := decision)]
    {
      if gateId !in gates {
        return Refused;
      }
      var current := gates[gateId];
      if current.state == decision {
        return Unchanged;
      }
      if current.state != Requested {
        return Refused;
      }
      gates := gates[gateId := current.(state := decision)];
      a := Changed;
    }

    /** The external effect happens in this call exactly when the run may be approved and the runtime reaches it. */
    method Approve(gateId: string, providerValid: bool, execution: Execution) returns (a: Answer)
      requires Inv(Value())
      modifies this, manager
      ensures Inv(Value())
      ensures a in {Changed, UncertainExecution} <==> Approvable(old(Value()), gateId, providerValid, guarded)
      ensures if Approvable(old(Value()), gateId, providerValid, guarded)
        then
          && Value() == ExecuteThrough(old(Value()), guarded, gateId, old(gates)[gateId].runId, execution)
          && LeavesApproval(old(Value()), Value(), gateId, execution)
        else Value() == old(Value())
      ensures a == Unchanged <==>
        && gateId in old(gates) && old(gates)[gateId].runId in old(runs)
        && old(runs)[old(gates)[gateId].runId].state in {Active, ResultObserved}
        && !(guarded && old(runs)[old(gates)[gateId].runId].recovery)
      ensures a == Changed ==> execution == Returns && forall key :: key in manager.locks ==> manager.locks[key] != old(gates)[gateId].runId
    {
      if gateId !in gates {
        return Refused;
      }
      ghost var k := Value();
      assert GateInv(k, gateId);
      var id := gates[gateId].runId;
      ExecuteKeepsInv(k, guarded, gateId, id, execution);
      ApprovalLeaves(k, guarded, gateId, providerValid, execution);
      if guarded && runs[id].recovery {
        return Refused;
      }
      if runs[id].state == Active || runs[id].state == ResultObserved {
        return Unchanged;
      }
      if runs[id].state != WaitingHuman || !providerValid {
        return Refused;
      }
      var decision := DecideGate(gateId, Approved);
      if decision == Refused {
        return Refused;
      }
      ExecuteOutcome(k, guarded, gateId, execution);
      a := Execute(id, execution);
      assert Value() == ExecuteThrough(k, guarded, gateId, id, execution);
    }

    /** Runs the approved step and records how it went. */
    method Execute(id: string, execution: Execution) returns (a: Answer)
      requires id in runs
      modifies this`runs, this`submissions, this`released, manager
      ensures a == if execution == Returns then Changed else UncertainExecution
      ensures submissions == if execution == ThrowsBeforeEffect then old(submissions) else old(submissions) + [id]
      ensures runs == old(runs)[id := After(old(runs)[id], execution)]
      ensures manager.locks == if execution == Returns then Freed(old(manager.locks), id) else old(manager.locks)
      ensures released == if execution == Returns then old(released) + {id} else old(released)
    {
      runs := runs[id := runs[id].(state := Active)];
      if execution != ThrowsBeforeEffect {
        submissions := submissions + [id];
      }
      if execution == Returns {
        runs := runs[id := runs[id].(state := ResultObserved)];
        var dropped := manager.ReleaseAll(id);
        released := released + {id};
        a := Changed;
      } else {
        runs := runs[id := runs[id].(state := WaitingHuman, recovery := true)];
        a := UncertainExecution;
      }
    }

    method Reject(gateId: string) returns (a: Answer)
      requires Inv(Value())
      modifies this, manager
      ensures Inv(Value())
      ensures a == Changed <==> gateId in old(gates) && old(gates)[gateId].state == Requested
      ensures if a == Changed
        then
          && Value() == RejectThrough(old(Value()), guarded, gateId, old(gates)[gateId].runId)
          && old(gates)[gateId].runId in old(runs) && LeavesRejection(old(Value()), Value(), gateId)
        else Value() == old(Value())
    {
      ghost var k := Value();
      a := DecideGate(gateId, Rejected);
      if a != Changed {
        return;
      }
      var id := gates[gateId].runId;
      assert GateInv(k, gateId);
      RejectKeepsInv(k, guarded, gateId, id);
      RejectOutcome(k, guarded, gateId);
      RejectionLeaves(k, guarded, gateId);
      runs := runs[id := runs[id].(state := Cancelled)];
      var dropped := manager.ReleaseAll(id);
      released := released + {id};
      assert Value() == RejectThrough(k, guarded, gateId, id);
    }

    /** Every active run goes back to waiting with a recovery reason. */
    method RecoverUncertain()
      modifies this`runs
      ensures runs == map id | id in old(runs) :: Recover(old(runs)[id])
      ensures ContainsActive(old(runs), runs)
    {
      var todo := runs.Keys;
      while todo != {}
        invariant todo <= runs.Keys == old(runs).Keys
        invariant forall id :: id in runs ==> runs[id] == if id in todo then old(runs)[id] else Recover(old(runs)[id])
        decreases todo
      {
        var id :| id in todo;
        if runs[id].state == Active {
          runs := runs[id := runs[id].(state := WaitingHuman, recovery := true)];
        }
        todo := todo - {id};
      }
    }

    /** A new service over the same store: the lock table is rebuilt from the events, then active runs are contained. */
    method Restart()
      requires Inv(Value())
      modifies this`runs, manager
      ensures Inv(Value())
      ensures Value() == Next(old(Value()), guarded, CrashAndRestart)
      ensures ContainsActive(old(runs), runs)
    {
      ghost var k := Value();
      NextKeepsInv(k, guarded, CrashAndRestart);
      manager.locks := map[];
      for n := 0 to |reserved|
        invariant manager.locks == Rehydrate(k, n)
        invariant runs == k.runs && reserved == k.reserved && released == k.released
      {
        var id := reserved[n];
        if id !in released && id !in manager.locks.Values && id in runs && !Finished(runs[id].state) {
          var refusal := manager.AcquireAll(id, runs[id].resources);
        }
      }
      RecoverUncertain();
    }
  }

  lemma RequestKeepsInv(k: K.Kernel, guarded: bool, id: string, rs: seq<Resource>, ready: bool, gateId: string)
    requires Inv(k)
    ensures Inv(RequestThrough(k, guarded, id, rs, ready, gateId))
  {
    var saved := Next(k, guarded, SaveRun(id, rs, ready));
    var recorded := Next(saved, guarded, RecordReserve(id));
    NextKeepsInv(k, guarded, SaveRun(id, rs, ready));
    NextKeepsInv(saved, guarded, RecordReserve(id));
    NextKeepsInv(recorded, guarded, RequestGate(id, gateId));
  }

  lemma ExecuteKeepsInv(k: K.Kernel, guarded: bool, gateId: string, id: string, execution: Execution)
    requires Inv(k)
    ensures Inv(ExecuteThrough(k, guarded, gateId, id, execution))
  {
    var consumed := Next(k, guarded, ConsumeApproval(gateId, true));
    var active := Next(consumed, guarded, Activate(id));
    var submitted := Next(active, guarded, Submit(id));
    var observed := Next(submitted, guarded, ObserveResult(id));
    NextKeepsInv(k, guarded, ConsumeApproval(gateId, true));
    NextKeepsInv(consumed, guarded, Activate(id));
    NextKeepsInv(active, guarded, FailExecution(id));
    NextKeepsInv(active, guarded, Submit(id));
    NextKeepsInv(submitted, guarded, FailExecution(id));
    NextKeepsInv(submitted, guarded, ObserveResult(id));
    NextKeepsInv(observed, guarded, Release(id));
  }

  lemma RejectKeepsInv(k: K.Kernel, guarded: bool, gateId: string, id: string)
    requires Inv(k)
    ensures Inv(RejectThrough(k, guarded, gateId, id))
  {
    var rejected := Next(k, guarded, Action.Reject(gateId));
    var cancelled := Next(rejected, guarded, CancelRun(id));
    NextKeepsInv(k, guarded, Action.Reject(gateId));
    NextKeepsInv(rejected, guarded, CancelRun(id));
    NextKeepsInv(cancelled, guarded, Release(id));
  }
}
