/**
 What becomes of a rejected run: it is cancelled and lets go of its resources, unless a crash falls between the
 decision and the cancellation. Then it waits for ever and keeps them.
 */
module KernelRejections {
  import opened Common
  import opened ResourceLocks
  import opened K = Kernel

  predicate Turned(k: K.Kernel, gateId: string) {
    gateId in k.gates && k.gates[gateId].state == Rejected
  }

  /** The service has decided the rejection and is about to cancel the run. */
  predicate InProgress(k: K.Kernel, gateId: string) {
    Turned(k, gateId) && StageOf(k, k.gates[gateId].runId) == Some(Cancelling)
  }

  /** The run waits for a decision that was already made, and nobody is working on it. */
  predicate Stranded(k: K.Kernel, gateId: string) {
    && Turned(k, gateId) && k.gates[gateId].runId in k.runs
    && k.runs[k.gates[gateId].runId].state == WaitingHuman && StageOf(k, k.gates[gateId].runId) == None
  }

  predicate WasCancelled(k: K.Kernel, gateId: string) {
    Turned(k, gateId) && k.gates[gateId].runId in k.runs && k.runs[k.gates[gateId].runId].state == Cancelled
  }

  /** A run behind a rejected gate is cancelled, or waits without a recovery reason, alone or about to be cancelled. */
  ghost predicate RejectInv(k: K.Kernel, gateId: string) {
    Turned(k, gateId) ==>
      && k.gates[gateId].runId in k.runs
      && var r := k.runs[k.gates[gateId].runId];
         r.state == Cancelled
         || (r.state == WaitingHuman && !r.recovery && StageOf(k, k.gates[gateId].runId) in {None, Some(Cancelling)})
  }

  lemma OneRunOneGate(k: K.Kernel, g: string, h: string)
    requires Inv(k) && g in k.gates && h in k.gates && k.gates[g].runId == k.gates[h].runId
    ensures g == h
  {
    assert GatesApart(k, g, h);
  }

  /** Only deciding a gate or cutting a rejection short concerns the run behind a rejected gate. */
  lemma RejectInvStep(k: K.Kernel, guarded: bool, act: Action, gateId: string)
    requires Inv(k) && RejectInv(k, gateId)
    ensures RejectInv(Next(k, guarded, act), gateId)
  {
    RunsOfGate(k, act, gateId);
  }

  lemma RunsOfGate(k: K.Kernel, act: Action, gateId: string)
    requires Inv(k)
    ensures gateId in k.gates ==> GateInv(k, gateId) && RunInv(k, k.gates[gateId].runId)
    ensures (act.ConsumeApproval? || act.Reject?) && gateId in k.gates && act.gateId in k.gates ==>
      k.gates[act.gateId].runId == k.gates[gateId].runId ==> act.gateId == gateId
  {
    assert GateInv(k, gateId);
    if gateId in k.gates {
      assert RunInv(k, k.gates[gateId].runId);
      if (act.ConsumeApproval? || act.Reject?) && act.gateId in k.gates && k.gates[act.gateId].runId == k.gates[gateId].runId {
        OneRunOneGate(k, gateId, act.gateId);
      }
    }
  }

  lemma CrashOnRejection(k: K.Kernel, guarded: bool, gateId: string)
    requires RejectInv(k, gateId) && (gateId in k.gates ==> RunInv(k, k.gates[gateId].runId))
    ensures Stranded(Next(k, guarded, CrashAndRestart), gateId) <==> Stranded(k, gateId) || InProgress(k, gateId)
  {
  }

  /** An action that decides another gate, or none, and is no crash leaves a stranded run alone and strands none. */
  lemma OthersOnRejection(k: K.Kernel, guarded: bool, act: Action, gateId: string)
    requires RejectInv(k, gateId) && act != CrashAndRestart
    requires (act.ConsumeApproval? || act.Reject?) && gateId in k.gates && act.gateId in k.gates ==>
      k.gates[act.gateId].runId == k.gates[gateId].runId ==> act.gateId == gateId
    requires gateId in k.gates ==> GateInv(k, gateId) && RunInv(k, k.gates[gateId].runId)
    ensures Stranded(Next(k, guarded, act), gateId) <==> Stranded(k, gateId)
  {
  }

  /** What one action does to a rejected run; only a crash in progress strands it, and nothing frees a stranded one. */
  lemma RejectionStep(k: K.Kernel, guarded: bool, act: Action, gateId: string)
    requires Inv(k) && RejectInv(k, gateId)
    ensures Stranded(Next(k, guarded, act), gateId) <==> Stranded(k, gateId) || (act == CrashAndRestart && InProgress(k, gateId))
  {
    RunsOfGate(k, act, gateId);
    if act == CrashAndRestart {
      CrashOnRejection(k, guarded, gateId);
    } else {
      OthersOnRejection(k, guarded, act, gateId);
    }
  }

  lemma {:induction false} RunKeepsRejectInv(guarded: bool, acts: seq<Action>, n: nat, gateId: string)
    requires n <= |acts|
    ensures Inv(Run(NEW_KERNEL, guarded, acts, n)) && RejectInv(Run(NEW_KERNEL, guarded, acts, n), gateId)
  {
    RunKeepsInv(guarded, acts, n);
    if n > 0 {
      RunKeepsRejectInv(guarded, acts, n - 1, gateId);
      RejectInvStep(Run(NEW_KERNEL, guarded, acts, n - 1), guarded, acts[n - 1], gateId);
    }
  }

  /** Action `i` of the run is a crash while the rejection is in progress. */
  predicate CutShort(guarded: bool, acts: seq<Action>, gateId: string, i: int) {
    0 <= i < |acts| && acts[i] == CrashAndRestart && InProgress(Run(NEW_KERNEL, guarded, acts, i), gateId)
  }

  ghost predicate SomeCut(guarded: bool, acts: seq<Action>, gateId: string, n: nat) {
    exists i :: i < n && CutShort(guarded, acts, gateId, i)
  }

  lemma OneMoreCut(guarded: bool, acts: seq<Action>, gateId: string, n: nat)
    requires 0 < n
    ensures SomeCut(guarded, acts, gateId, n) <==> SomeCut(guarded, acts, gateId, n - 1) || CutShort(guarded, acts, gateId, n - 1)
  {
  }

  /** In every run of the kernel: a rejected run is stranded exactly when some crash cut its rejection short. */
  lemma {:induction false} StrandedIff(guarded: bool, acts: seq<Action>, n: nat, gateId: string)
    requires n <= |acts|
    ensures Stranded(Run(NEW_KERNEL, guarded, acts, n), gateId) <==> SomeCut(guarded, acts, gateId, n)
  {
    if n > 0 {
      StrandedIff(guarded, acts, n - 1, gateId);
      RunKeepsRejectInv(guarded, acts, n - 1, gateId);
      OneMoreCut(guarded, acts, gateId, n);
      RejectionStep(Run(NEW_KERNEL, guarded, acts, n - 1), guarded, acts[n - 1], gateId);
    }
  }

  /** The promise and its exact condition: in every run, a rejection that is no longer in progress has cancelled its
      run exactly when no crash cut it short; a cancelled run that is not just being released holds no lock. */
  lemma RejectionCancelsIff(guarded: bool, acts: seq<Action>, gateId: string)
    requires var k := Run(NEW_KERNEL, guarded, acts, |acts|); Turned(k, gateId) && !InProgress(k, gateId)
    ensures var k := Run(NEW_KERNEL, guarded, acts, |acts|);
      WasCancelled(k, gateId) <==> !SomeCut(guarded, acts, gateId, |acts|)
    ensures var k := Run(NEW_KERNEL, guarded, acts, |acts|);
      WasCancelled(k, gateId) && StageOf(k, k.gates[gateId].runId) != Some(Releasing) ==>
        forall key :: key in k.locks ==> k.locks[key] != k.gates[gateId].runId
  {
    var k := Run(NEW_KERNEL, guarded, acts, |acts|);
    RunKeepsRejectInv(guarded, acts, |acts|, gateId);
    StrandedIff(guarded, acts, |acts|, gateId);
    if WasCancelled(k, gateId) && StageOf(k, k.gates[gateId].runId) != Some(Releasing) {
      forall key | key in k.locks ensures k.locks[key] != k.gates[gateId].runId {
        FinishedHoldsNothing(guarded, acts, k.gates[gateId].runId, key);
      }
    }
  }

  /** A stranded run stays stranded through every further run, and keeps every resource it asked for. */
  lemma {:induction false} StrandedForEver(k: K.Kernel, guarded: bool, more: seq<Action>, n: nat, gateId: string)
    requires Inv(k) && RejectInv(k, gateId) && Stranded(k, gateId) && n <= |more|
    ensures var later := Run(k, guarded, more, n);
      && Inv(later) && RejectInv(later, gateId) && Stranded(later, gateId)
      && HoldsAll(later.locks, later.gates[gateId].runId, later.runs[later.gates[gateId].runId].resources)
  {
    if n > 0 {
      StrandedForEver(k, guarded, more, n - 1, gateId);
      var before := Run(k, guarded, more, n - 1);
      RejectionStep(before, guarded, more[n - 1], gateId);
      RejectInvStep(before, guarded, more[n - 1], gateId);
      NextKeepsInv(before, guarded, more[n - 1]);
    }
    var later := Run(k, guarded, more, n);
    assert GateInv(later, gateId) && RunInv(later, later.gates[gateId].runId);
  }

  // ---------------------------------------------------------------- the failing runs

  /** Three saves put a run behind a gate. */
  function Opening(id: string, r: Resource, gateId: string): seq<Action> {
    [SaveRun(id, [r], true), RecordReserve(id), RequestGate(id, gateId)]
  }

  function Asked(id: string, r: Resource, gateId: string): K.Kernel {
    NEW_KERNEL.(locks := map[FileKey(r) := id], runs := map[id := RunRecord(WaitingHuman, [r], false)],
                gates := map[gateId := Gate(id, Requested)], reserved := [id])
  }

  function Saved(id: string, r: Resource): K.Kernel {
    NEW_KERNEL.(locks := map[FileKey(r) := id], runs := map[id := RunRecord(WaitingHuman, [r], false)], stage := map[id := NeedReserve])
  }

  lemma FirstSave(id: string, r: Resource, guarded: bool)
    requires r.kind != "" && r.key != ""
    ensures Next(NEW_KERNEL, guarded, SaveRun(id, [r], true)) == Saved(id, r)
  {
    assert FileKeys([r], 1) == {FileKey(r)};
  }

  lemma ReserveAndAsk(id: string, r: Resource, gateId: string, guarded: bool)
    ensures Next(Next(Saved(id, r), guarded, RecordReserve(id)), guarded, RequestGate(id, gateId)) == Asked(id, r, gateId)
  {
    var reserved := Next(Saved(id, r), guarded, RecordReserve(id));
    assert reserved == Saved(id, r).(reserved := [id], stage := map[id := NeedGate]);
  }

  lemma OpeningAsks(id: string, r: Resource, gateId: string, guarded: bool, acts: seq<Action>)
    requires r.kind != "" && r.key != "" && Opening(id, r, gateId) <= acts
    ensures Run(NEW_KERNEL, guarded, acts, 3) == Asked(id, r, gateId)
  {
    assert acts[0] == SaveRun(id, [r], true) && acts[1] == RecordReserve(id) && acts[2] == RequestGate(id, gateId);
    FirstSave(id, r, guarded);
    assert Run(NEW_KERNEL, guarded, acts, 1) == Saved(id, r);
    assert Run(NEW_KERNEL, guarded, acts, 2) == Next(Saved(id, r), guarded, acts[1]);
    ReserveAndAsk(id, r, gateId, guarded);
  }

  /** Five actions from the empty kernel strand a run. */
  lemma CrashStrands(id: string, r: Resource, gateId: string, guarded: bool)
    requires r.kind != "" && r.key != ""
    ensures Stranded(Run(NEW_KERNEL, guarded, Opening(id, r, gateId) + [Reject(gateId), CrashAndRestart], 5), gateId)
  {
    var acts := Opening(id, r, gateId) + [Reject(gateId), CrashAndRestart];
    OpeningAsks(id, r, gateId, guarded, acts);
    var k := Asked(id, r, gateId);
    assert Run(NEW_KERNEL, guarded, acts, 4)
      == k.(gates := map[gateId := Gate(id, Rejected)], stage := map[id := Cancelling]);
    assert CutShort(guarded, acts, gateId, 4);
    StrandedIff(guarded, acts, 5, gateId);
  }

  function Approval(id: string, gateId: string): seq<Action> {
    [ConsumeApproval(gateId, true), Activate(id), Submit(id)]
  }

  /** The kernel after `n` submissions of the run, the last of which is still running. */
  function Running(id: string, r: Resource, gateId: string, recovery: bool, submissions: seq<string>): K.Kernel {
    Asked(id, r, gateId).(gates := map[gateId := Gate(id, Approved)], runs := map[id := RunRecord(Active, [r], recovery)],
                          stage := map[id := Submitted], submissions := submissions)
  }

  lemma ApprovalSubmits(k: K.Kernel, id: string, r: Resource, gateId: string, g: GateState, recovery: bool)
    requires k == Asked(id, r, gateId).(gates := map[gateId := Gate(id, g)], runs := map[id := RunRecord(WaitingHuman, [r], recovery)],
                                        submissions := k.submissions) && g != Rejected
    ensures ApproveThrough(k, false, gateId, id) == Running(id, r, gateId, recovery, k.submissions + [id])
  {
    ConsumptionIsNext(k, id, r, gateId, g, recovery);
    var consumed := k.(gates := map[gateId := Gate(id, Approved)], stage := map[id := Consumed]);
    var active := Next(consumed, false, Activate(id));
    assert active == consumed.(runs := map[id := RunRecord(Active, [r], recovery)], stage := map[id := Started]);
  }

  lemma ConsumptionIsNext(k: K.Kernel, id: string, r: Resource, gateId: string, g: GateState, recovery: bool)
    requires k.gates == map[gateId := Gate(id, g)] && k.runs == map[id := RunRecord(WaitingHuman, [r], recovery)]
    requires k.stage == map[] && g != Rejected
    ensures Next(k, false, ConsumeApproval(gateId, true))
            == k.(gates := map[gateId := Gate(id, Approved)], stage := map[id := Consumed])
  {
  }

  lemma RunOfApproval(acts: seq<Action>, n: nat, id: string, gateId: string)
    requires n + 3 <= |acts| && acts[n..n + 3] == Approval(id, gateId)
    ensures Run(NEW_KERNEL, false, acts, n + 3) == ApproveThrough(Run(NEW_KERNEL, false, acts, n), false, gateId, id)
  {
    assert acts[n] == acts[n..n + 3][0] && acts[n + 1] == acts[n..n + 3][1] && acts[n + 2] == acts[n..n + 3][2];
    assert Run(NEW_KERNEL, false, acts, n + 2) == Next(Run(NEW_KERNEL, false, acts, n + 1), false, Activate(id));
  }

  /** The kernel after the runtime failed once; the gate is approved and the run waits with a recovery reason. */
  function Failed(id: string, r: Resource, gateId: string): K.Kernel {
    Asked(id, r, gateId).(gates := map[gateId := Gate(id, Approved)], runs := map[id := RunRecord(WaitingHuman, [r], true)],
                          submissions := [id])
  }

  lemma FailureIsNext(id: string, r: Resource, gateId: string)
    ensures Next(Running(id, r, gateId, false, [id]), false, FailExecution(id)) == Failed(id, r, gateId)
  {
    var failed := Next(Running(id, r, gateId, false, [id]), false, FailExecution(id));
    assert failed.runs == map[id := RunRecord(WaitingHuman, [r], true)] && failed.stage == map[];
  }

  lemma FirstTryFails(id: string, r: Resource, gateId: string, acts: seq<Action>)
    requires r.kind != "" && r.key != "" && Opening(id, r, gateId) + Approval(id, gateId) + [FailExecution(id)] <= acts
    ensures Run(NEW_KERNEL, false, acts, 7) == Failed(id, r, gateId)
  {
    var first := Opening(id, r, gateId) + Approval(id, gateId) + [FailExecution(id)];
    assert acts[6] == first[6] == FailExecution(id);
    assert Opening(id, r, gateId) <= acts && acts[3..6] == first[3..6] == Approval(id, gateId);
    OpeningAsks(id, r, gateId, false, acts);
    RunOfApproval(acts, 3, id, gateId);
    ApprovalSubmits(Asked(id, r, gateId), id, r, gateId, Requested, false);
    assert [] + [id] == [id];
    FailureIsNext(id, r, gateId);
  }

  /** Ten actions from the empty kernel submit one run twice through the coordinator alone. */
  lemma FailureSubmitsTwice(id: string, r: Resource, gateId: string)
    requires r.kind != "" && r.key != ""
    ensures var acts := Opening(id, r, gateId) + Approval(id, gateId) + [FailExecution(id)] + Approval(id, gateId);
      Run(NEW_KERNEL, false, acts, 10).submissions == [id, id]
  {
    var acts := Opening(id, r, gateId) + Approval(id, gateId) + [FailExecution(id)] + Approval(id, gateId);
    FirstTryFails(id, r, gateId, acts);
    assert acts[7..10] == Approval(id, gateId);
    RunOfApproval(acts, 7, id, gateId);
    ApprovalSubmits(Failed(id, r, gateId), id, r, gateId, Approved, true);
  }
}
